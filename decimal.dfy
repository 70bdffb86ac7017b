/**
 * Decimal text of the numbers the reports show. A rate is kept exactly in
 * hundredths of a percent (7059 stands for 70.59) and is rendered the way a
 * JavaScript number prints in a template string: integer part, then a point
 * and one or two fraction digits only when the fraction is not zero, never a
 * trailing zero (`50`, `70.59`, `9.4`).
 */
module Decimal {
  import opened Wrappers

  predicate IsDigit(c: char) {
    '0' <= c <= '9'
  }

  function DigitValue(c: char): (d: nat)
    requires IsDigit(c)
    ensures d < 10
  {
    c as int - '0' as int
  }

  function DigitChar(d: nat): (c: char)
    requires d < 10
    ensures IsDigit(c) && DigitValue(c) == d
  {
    ('0' as int + d) as char
  }

  lemma DigitCharValue(c: char)
    requires IsDigit(c)
    ensures DigitChar(DigitValue(c)) == c
  {
  }

  predicate AllDigits(s: string) {
    forall i :: 0 <= i < |s| ==> IsDigit(s[i])
  }

  /** A numeral as String(n) prints it: digits only, no leading zero except in "0". */
  predicate Canonical(s: string) {
    |s| > 0 && AllDigits(s) && (s[0] == '0' ==> |s| == 1)
  }

  /** The numeral of a natural number. */
  function NatToString(n: nat): (s: string)
    ensures Canonical(s)
    ensures s[0] == '0' <==> n == 0
  {
    if n < 10 then [DigitChar(n)] else NatToString(n / 10) + [DigitChar(n % 10)]
  }

  /** The value of a string of digits, most significant first. */
  function DigitsValue(s: string): nat
    requires AllDigits(s)
  {
    if s == [] then 0 else 10 * DigitsValue(s[..|s| - 1]) + DigitValue(s[|s| - 1])
  }

  /** Reads a canonical numeral; anything else is refused. */
  function ParseNat(s: string): Option<nat> {
    if Canonical(s) then Some(DigitsValue(s)) else None
  }

  /** Reading back the numeral of `n` gives `n`. */
  lemma {:induction false} NatToStringRoundTrip(n: nat)
    ensures DigitsValue(NatToString(n)) == n
    ensures ParseNat(NatToString(n)) == Some(n)
  {
    if n >= 10 {
      var s := NatToString(n);
      assert s[..|s| - 1] == NatToString(n / 10);
      NatToStringRoundTrip(n / 10);
    }
  }

  /** The leading digit bounds the value from below. */
  lemma {:induction false} LeadingDigitBound(s: string)
    requires |s| > 0 && AllDigits(s)
    ensures DigitsValue(s) >= DigitValue(s[0])
  {
    if |s| > 1 {
      var p := s[..|s| - 1];
      assert p[0] == s[0];
      LeadingDigitBound(p);
    }
  }

  /** Every string ParseNat accepts is the numeral of the value it reads. */
  lemma {:induction false} ParseNatCanonical(s: string, n: nat)
    requires ParseNat(s) == Some(n)
    ensures NatToString(n) == s
  {
    if |s| == 1 {
      DigitCharValue(s[0]);
    } else {
      var p := s[..|s| - 1];
      var d := DigitValue(s[|s| - 1]);
      assert p[0] == s[0];
      assert Canonical(p);
      LeadingDigitBound(p);
      var v := DigitsValue(p);
      assert n == 10 * v + d;
      assert n / 10 == v && n % 10 == d;
      ParseNatCanonical(p, v);
      DigitCharValue(s[|s| - 1]);
      assert s == p + [s[|s| - 1]];
    }
  }

  /** ParseNat and NatToString are inverse: a numeral reads as `n` exactly when it is `n`'s numeral. */
  lemma ParseNatIff(s: string, n: nat)
    ensures ParseNat(s) == Some(n) <==> s == NatToString(n)
  {
    if ParseNat(s) == Some(n) {
      ParseNatCanonical(s, n);
    }
    if s == NatToString(n) {
      NatToStringRoundTrip(n);
    }
  }

  /** The fraction part of a rate in hundredths: nothing, or a point and one or two digits without trailing zero. */
  function FractionDigits(f: nat): string
    requires f < 100
  {
    if f == 0 then ""
    else if f % 10 == 0 then ['.', DigitChar(f / 10)]
    else ['.', DigitChar(f / 10), DigitChar(f % 10)]
  }

  /** A rate in hundredths, printed as the number `h / 100`; reading it back gives `h`. */
  function FormatRate(h: nat): (s: string)
    ensures ParseRate(s) == Some(h)
  {
    FormatPiecesRoundTrip(h / 100, h % 100);
    NatToString(h / 100) + FractionDigits(h % 100)
  }

  /** Reads a printed rate: a canonical integer part, then optionally a point
      and one or two digits whose last is not zero. */
  function ParseRate(s: string): Option<nat> {
    var n := |s|;
    if n >= 3 && s[n - 3] == '.' then
      if IsDigit(s[n - 2]) && IsDigit(s[n - 1]) && s[n - 1] != '0' then
        match ParseNat(s[..n - 3])
        case Some(i) => Some(100 * i + 10 * DigitValue(s[n - 2]) + DigitValue(s[n - 1]))
        case None => None
      else None
    else if n >= 2 && s[n - 2] == '.' then
      if IsDigit(s[n - 1]) && s[n - 1] != '0' then
        match ParseNat(s[..n - 2])
        case Some(i) => Some(100 * i + 10 * DigitValue(s[n - 1]))
        case None => None
      else None
    else
      match ParseNat(s)
      case Some(i) => Some(100 * i)
      case None => None
  }

  /** An integer part followed by the fraction digits of `f` reads back as `100 * i + f`. */
  lemma FormatPiecesRoundTrip(i: nat, f: nat)
    requires f < 100
    ensures ParseRate(NatToString(i) + FractionDigits(f)) == Some(100 * i + f)
  {
    var p := NatToString(i);
    var s := p + FractionDigits(f);
    NatToStringRoundTrip(i);
    if f == 0 {
      assert s == p;
      assert !IsDigit('.');
      assert |s| >= 3 ==> IsDigit(s[|s| - 3]);
      assert |s| >= 2 ==> IsDigit(s[|s| - 2]);
    } else if f % 10 == 0 {
      assert s[..|s| - 2] == p;
      assert |s| >= 3 && IsDigit(s[|s| - 3]);
    } else {
      assert s[..|s| - 3] == p;
    }
  }

  /** Every string ParseRate accepts is the printed form of the rate it reads. */
  lemma ParseRateCanonical(s: string, h: nat)
    requires ParseRate(s) == Some(h)
    ensures FormatRate(h) == s
  {
    var n := |s|;
    if n >= 3 && s[n - 3] == '.' {
      ParseRateTwoDigits(s, h);
    } else if n >= 2 && s[n - 2] == '.' {
      ParseRateOneDigit(s, h);
    } else {
      ParseRateWhole(s, h);
    }
  }

  lemma ParseRateWhole(s: string, h: nat)
    requires !(|s| >= 2 && s[|s| - 2] == '.') && !(|s| >= 3 && s[|s| - 3] == '.')
    requires ParseRate(s) == Some(h)
    ensures FormatRate(h) == s
  {
    var i := ParseNat(s).value;
    assert h == 100 * i;
    ParseNatCanonical(s, i);
    assert h / 100 == i && h % 100 == 0;
    assert s == NatToString(i) + FractionDigits(0);
  }

  lemma ParseRateTwoDigits(s: string, h: nat)
    requires |s| >= 3 && s[|s| - 3] == '.'
    requires ParseRate(s) == Some(h)
    ensures FormatRate(h) == s
  {
    var n := |s|;
    var p, c1, c2 := s[..n - 3], s[n - 2], s[n - 1];
    assert s == p + ['.', c1, c2];
    var i := TwoDigitParts(s);
    assert h == 100 * i + 10 * DigitValue(c1) + DigitValue(c2);
    ParseNatCanonical(p, i);
    TwoDigitFraction(p, i, c1, c2);
  }

  /** What ParseRate reads from a string with two fraction digits. */
  lemma TwoDigitParts(s: string) returns (i: nat)
    requires |s| >= 3 && s[|s| - 3] == '.'
    requires ParseRate(s).Some?
    ensures IsDigit(s[|s| - 2]) && IsDigit(s[|s| - 1]) && s[|s| - 1] != '0'
    ensures ParseNat(s[..|s| - 3]) == Some(i)
    ensures ParseRate(s) == Some(100 * i + 10 * DigitValue(s[|s| - 2]) + DigitValue(s[|s| - 1]))
  {
    i := ParseNat(s[..|s| - 3]).value;
  }

  lemma ParseRateOneDigit(s: string, h: nat)
    requires |s| >= 2 && s[|s| - 2] == '.'
    requires !(|s| >= 3 && s[|s| - 3] == '.')
    requires ParseRate(s) == Some(h)
    ensures FormatRate(h) == s
  {
    var n := |s|;
    var p := s[..n - 2];
    var i := ParseNat(p).value;
    ParseNatCanonical(p, i);
    OneDigitFraction(p, i, s[n - 1]);
    assert s == p + ['.', s[n - 1]];
  }

  lemma TwoDigitFraction(p: string, i: nat, c1: char, c2: char)
    requires NatToString(i) == p
    requires IsDigit(c1) && IsDigit(c2) && c2 != '0'
    ensures FormatRate(100 * i + 10 * DigitValue(c1) + DigitValue(c2)) == p + ['.', c1, c2]
  {
    var d1, d2 := DigitValue(c1), DigitValue(c2);
    var h := 100 * i + 10 * d1 + d2;
    assert h / 100 == i && h % 100 == 10 * d1 + d2;
    assert (10 * d1 + d2) / 10 == d1 && (10 * d1 + d2) % 10 == d2;
    DigitCharValue(c1);
    DigitCharValue(c2);
    assert FractionDigits(10 * d1 + d2) == ['.', c1, c2];
    assert FormatRate(h) == NatToString(i) + FractionDigits(10 * d1 + d2);
  }

  lemma OneDigitFraction(p: string, i: nat, c: char)
    requires NatToString(i) == p
    requires IsDigit(c) && c != '0'
    ensures FormatRate(100 * i + 10 * DigitValue(c)) == p + ['.', c]
  {
    var d := DigitValue(c);
    var h := 100 * i + 10 * d;
    assert h / 100 == i && h % 100 == 10 * d;
    assert (10 * d) / 10 == d && (10 * d) % 10 == 0;
    DigitCharValue(c);
    assert FractionDigits(10 * d) == ['.', c];
    assert FormatRate(h) == NatToString(i) + FractionDigits(10 * d);
  }

  /** Distinct rates print differently. */
  lemma FormatRateInjective(a: nat, b: nat)
    requires FormatRate(a) == FormatRate(b)
    ensures a == b
  {
  }
}
