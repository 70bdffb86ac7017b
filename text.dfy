/** Small facts about strings used by the renderers and their decoders. */
module Text {

  /** `p` is a prefix of `s`. */
  predicate HasPrefix(p: string, s: string) {
    |p| <= |s| && s[..|p|] == p
  }

  /** Index of the first `c` in `s`, or `|s|` when there is none. */
  function IndexOf(s: string, c: char): (i: nat)
    ensures i <= |s|
    ensures i < |s| ==> s[i] == c
    ensures forall j :: 0 <= j < i ==> s[j] != c
  {
    if s == [] then 0
    else if s[0] == c then 0
    else 1 + IndexOf(s[1..], c)
  }

  /** The first `c` in `a + b` is the head of `b` when `a` has none. */
  lemma IndexOfAfter(a: string, b: string, c: char)
    requires c !in a
    requires |b| > 0 && b[0] == c
    ensures IndexOf(a + b, c) == |a|
  {
    assert (a + b)[|a|] == c;
  }

  /** The first `c` in a string without one is at its end. */
  lemma IndexOfAbsent(s: string, c: char)
    requires c !in s
    ensures IndexOf(s, c) == |s|
  {
  }

  /** The pieces of `s` between newline characters, as `s.split('\n')` gives them. */
  function SplitLines(s: string): (lines: seq<string>)
    ensures |lines| > 0
    decreases |s|
  {
    var i := IndexOf(s, '\n');
    if i == |s| then [s] else [s[..i]] + SplitLines(s[i + 1..])
  }

  /** A string without newline is a single line. */
  lemma SplitLinesSingle(a: string)
    requires '\n' !in a
    ensures SplitLines(a) == [a]
  {
    IndexOfAbsent(a, '\n');
  }

  /** Splitting `a` followed by a newline peels `a` off as the first line. */
  lemma SplitLinesCons(a: string, b: string)
    requires '\n' !in a
    ensures SplitLines(a + "\n" + b) == [a] + SplitLines(b)
  {
    var s := a + "\n" + b;
    assert s == a + ("\n" + b);
    IndexOfAfter(a, "\n" + b, '\n');
    assert s[..|a|] == a;
    assert s[|a| + 1..] == b;
  }

  /** The first `c` of `a` is the first `c` of `a + b`. */
  lemma IndexOfWithin(a: string, b: string, c: char)
    requires IndexOf(a, c) < |a|
    ensures IndexOf(a + b, c) == IndexOf(a, c)
  {
    var i, j := IndexOf(a, c), IndexOf(a + b, c);
    assert (a + b)[i] == c;
    if j < i {
      assert (a + b)[j] == a[j];
    }
  }

  /** Splitting `a`, a newline and a line `b` gives the lines of `a` and then `b`. */
  lemma {:induction false} SplitLinesSnoc(a: string, b: string)
    requires '\n' !in b
    ensures SplitLines(a + "\n" + b) == SplitLines(a) + [b]
    decreases |a|
  {
    var i := IndexOf(a, '\n');
    if i == |a| {
      assert '\n' !in a;
      SplitLinesCons(a, b);
      SplitLinesSingle(b);
    } else {
      var s := a + "\n" + b;
      IndexOfWithin(a, "\n" + b, '\n');
      assert s == a + ("\n" + b);
      assert s[..i] == a[..i];
      assert s[i + 1..] == a[i + 1..] + "\n" + b;
      SplitLinesSnoc(a[i + 1..], b);
    }
  }

  /** The lines joined with a newline between each two, as `lines.join('\n')` gives them. */
  function JoinLines(lines: seq<string>): string
    requires |lines| > 0
  {
    if |lines| == 1 then lines[0] else JoinLines(lines[..|lines| - 1]) + "\n" + lines[|lines| - 1]
  }

  /** Joining a prefix of `lines` one line longer adds a newline and that line. */
  lemma JoinLinesStep(lines: seq<string>, k: nat)
    requires 1 < k <= |lines|
    ensures JoinLines(lines[..k]) == JoinLines(lines[..k - 1]) + "\n" + lines[k - 1]
  {
    assert lines[..k][..k - 1] == lines[..k - 1];
  }

  /** Splitting lines that were joined gives them back, when none holds a newline. */
  lemma {:induction false} SplitJoinLines(lines: seq<string>)
    requires |lines| > 0
    requires forall i :: 0 <= i < |lines| ==> '\n' !in lines[i]
    ensures SplitLines(JoinLines(lines)) == lines
  {
    var n := |lines|;
    if n == 1 {
      SplitLinesSingle(lines[0]);
    } else {
      SplitLinesSnoc(JoinLines(lines[..n - 1]), lines[n - 1]);
      SplitJoinLines(lines[..n - 1]);
      assert lines == lines[..n - 1] + [lines[n - 1]];
    }
  }

  /** Joining a first line before further lines puts a newline between it and their join. */
  lemma {:induction false} JoinCons(a: string, lines: seq<string>)
    requires |lines| > 0
    ensures JoinLines([a] + lines) == a + "\n" + JoinLines(lines)
    decreases |lines|
  {
    var n := |lines|;
    if n > 1 {
      assert ([a] + lines)[..n] == [a] + lines[..n - 1];
      JoinCons(a, lines[..n - 1]);
    }
  }

  /** Joining the lines of a string gives the string back. */
  lemma {:induction false} JoinSplitLines(s: string)
    ensures JoinLines(SplitLines(s)) == s
    decreases |s|
  {
    var i := IndexOf(s, '\n');
    if i < |s| {
      JoinSplitLines(s[i + 1..]);
      JoinCons(s[..i], SplitLines(s[i + 1..]));
      assert s == s[..i] + "\n" + s[i + 1..];
    }
  }

  /** Two strings with the same lines are the same string. */
  lemma SplitLinesInjective(a: string, b: string)
    requires SplitLines(a) == SplitLines(b)
    ensures a == b
  {
    JoinSplitLines(a);
    JoinSplitLines(b);
  }
}
