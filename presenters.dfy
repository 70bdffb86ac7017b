/**
 * The renderers of a classified metric: the commit-status payload, the
 * shields.io badge URL, the emoji suffix and the markdown summary table.
 * Every one is a function of its arguments; none changes the metric.
 */
module Presenters {
  import opened Wrappers
  import opened Text
  import opened Decimal
  import opened Coverage

  // ---------------------------------------------------------------- status

  datatype State = Success | Failure

  /** The commit-status payload; `targetUrl` and `context` are the `target_url` and `context` keys. */
  datatype Status = Status(state: State, description: string, targetUrl: string, context: string)

  function StateName(s: State): string {
    match s
    case Success => "success"
    case Failure => "failure"
  }

  /** The fixed text in front of the rate in a status description. */
  function DescriptionPrefix(l: Level): string {
    match l
    case Red => "Error: Too low coverage - "
    case Yellow => "Warning: low coverage - "
    case Green => "Success: Coverage - "
  }

  /**
   * The status of a metric: failure when red, success otherwise. The
   * description reads back as the metric's level and its lines rate.
   */
  function GenerateStatus(targetUrl: string, statusContext: string, m: Metric): (s: Status)
    ensures s.state == Failure <==> m.level == Red
    ensures s.targetUrl == targetUrl && s.context == statusContext
    ensures ParseDescription(s.description) == Some((m.level, m.lines.rate))
  {
    DescriptionRoundTrip(m.level, m.lines.rate);
    Status(
      if m.level == Red then Failure else Success,
      DescriptionPrefix(m.level) + FormatRate(m.lines.rate) + "%",
      targetUrl,
      statusContext)
  }

  /** The level whose description prefix starts `body`. */
  function DescriptionLevel(body: string): (l: Option<Level>)
    ensures l.Some? ==> HasPrefix(DescriptionPrefix(l.value), body)
  {
    if HasPrefix(DescriptionPrefix(Red), body) then Some(Red)
    else if HasPrefix(DescriptionPrefix(Yellow), body) then Some(Yellow)
    else if HasPrefix(DescriptionPrefix(Green), body) then Some(Green)
    else None
  }

  /** Reads the level and the rate back out of a status description. */
  function ParseDescription(d: string): Option<(Level, Hundredths)> {
    if |d| == 0 || d[|d| - 1] != '%' then None
    else
      var body := d[..|d| - 1];
      match DescriptionLevel(body)
      case None => None
      case Some(l) =>
        match ParseRate(body[|DescriptionPrefix(l)|..])
        case None => None
        case Some(r) => Some((l, r))
  }

  /** Only the prefix of its own level starts a description. */
  lemma PrefixesDistinct(l: Level, k: Level, rest: string)
    requires HasPrefix(DescriptionPrefix(k), DescriptionPrefix(l) + rest)
    ensures k == l
  {
    var s := DescriptionPrefix(l) + rest;
    assert s[0] == DescriptionPrefix(l)[0];
    assert s[..|DescriptionPrefix(k)|][0] == DescriptionPrefix(k)[0];
  }

  /** A description built from a level and a rate reads back as both. */
  lemma DescriptionRoundTrip(l: Level, h: Hundredths)
    ensures ParseDescription(DescriptionPrefix(l) + FormatRate(h) + "%") == Some((l, h))
  {
    var p := DescriptionPrefix(l);
    var rate := FormatRate(h);
    var d := p + rate + "%";
    var body := d[..|d| - 1];
    assert body == p + rate;
    assert HasPrefix(p, body);
    forall k: Level | HasPrefix(DescriptionPrefix(k), body)
      ensures k == l
    {
      PrefixesDistinct(l, k, rate);
    }
    assert body[|p|..] == rate;
  }

  /** Every description ParseDescription accepts is the one GenerateStatus writes for that level and rate. */
  lemma ParseDescriptionCanonical(d: string, l: Level, r: Hundredths)
    requires ParseDescription(d) == Some((l, r))
    ensures d == DescriptionPrefix(l) + FormatRate(r) + "%"
  {
    var body := d[..|d| - 1];
    assert DescriptionLevel(body) == Some(l);
    DescriptionParts(d, body, DescriptionPrefix(l), r);
  }

  lemma DescriptionParts(d: string, body: string, p: string, r: Hundredths)
    requires |d| > 0 && d[|d| - 1] == '%' && body == d[..|d| - 1]
    requires HasPrefix(p, body)
    requires ParseRate(body[|p|..]) == Some(r)
    ensures d == p + FormatRate(r) + "%"
  {
    var rest := body[|p|..];
    ParseRateCanonical(rest, r);
    assert body == p + rest;
    assert d == body + "%";
  }

  // ---------------------------------------------------------------- badge

  /**
   * The shields.io static-badge endpoint and the query up to the message
   * value, kept in three short literals so that facts about its characters
   * stay cheap to prove.
   */
  const BADGE_BASE := "https://img.shields.io" + "/static/v1" + "?label=coverage&message="
  const BADGE_COLOR := "%&color="

  /**
   * The badge URL: the lines rate with its fraction dropped, and the raw level
   * string as colour. It reads back as the integer part of the lines rate
   * (9.4 shows as 9, 9.9 as 9) and the level.
   */
  function GenerateBadgeUrl(m: Metric): (url: string)
    ensures ParseBadgeUrl(url).Some?
    ensures var (k, l) := ParseBadgeUrl(url).value;
      100 * k <= m.lines.rate < 100 * (k + 1) && l == m.level
  {
    BadgePiecesRoundTrip(m.lines.rate / 100, m.level);
    BADGE_BASE + NatToString(m.lines.rate / 100) + BADGE_COLOR + LevelName(m.level)
  }

  /** Reads the percentage and the colour back out of a badge URL. */
  function ParseBadgeUrl(url: string): Option<(nat, Level)> {
    if !HasPrefix(BADGE_BASE, url) then None
    else
      var rest := url[|BADGE_BASE|..];
      var i := IndexOf(rest, '%');
      match ParseNat(rest[..i])
      case None => None
      case Some(k) =>
        var tail := rest[i..];
        if !HasPrefix(BADGE_COLOR, tail) then None
        else
          match ParseLevel(tail[|BADGE_COLOR|..])
          case None => None
          case Some(l) => Some((k, l))
  }

  /** Every URL ParseBadgeUrl accepts is the one GenerateBadgeUrl writes for that percentage and level. */
  lemma ParseBadgeUrlCanonical(url: string, k: nat, l: Level)
    requires ParseBadgeUrl(url) == Some((k, l))
    ensures url == BADGE_BASE + NatToString(k) + BADGE_COLOR + LevelName(l)
  {
    var rest, i := BadgeUrlParts(url, k, l);
    ParseNatCanonical(rest[..i], k);
    ParseLevelCanonical(rest[i..][|BADGE_COLOR|..], l);
    BadgeRejoin(url, BADGE_BASE, BADGE_COLOR, rest, i);
  }

  /** A URL cut after a base, at `i` in the rest, and after a colour key is the concatenation of the pieces. */
  lemma BadgeRejoin(url: string, base: string, color: string, rest: string, i: nat)
    requires HasPrefix(base, url) && rest == url[|base|..] && i <= |rest|
    requires HasPrefix(color, rest[i..])
    ensures url == base + rest[..i] + color + rest[i..][|color|..]
  {
    var tail := rest[i..];
    assert tail == color + tail[|color|..];
    assert rest == rest[..i] + tail;
    assert url == base + rest;
  }

  /** What ParseBadgeUrl reads from an accepted URL: the numeral ends at `i`, the colour follows. */
  lemma BadgeUrlParts(url: string, k: nat, l: Level) returns (rest: string, i: nat)
    requires ParseBadgeUrl(url) == Some((k, l))
    ensures HasPrefix(BADGE_BASE, url) && rest == url[|BADGE_BASE|..] && i <= |rest|
    ensures ParseNat(rest[..i]) == Some(k)
    ensures HasPrefix(BADGE_COLOR, rest[i..]) && ParseLevel(rest[i..][|BADGE_COLOR|..]) == Some(l)
  {
    rest := url[|BADGE_BASE|..];
    i := IndexOf(rest, '%');
  }

  lemma DigitsHaveNo(s: string, c: char)
    requires AllDigits(s) && !IsDigit(c)
    ensures c !in s
  {
  }

  /** A badge URL built from a percentage and a level reads back as both. */
  lemma BadgePiecesRoundTrip(k: nat, level: Level)
    ensures ParseBadgeUrl(BADGE_BASE + NatToString(k) + BADGE_COLOR + LevelName(level)) == Some((k, level))
  {
    BadgeNameRoundTrip(k, LevelName(level));
  }

  lemma BadgeNameRoundTrip(k: nat, name: string)
    requires ParseLevel(name).Some?
    ensures ParseBadgeUrl(BADGE_BASE + NatToString(k) + BADGE_COLOR + name) == Some((k, ParseLevel(name).value))
  {
    var digits := NatToString(k);
    var url := BADGE_BASE + digits + BADGE_COLOR + name;
    var rest := url[|BADGE_BASE|..];
    assert url[..|BADGE_BASE|] == BADGE_BASE;
    assert rest == digits + (BADGE_COLOR + name);
    DigitsHaveNo(digits, '%');
    IndexOfAfter(digits, BADGE_COLOR + name, '%');
    assert rest[..|digits|] == digits;
    NatToStringRoundTrip(k);
    var tail := rest[|digits|..];
    assert tail == BADGE_COLOR + name;
    assert tail[..|BADGE_COLOR|] == BADGE_COLOR;
    assert tail[|BADGE_COLOR|..] == name;
  }

  // ---------------------------------------------------------------- emoji

  const CELEBRATION := " \U{1F389}"

  /** A party-popper suffix for a lines rate of exactly 100, nothing otherwise. */
  function GenerateEmoji(m: Metric): (e: string)
    ensures e == CELEBRATION || e == ""
    ensures e == CELEBRATION <==> RateValue(m.lines.rate) == 100.0
  {
    if m.lines.rate == 10000 then CELEBRATION else ""
  }

  /** Every line covered earns the suffix. */
  lemma FullCoverageCelebrates(p: ProjectMetrics, t: Thresholds)
    requires 0 < p.lines.total == p.lines.covered
    ensures GenerateEmoji(ReadMetric(p, t)) == CELEBRATION
  {
    RateFull(p.lines);
  }

  /** Rounding to two decimals makes 39999 of 40000 lines (99.9975%) a rate of 100, so the suffix shows. */
  lemma NearlyFullCelebrates(p: ProjectMetrics, t: Thresholds)
    requires p.lines == Counts(40000, 39999)
    ensures GenerateEmoji(ReadMetric(p, t)) == CELEBRATION
  {
  }

  // ---------------------------------------------------------------- table

  /** The header row, with the badge of the metric in its second cell. */
  function TableHeader(m: Metric): string {
    "|  Totals | ![Coverage](" + GenerateBadgeUrl(m) + ") |"
  }

  /** A body row: `rate% ( covered / total )` of one dimension. */
  function TableRow(caption: string, d: Dimension): string {
    "| " + caption + " | " + FormatRate(d.rate) + "% ( " + NatToString(d.covered) + " / " + NatToString(d.total) + " ) |"
  }

  /**
   * The markdown summary: a blank line, the heading, a blank line, the
   * header row, the alignment row, two body rows, and a final newline. As
   * the suite fixes it, the "Statements:" row shows the figures of the lines
   * dimension and the "Methods:" row those of the methods dimension;
   * statements and branches are not shown. Split at its newlines, the table
   * gives back exactly these lines.
   */
  function GenerateTable(m: Metric): (table: string)
    ensures SplitLines(table) == ["", "## Coverage Report", "", TableHeader(m),
      "| :-- | --: |", TableRow("Statements:", m.lines), TableRow("Methods:", m.methods), ""]
  {
    HeaderOneLine(m);
    RowOneLine("Statements:", m.lines);
    RowOneLine("Methods:", m.methods);
    TableSplits(TableHeader(m), TableRow("Statements:", m.lines), TableRow("Methods:", m.methods));
    JoinLines(["", "## Coverage Report", "", TableHeader(m), "| :-- | --: |",
      TableRow("Statements:", m.lines), TableRow("Methods:", m.methods), ""])
  }

  /** The table's lines, none holding a newline, split back out of their join. */
  lemma TableSplits(h: string, s: string, t: string)
    requires '\n' !in h && '\n' !in s && '\n' !in t
    ensures var lines := ["", "## Coverage Report", "", h, "| :-- | --: |", s, t, ""];
      SplitLines(JoinLines(lines)) == lines
  {
    SplitJoinLines(["", "## Coverage Report", "", h, "| :-- | --: |", s, t, ""]);
  }

  lemma NumeralsOneLine(n: nat)
    ensures '\n' !in NatToString(n) && '\n' !in FormatRate(n)
  {
    DigitsHaveNo(NatToString(n), '\n');
    DigitsHaveNo(NatToString(n / 100), '\n');
  }

  lemma RowOneLine(caption: string, d: Dimension)
    requires '\n' !in caption
    ensures '\n' !in TableRow(caption, d)
  {
    NumeralsOneLine(d.rate);
    NumeralsOneLine(d.covered);
    NumeralsOneLine(d.total);
  }

  lemma BadgeBaseOneLine()
    ensures '\n' !in BADGE_BASE
  {
    assert '\n' !in "https://img.shields.io";
    assert '\n' !in "/static/v1";
    assert '\n' !in "?label=coverage&message=";
  }

  lemma BadgeOneLine(k: nat, level: Level)
    ensures '\n' !in BADGE_BASE + NatToString(k) + BADGE_COLOR + LevelName(level)
  {
    BadgeBaseOneLine();
    assert '\n' !in LevelName(level);
    NumeralsOneLine(k);
  }

  lemma HeaderOneLine(m: Metric)
    ensures '\n' !in TableHeader(m)
  {
    BadgeOneLine(m.lines.rate / 100, m.level);
  }

  /** A string is the table exactly when its lines are the table's eight lines. */
  lemma TableFromItsLines(m: Metric, s: string)
    requires SplitLines(s) == ["", "## Coverage Report", "", TableHeader(m),
      "| :-- | --: |", TableRow("Statements:", m.lines), TableRow("Methods:", m.methods), ""]
    ensures s == GenerateTable(m)
  {
    SplitLinesInjective(s, GenerateTable(m));
  }

  /** The table as one template: the same text the suite's golden string spells out. */
  lemma TableTemplate(m: Metric)
    ensures GenerateTable(m) == "\n## Coverage Report\n\n" + TableHeader(m) + "\n| :-- | --: |\n"
      + TableRow("Statements:", m.lines) + "\n" + TableRow("Methods:", m.methods) + "\n"
  {
    JoinTableLines(TableHeader(m), TableRow("Statements:", m.lines), TableRow("Methods:", m.methods));
  }

  lemma JoinTableLines(h: string, s: string, t: string)
    ensures JoinLines(["", "## Coverage Report", "", h, "| :-- | --: |", s, t, ""])
      == "\n## Coverage Report\n\n" + h + "\n| :-- | --: |\n" + s + "\n" + t + "\n"
  {
    var l := ["", "## Coverage Report", "", h, "| :-- | --: |", s, t, ""];
    assert JoinLines(l[..1]) == "";
    JoinLinesStep(l, 2);
    JoinLinesStep(l, 3);
    JoinLinesStep(l, 4);
    JoinLinesStep(l, 5);
    JoinLinesStep(l, 6);
    JoinLinesStep(l, 7);
    JoinLinesStep(l, 8);
    assert l[..8] == l;
    LiteralPieces();
  }

  lemma LiteralPieces()
    ensures "" + "\n" + "## Coverage Report" + "\n" + "" + "\n" == "\n## Coverage Report\n\n"
    ensures "\n" + "| :-- | --: |" + "\n" == "\n| :-- | --: |\n"
  {
  }

  /** The table ignores the statements and branches dimensions. */
  lemma TableIgnoresStatementsAndBranches(m: Metric, n: Metric)
    requires m.lines == n.lines && m.methods == n.methods && m.level == n.level
    ensures GenerateTable(m) == GenerateTable(n)
  {
  }
}
