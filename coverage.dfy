/**
 * Coverage metrics of a Clover report and their severity level.
 *
 * A rate is kept exactly, in hundredths of a percent: the rate 70.59 of 24
 * covered lines out of 34 is the natural number 7059. The thresholds are
 * arbitrary numbers supplied by the caller, so they are reals compared with
 * the rate's value `h / 100`.
 */
module Coverage {
  import opened Wrappers

  /** A rate in hundredths of a percent. */
  type Hundredths = nat

  /** The number a rate stands for, in percent. */
  function RateValue(h: Hundredths): real {
    h as real / 100.0
  }

  /** A total/covered pair: one of the four count pairs derived from the project-level metrics node. */
  datatype Counts = Counts(total: nat, covered: nat)

  /** The four count pairs the extractor derives from the metrics node; `conditionals` become `branches`. */
  datatype ProjectMetrics = ProjectMetrics(statements: Counts, lines: Counts, methods: Counts, conditionals: Counts)

  /** One coverage dimension of a metric: `{total, covered, rate}`. */
  datatype Dimension = Dimension(total: nat, covered: nat, rate: Hundredths)

  datatype Level = Red | Yellow | Green

  /** The metric object: four dimensions and the level computed from the lines rate. */
  datatype Metric = Metric(statements: Dimension, lines: Dimension, methods: Dimension, branches: Dimension, level: Level)

  datatype Thresholds = Thresholds(thresholdAlert: real, thresholdWarning: real)

  /** The level as the string the badge and the metric object carry. */
  function LevelName(l: Level): (s: string)
    ensures ParseLevel(s) == Some(l)
  {
    match l
    case Red => "red"
    case Yellow => "yellow"
    case Green => "green"
  }

  /** Reads a level string; anything but the three names is refused. */
  function ParseLevel(s: string): Option<Level> {
    if s == "red" then Some(Red)
    else if s == "yellow" then Some(Yellow)
    else if s == "green" then Some(Green)
    else None
  }

  /** Every string ParseLevel accepts is the name of the level it reads. */
  lemma ParseLevelCanonical(s: string, l: Level)
    requires ParseLevel(s) == Some(l)
    ensures LevelName(l) == s
  {
  }

  /**
   * covered / total * 100, rounded to two decimals with ties upward; 0 when
   * total is 0. In hundredths this is the nearest integer to
   * 10000 * covered / total: 2 * total * r <= 20000 * covered + total < 2 * total * (r + 1).
   */
  function RateOf(c: Counts): (r: Hundredths)
    ensures c.total == 0 ==> r == 0
    ensures c.total > 0 ==> 2 * c.total * r <= 20000 * c.covered + c.total < 2 * c.total * (r + 1)
  {
    if c.total == 0 then 0 else (20000 * c.covered + c.total) / (2 * c.total)
  }

  lemma MulLeft(k: nat, a: nat, b: nat)
    requires a <= b
    ensures k * a <= k * b
  {
  }

  /** The rounding bracket of RateOf has one solution only. */
  lemma RateOfUnique(c: Counts, r: Hundredths)
    requires c.total > 0
    requires 2 * c.total * r <= 20000 * c.covered + c.total < 2 * c.total * (r + 1)
    ensures r == RateOf(c)
  {
    var q := RateOf(c);
    if r < q {
      MulLeft(2 * c.total, r + 1, q);
    } else if r > q {
      MulLeft(2 * c.total, q + 1, r);
    }
  }

  /** A rate of a pair with covered <= total lies in [0, 100]. */
  lemma RateBounded(c: Counts)
    requires c.covered <= c.total
    ensures RateOf(c) <= 10000
  {
    if c.total > 0 && RateOf(c) > 10000 {
      MulLeft(2 * c.total, 10001, RateOf(c));
    }
  }

  /** Covering more of the same total never lowers the rate. */
  lemma RateMonotone(c: Counts, d: Counts)
    requires c.total == d.total && c.covered <= d.covered
    ensures RateOf(c) <= RateOf(d)
  {
    if c.total > 0 && RateOf(c) > RateOf(d) {
      MulLeft(2 * c.total, RateOf(d) + 1, RateOf(c));
    }
  }

  /** Full coverage is a rate of exactly 100. */
  lemma RateFull(c: Counts)
    requires 0 < c.total == c.covered
    ensures RateOf(c) == 10000
  {
    RateOfUnique(c, 10000);
  }

  /**
   * The severity of a lines rate: below the alert threshold is red, from the
   * alert threshold up to but excluding the warning threshold is yellow, the
   * rest green. Both thresholds are inclusive lower bounds, and an inverted
   * pair (alert above warning) is applied literally.
   */
  function CalculateLevel(linesRate: real, t: Thresholds): (l: Level)
    ensures l == Red <==> linesRate < t.thresholdAlert
    ensures l == Yellow <==> t.thresholdAlert <= linesRate < t.thresholdWarning
    ensures l == Green <==> t.thresholdAlert <= linesRate && t.thresholdWarning <= linesRate
  {
    if linesRate < t.thresholdAlert then Red
    else if linesRate < t.thresholdWarning then Yellow
    else Green
  }

  /** red < yellow < green. */
  function Severity(l: Level): nat {
    match l
    case Red => 0
    case Yellow => 1
    case Green => 2
  }

  /** For fixed thresholds a higher lines rate never gives a more severe level. */
  lemma LevelMonotone(a: real, b: real, t: Thresholds)
    requires a <= b
    ensures Severity(CalculateLevel(a, t)) <= Severity(CalculateLevel(b, t))
  {
  }

  /** A dimension of a metric describes a pair of the report. */
  predicate Describes(d: Dimension, c: Counts) {
    d.total == c.total && d.covered == c.covered && d.rate == RateOf(c)
  }

  /** The metric of a report: each of the four dimensions with its rate, and the level of the lines rate. */
  function ReadMetric(p: ProjectMetrics, t: Thresholds): (m: Metric)
    ensures Describes(m.statements, p.statements) && Describes(m.lines, p.lines)
    ensures Describes(m.methods, p.methods) && Describes(m.branches, p.conditionals)
    ensures m.level == CalculateLevel(RateValue(m.lines.rate), t)
  {
    var lines := Dimension(p.lines.total, p.lines.covered, RateOf(p.lines));
    Metric(
      Dimension(p.statements.total, p.statements.covered, RateOf(p.statements)),
      lines,
      Dimension(p.methods.total, p.methods.covered, RateOf(p.methods)),
      Dimension(p.conditionals.total, p.conditionals.covered, RateOf(p.conditionals)),
      CalculateLevel(RateValue(lines.rate), t))
  }

  predicate Consistent(c: Counts) {
    c.covered <= c.total
  }

  /** A report whose covered counts do not exceed their totals gives rates in [0, 100]. */
  lemma ReadMetricRatesInRange(p: ProjectMetrics, t: Thresholds)
    requires Consistent(p.statements) && Consistent(p.lines) && Consistent(p.methods) && Consistent(p.conditionals)
    ensures var m := ReadMetric(p, t);
      m.statements.rate <= 10000 && m.lines.rate <= 10000 && m.methods.rate <= 10000 && m.branches.rate <= 10000
  {
    RateBounded(p.statements);
    RateBounded(p.lines);
    RateBounded(p.methods);
    RateBounded(p.conditionals);
  }

  /** The level depends on the report's lines pair and the thresholds only. */
  lemma LevelOnlyFromLines(p: ProjectMetrics, q: ProjectMetrics, t: Thresholds)
    requires p.lines == q.lines
    ensures ReadMetric(p, t).level == ReadMetric(q, t).level
  {
  }
}
