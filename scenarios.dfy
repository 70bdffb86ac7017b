/** The cases of the suite, stated about the model with their exact expected values. */
module Scenarios {
  import opened Decimal
  import opened Coverage
  import opened Presenters

  /** The report of the suite: statements 45/66, lines 24/34, methods 10/12, conditionals 11/20. */
  function SampleReport(): ProjectMetrics {
    ProjectMetrics(Counts(66, 45), Counts(34, 24), Counts(12, 10), Counts(20, 11))
  }

  /** Its rates are 68.18, 70.59, 83.33 and 55, and with thresholds 50 and 90 its level is yellow. */
  lemma ReadMetricSample()
    ensures var m := ReadMetric(SampleReport(), Thresholds(50.0, 90.0));
      && m.lines == Dimension(34, 24, 7059)
      && m.statements == Dimension(66, 45, 6818)
      && m.methods == Dimension(12, 10, 8333)
      && m.branches == Dimension(20, 11, 5500)
      && m.level == Yellow
  {
  }

  /** The lines and statements rates print as 70.59 and 68.18. */
  lemma SampleRatesPrint()
    ensures FormatRate(7059) == "70.59" && FormatRate(6818) == "68.18"
  {
    RateText(7059, "70", ".59");
    RateText(6818, "68", ".18");
  }

  /** The methods and branches rates print as 83.33 and 55. */
  lemma SampleRatesPrintMore()
    ensures FormatRate(8333) == "83.33" && FormatRate(5500) == "55"
  {
    RateText(8333, "83", ".33");
    RateText(5500, "55", "");
  }

  /** A rate whose integer numeral and fraction text are known prints as their concatenation. */
  lemma RateText(h: nat, whole: string, fraction: string)
    requires NatToString(h / 100) == whole && FractionDigits(h % 100) == fraction
    ensures FormatRate(h) == whole + fraction
  {
  }

  /** With thresholds 50 and 90: 49 is red, 89 yellow, 90 green. */
  lemma CalculateLevelCases()
    ensures CalculateLevel(49.0, Thresholds(50.0, 90.0)) == Red
    ensures CalculateLevel(89.0, Thresholds(50.0, 90.0)) == Yellow
    ensures CalculateLevel(90.0, Thresholds(50.0, 90.0)) == Green
  {
  }

  /** A metric with the given lines rate and level; its other parts play no role. */
  function WithLines(rate: Hundredths, l: Level): Metric {
    var d := Dimension(0, 0, 0);
    Metric(d, Dimension(0, 0, rate), d, d, l)
  }

  /** A lines rate of 50 under each level, with the payload's raw `state` strings. */
  lemma GenerateStatusCases()
    ensures GenerateStatus("https://example.com", "coverage", WithLines(5000, Red))
      == Status(Failure, "Error: Too low coverage - 50%", "https://example.com", "coverage")
    ensures GenerateStatus("https://example.com", "coverage", WithLines(5000, Yellow))
      == Status(Success, "Warning: low coverage - 50%", "https://example.com", "coverage")
    ensures GenerateStatus("https://example.com", "coverage", WithLines(5000, Green))
      == Status(Success, "Success: Coverage - 50%", "https://example.com", "coverage")
    ensures StateName(GenerateStatus("https://example.com", "coverage", WithLines(5000, Red)).state) == "failure"
    ensures StateName(GenerateStatus("https://example.com", "coverage", WithLines(5000, Yellow)).state) == "success"
    ensures StateName(GenerateStatus("https://example.com", "coverage", WithLines(5000, Green)).state) == "success"
  {
    RateText(5000, "50", "");
    StatusText("https://example.com", "coverage", WithLines(5000, Red), "50");
    StatusText("https://example.com", "coverage", WithLines(5000, Yellow), "50");
    StatusText("https://example.com", "coverage", WithLines(5000, Green), "50");
  }

  /** The status of a metric whose lines rate prints as `rate`. */
  lemma StatusText(targetUrl: string, statusContext: string, m: Metric, rate: string)
    requires FormatRate(m.lines.rate) == rate
    ensures GenerateStatus(targetUrl, statusContext, m).description == DescriptionPrefix(m.level) + rate + "%"
  {
  }

  /** A lines rate of 9.4 gives the badge message 9%. */
  lemma GenerateBadgeUrlCase()
    ensures GenerateBadgeUrl(WithLines(940, Green))
      == "https://img.shields.io" + "/static/v1" + "?label=coverage&message=" + "9" + "%&color=" + "green"
  {
    assert NatToString(9) == "9";
    BadgeFromParts(WithLines(940, Green), "9", "green");
  }

  /** The badge URL of a metric whose percentage numeral and colour are known. */
  lemma BadgeFromParts(m: Metric, digits: string, color: string)
    requires NatToString(m.lines.rate / 100) == digits && LevelName(m.level) == color
    ensures GenerateBadgeUrl(m)
      == "https://img.shields.io" + "/static/v1" + "?label=coverage&message=" + digits + "%&color=" + color
  {
  }

  /** 100 celebrates, 99.99 does not. */
  lemma GenerateEmojiCases()
    ensures GenerateEmoji(WithLines(10000, Green)) == " \U{1F389}"
    ensures GenerateEmoji(WithLines(9999, Green)) == ""
  {
  }

  /** The metric of the golden table: all totals 10, covered 1, 2, 3, 4, level yellow. */
  function TableSample(): Metric {
    Metric(Dimension(10, 1, 1000), Dimension(10, 2, 2000), Dimension(10, 3, 3000), Dimension(10, 4, 4000), Yellow)
  }

  /**
   * The golden table of the suite. Expected strings here are written in the
   * pieces the renderers join; the characters are those of the suite's text.
   */
  lemma GenerateTableCase()
    ensures GenerateTable(TableSample())
      == "\n## Coverage Report\n\n"
      + ("|  Totals | ![Coverage](" + ("https://img.shields.io" + "/static/v1" + "?label=coverage&message=" + "20" + "%&color=" + "yellow") + ") |")
      + "\n| :-- | --: |\n"
      + ("| " + "Statements:" + " | " + "20" + "% ( " + "2" + " / " + "10" + " ) |") + "\n"
      + ("| " + "Methods:" + " | " + "30" + "% ( " + "3" + " / " + "10" + " ) |") + "\n"
  {
    TableHeaderSample();
    StatementsRowSample();
    MethodsRowSample();
    var header := "|  Totals | ![Coverage](" + ("https://img.shields.io" + "/static/v1" + "?label=coverage&message=" + "20" + "%&color=" + "yellow") + ") |";
    var statements := "| " + "Statements:" + " | " + "20" + "% ( " + "2" + " / " + "10" + " ) |";
    var methods := "| " + "Methods:" + " | " + "30" + "% ( " + "3" + " / " + "10" + " ) |";
    TableFromLines(TableSample(), header, statements, methods);
  }

  /** The table of a metric whose header and body rows are known. */
  lemma TableFromLines(m: Metric, header: string, statements: string, methods: string)
    requires TableHeader(m) == header
    requires TableRow("Statements:", m.lines) == statements && TableRow("Methods:", m.methods) == methods
    ensures GenerateTable(m) == "\n## Coverage Report\n\n" + header + "\n| :-- | --: |\n" + statements + "\n" + methods + "\n"
  {
    TableTemplate(m);
  }

  lemma TableHeaderSample()
    ensures TableHeader(TableSample())
      == "|  Totals | ![Coverage](" + ("https://img.shields.io" + "/static/v1" + "?label=coverage&message=" + "20" + "%&color=" + "yellow") + ") |"
  {
    assert NatToString(20) == "20";
    BadgeFromParts(TableSample(), "20", "yellow");
    HeaderFromBadge(TableSample(), "https://img.shields.io" + "/static/v1" + "?label=coverage&message=" + "20" + "%&color=" + "yellow");
  }

  lemma HeaderFromBadge(m: Metric, url: string)
    requires GenerateBadgeUrl(m) == url
    ensures TableHeader(m) == "|  Totals | ![Coverage](" + url + ") |"
  {
  }

  lemma StatementsRowSample()
    ensures TableRow("Statements:", TableSample().lines) == ("| " + "Statements:" + " | " + "20" + "% ( " + "2" + " / " + "10" + " ) |")
  {
    RateText(2000, "20", "");
    RowText("Statements:", TableSample().lines, "20", "2", "10");
  }

  lemma MethodsRowSample()
    ensures TableRow("Methods:", TableSample().methods) == ("| " + "Methods:" + " | " + "30" + "% ( " + "3" + " / " + "10" + " ) |")
  {
    RateText(3000, "30", "");
    RowText("Methods:", TableSample().methods, "30", "3", "10");
  }

  /** A body row whose rate, covered and total texts are known. */
  lemma RowText(caption: string, d: Dimension, rate: string, covered: string, total: string)
    requires FormatRate(d.rate) == rate && NatToString(d.covered) == covered && NatToString(d.total) == total
    ensures TableRow(caption, d) == "| " + caption + " | " + rate + "% ( " + covered + " / " + total + " ) |"
  {
  }
}
