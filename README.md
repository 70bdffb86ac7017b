# Coverage monitor: metric, level and presenters

This project models the functional core of a coverage-monitor CI action. The action reads the
project-level metrics node of a Clover coverage report. From it, the extractor derives four
total/covered count pairs: statements, lines, methods and conditionals. It turns each pair into
a rate rounded to two decimals. It
classifies the lines rate against two thresholds as `red`, `yellow` or `green`. From the
classified metric it renders four outputs:

- a commit-status payload;
- a shields.io static-badge URL;
- a celebration suffix when coverage is 100%;
- a markdown summary table.

Every operation is a pure function of its arguments, so the model is written as datatypes,
functions and lemmas. No operation changes the metric it receives. In the model that holds by
construction, because metrics are immutable datatype values.

The behaviour modelled is the one the Jest suite `tests/functions.test.js` fixes for the module
`src/functions`.

Representation choices:

- **Rates are exact.** A rate is a natural number of hundredths of a percent: 70.59% is `7059`.
  `Coverage.RateOf` is `covered / total * 100` rounded to the nearest hundredth, with ties
  upward as `Math.round` does, and `total = 0` gives 0. IEEE-754 effects are not modelled
  (see below).
- **Numbers print as JavaScript prints them.** `Decimal.FormatRate` renders `h / 100` the way a
  JavaScript number prints in a template string: `50`, `70.59` and `9.4`, with no trailing
  zeros. `Decimal.NatToString` renders counts. Each formatter is paired with a parser
  (`ParseRate`, `ParseNat`). Lemmas prove that formatter and parser are mutually inverse
  bijections between numbers and canonical numerals.
- **Thresholds are reals.** They are compared literally with the rate's value. Both are
  inclusive lower bounds: for `yellow` and for `green` respectively.
- **The report is a typed record.** `Coverage.ProjectMetrics` holds the four count pairs the
  extractor derives from the metrics node. The conditionals pair becomes the metric's `branches`.
- **The status, badge and table presenters have decoders.** `ParseDescription` reads back a
  status description, `ParseBadgeUrl` reads back a badge URL, and `Text.SplitLines` splits the
  table into its lines. The contract of each of these presenters ties it to its decoder. For
  the status and the badge, a canonical lemma shows the decoder accepts only what the presenter
  writes. `SplitLines` accepts every string, but `Text.JoinSplitLines` shows that the lines
  determine the string, so the table's lines fix its text (`Presenters.TableFromItsLines`).
  `GenerateEmoji` has no decoder: its contract states its two possible results directly.

Modules, one per component:

- `wrappers.dfy`: `Option`.
- `text.dfy`: prefixes, searching, splitting and joining lines.
- `decimal.dfy`: numerals.
- `coverage.dfy`: metric extraction and level classification.
- `presenters.dfy`: the four renderers.
- `scenarios.dfy`: the suite's concrete cases, each with its exact expected value.

Points where the suite decides against a natural reading:

- The label of the table's `Statements:` row suggests the statements figures. The suite's
  golden string shows the lines figures in that row (tests/functions.test.js:125-129 and 148),
  so `GenerateTable` prints `m.lines` under `Statements:`. The `Methods:` row shows the methods
  figures.
- The comment at tests/functions.test.js:40 reads "79.59". The rate it compares is the lines
  rate 70.59 of line 34.
A consequence of rounding first, which no case of the suite exercises: a coverage of at least
99.995% but below 100% is rounded to two decimals before the suffix is decided. It becomes a
rate of exactly 100, so the suffix shows (`Presenters.NearlyFullCelebrates`). No rate of the
model lies strictly between 99.99 and 100.

## Model

| member | source | states |
|---|---|---|
| `Decimal.NatToString` | tests/functions.test.js:148-149 | a count prints as a canonical numeral: non-empty, digits only, and a leading `0` only for zero |
| `Decimal.NatToStringRoundTrip` | tests/functions.test.js:148-149 | reading back the printed count gives the count |
| `Decimal.ParseNatIff` | tests/functions.test.js:148-149 | a string reads as `n` exactly when it is the printed form of `n` (both directions) |
| `Decimal.FormatRate` | tests/functions.test.js:71 | a rate prints as a string that `ParseRate` reads back as the same rate (`50`, `70.59`, `9.4`); with `ParseRateCanonical` below, printing and reading are inverse |
| `Decimal.ParseRateCanonical` | tests/functions.test.js:71 | every accepted rate string is the printed form of the rate it reads: no trailing zero and at most two decimals |
| `Decimal.FormatRateInjective` | tests/functions.test.js:82 | distinct rates print differently |
| `Coverage.RateOf` | tests/functions.test.js:34-37 | the rate is covered/total·100 rounded to the nearest hundredth with ties upward, and 0 when total is 0 |
| `Coverage.RateOfUnique` | tests/functions.test.js:34-37 | that rounding bracket has exactly one solution, so it fixes the rate |
| `Coverage.RateBounded` | tests/functions.test.js:34-37 | when covered ≤ total, the rate is at most 100 |
| `Coverage.RateMonotone` | tests/functions.test.js:34-37 | for a fixed total, covering more never lowers the rate |
| `Coverage.RateFull` | tests/functions.test.js:112 | full coverage of a non-empty total is a rate of exactly 100 |
| `Coverage.LevelName` | tests/functions.test.js:104-107 | the level's raw string reads back as the same level |
| `Coverage.ParseLevelCanonical` | tests/functions.test.js:104-107 | only `red`, `yellow` and `green` read as levels, each as its own |
| `Coverage.CalculateLevel` | tests/functions.test.js:46-56 | for any numeric lines rate: red iff rate < alert; yellow iff alert ≤ rate < warning; green iff the rate is at least both thresholds |
| `Coverage.LevelMonotone` | tests/functions.test.js:46-56 | for fixed thresholds, a higher lines rate never gives a more severe level |
| `Coverage.ReadMetric` | tests/functions.test.js:25-40 | the metric has all four dimensions: totals and covered counts copied, rates as `RateOf` defines them, branches from conditionals; the level is the classification of the lines rate's value |
| `Coverage.ReadMetricRatesInRange` | tests/functions.test.js:27-37 | when no covered count exceeds its total, every rate of the metric lies in [0, 100] |
| `Coverage.LevelOnlyFromLines` | tests/functions.test.js:52-54 | the level depends only on the lines pair and the thresholds |
| `Presenters.GenerateStatus` | tests/functions.test.js:65-96 | the state is `failure` exactly for red and `success` otherwise; `target_url` and `context` are copied unchanged; the description decodes (`ParseDescription`) to the metric's level and its lines rate |
| `Presenters.DescriptionRoundTrip` | tests/functions.test.js:71-93 | a description built from any level and rate decodes to exactly that level and rate |
| `Presenters.ParseDescriptionCanonical` | tests/functions.test.js:71-93 | any description that decodes to a level and a rate is exactly "Error: Too low coverage - ", "Warning: low coverage - " or "Success: Coverage - ", then the printed rate, then `%` |
| `Presenters.GenerateBadgeUrl` | tests/functions.test.js:102-107 | the badge URL decodes (`ParseBadgeUrl`) to the integer part `k` of the lines rate, `100k ≤ rate < 100(k+1)`, so the fraction is dropped, not rounded, and to the level |
| `Presenters.BadgePiecesRoundTrip` | tests/functions.test.js:102-107 | a badge URL built from any percentage and level decodes to exactly that percentage and level |
| `Presenters.ParseBadgeUrlCanonical` | tests/functions.test.js:107 | every URL the decoder accepts is exactly the endpoint, the query up to `message=`, the percentage's numeral, `%&color=` and the level's name |
| `Presenters.GenerateEmoji` | tests/functions.test.js:110-114 | the suffix is " 🎉" exactly when the lines rate is 100, and otherwise the empty string |
| `Presenters.FullCoverageCelebrates` | tests/functions.test.js:112 | a report with every line covered earns the suffix |
| `Presenters.NearlyFullCelebrates` | tests/functions.test.js:112-113 | 39999 of 40000 lines rounds to a rate of 100 and earns the suffix |
| `Presenters.GenerateTable` | tests/functions.test.js:143-152 | the table's lines are: blank, `## Coverage Report`, blank, the header with the badge, the alignment row, the Statements row (lines figures), the Methods row, and an empty final line |
| `Text.JoinSplitLines` | tests/functions.test.js:143-152 | joining the lines of any string with newlines gives the string back, so two strings with the same lines are equal (`Text.SplitLinesInjective`) |
| `Presenters.TableFromItsLines` | tests/functions.test.js:143-152 | a string is the table exactly when its lines are the table's eight lines |
| `Presenters.TableTemplate` | tests/functions.test.js:143-152 | the table is the single template string of the suite |
| `Presenters.TableIgnoresStatementsAndBranches` | tests/functions.test.js:119-152 | the table depends only on the lines and methods dimensions and the level |
| `Scenarios.ReadMetricSample` | tests/functions.test.js:34-40 | 24/34, 45/66, 10/12 and 11/20 give 70.59, 68.18, 83.33 and 55; with thresholds 50 and 90 the level is yellow |
| `Scenarios.SampleRatesPrint` | tests/functions.test.js:34-35 | the lines and statements rates print as `70.59` and `68.18` |
| `Scenarios.SampleRatesPrintMore` | tests/functions.test.js:36-37 | the methods and branches rates print as `83.33` and `55` |
| `Scenarios.CalculateLevelCases` | tests/functions.test.js:46-56 | with thresholds 50 and 90: 49 is red, 89 yellow, 90 green |
| `Scenarios.GenerateStatusCases` | tests/functions.test.js:59-96 | the three exact status payloads for a lines rate of 50, with `state` the raw string `failure`, `success` and `success` |
| `Scenarios.GenerateBadgeUrlCase` | tests/functions.test.js:99-108 | a rate of 9.4 with level green gives exactly `…message=9%&color=green` |
| `Scenarios.GenerateEmojiCases` | tests/functions.test.js:110-114 | 100 gives " 🎉" and 99.99 gives "" |
| `Scenarios.GenerateTableCase` | tests/functions.test.js:116-153 | the golden markdown block, byte for byte |

## Left out

- `readFile`: filesystem I/O plus an XML parser that fails with "no such file or directory" (tests/functions.test.js:5-11). The model starts from the typed `ProjectMetrics` record instead.
- Navigating the parsed tree to `coverage.project[0].metrics[0]` (tests/functions.test.js:19-23), and the failure when that path is missing. These belong to the parser's representation and are replaced by the typed record.
- Which attributes of the Clover metrics node feed each count pair. Clover reports statements, conditionals, methods and elements; the mapping onto the statements, lines, methods and conditionals pairs is not visible in the suite, so `ProjectMetrics` takes the four derived pairs as given.
- The default thresholds `readMetric` applies are not visible in the suite. `ReadMetric` takes its thresholds as a parameter.
- IEEE-754 arithmetic: the division, `Math.round` on a binary double, `>`/`<` against a double, and `Number.prototype.toString`. Rates are exact hundredths. A case where the double product lands just below a half-hundredth, so that JavaScript rounds down where the exact rate rounds up, is not modelled.
- `Decimal.FormatRate`: does not model the exponent notation JavaScript uses for 10^21 and above. That needs a covered count over 10^19 times its total.
- Thresholds that are `NaN`, infinite or not numbers at all. They are reals here.
- A metric handed to a presenter whose rate has more than two decimals or is negative. The model's rates are natural numbers of hundredths, as `ReadMetric` produces them.
- The object argument `{targetUrl, statusContext, metric}` of `generateStatus` becomes three parameters.
- The GitHub status-posting client, the action entrypoint, environment and input wiring, and the Jest harness itself (its `forEach` drivers and `expect` calls).
- `Coverage.CalculateLevel`: the suite has no inverted threshold pair (alert above warning); for one, the model applies the comparisons as written and tests `< thresholdAlert` first, so such a pair gives red below the alert threshold and green from it on.
