# Financial report metric extractor — a Dafny model

This project models `tools/financial_extractor.py`. It reads quarterly
results reports and collects four headline figures per report:

- revenue;
- net profit;
- the operating margin, or else the operating profit amount;
- EPS.

It then summarises the quarters: the quarter-over-quarter (QoQ) percentage
change of revenue and net profit, and a margin-trend label.

The model has four modules:

- `Wrappers` (`wrappers.dfy`): the `Option` type that stands for Python's `None`.
- `NumberTokenizer` (`tokenizer.dfy`): the number tokenizer, pure functions
  and lemmas. It models `number_re` = `[\d,]+(\.\d+)?`, `_clean_num` and
  `extract_numbers_from_line`. `findall` is modelled as a scan for the
  greedy, leftmost matches (`Spans`). The lemmas prove that every span is
  the longest match at its start and that every digit and comma is covered.
  A match that is only commas parses to `None`, because `float("")` raises.
- `ReportExtractor` (`extractor.dfy`): `extract_from_pdf` from the point
  where the text has been split into trimmed, non-empty lines.
  - `Extract` / `StepLine` are the specification: a fold over the lines,
    one loop-body pass per line.
  - `ExtractFromLines` is the loop. `ScanLine` is its body; each `return`
    there stands for a `continue`.
  - `ScanRevenue`, `ScanNetProfit`, `ScanOperating` and `ScanEps` are the
    four branches, each with its `for n in nums: ... break` loop.
- `TrendAggregator` (`aggregator.dfy`): `extract_metrics_from_paths`,
  including `pct`.
  - Paths are sorted with `sorted`, by lexicographic string order.
  - One record is built per path.
  - The QoQ figures come from the last two records.
  - The margin list is turned into a label by the average consecutive
    difference against the strict bounds ±0.3.

### Behaviour

- **The last qualifying line wins.** Each branch assigns its field whenever
  a line qualifies, so a later qualifying line replaces an earlier figure.
  Nothing stops the scan once a figure is found. `LastWins` proves this for
  every metric: after the scan, a field holds the figure of the last line
  that offered one, and its starting value when no line did.
- **The two `continue`s test whether the field is set, not whether this
  line set it.** Once revenue is known, every later line with a revenue
  keyword stops after the revenue branch, even when it offers no figure of
  its own (`RevenueLineShortCircuits`). The same holds for net profit
  (`NetProfitLineShortCircuits`). So what a line offers to the later
  branches depends on the record so far (`Offered`).
- **The operating branch has no `continue`.** One line can set both an
  operating figure and EPS, and both take the same first nonzero number
  (`OperatingRouting`). It never sets both the margin and the amount
  (`MarginOrAmount`).
- **Letter case does not matter.** Keywords are matched in the lower-cased
  line, the `%` test has no case, and the number pattern sees only digits,
  commas and dots. Two reports whose lines differ only in case give the
  same record (`ExtractIgnoresCase`).
- **Only the first and last margins decide the trend.** The average of
  consecutive differences telescopes to (last − first) / (count − 1), so
  the label depends only on those two margins and the count
  (`ClassifyBySlope`).

## Model

| member | source | states |
|---|---|---|
| NumberTokenizer.RunEnd | tools/financial_extractor.py:7 | the greedy `[\d,]+` run from `i` ends at the first character that is not a digit or comma |
| NumberTokenizer.DigitsEnd | tools/financial_extractor.py:7 | the greedy `\d+` run from `i` ends at the first character that is not a digit |
| NumberTokenizer.MatchEndIsLongest | tools/financial_extractor.py:7 | the greedy end that the scan uses is a match of `[\d,]+(\.\d+)?`, and no longer match starts at the same place |
| NumberTokenizer.Spans | tools/financial_extractor.py:19 | `findall`'s matches lie inside the line, in left-to-right order, without overlap |
| NumberTokenizer.SpansAreLongestMatches | tools/financial_extractor.py:7-19 | every span that `findall` reports is the longest match at its start (greedy matching) |
| NumberTokenizer.SpansCoverNumChars | tools/financial_extractor.py:19 | every digit and comma of the line lies inside a reported match, so `findall` skips no match |
| NumberTokenizer.FindAll | tools/financial_extractor.py:19 | `number_re.findall(line)`: the text of each span `Spans` reports, left to right, one text per span; characterised by `FindAllMatches`, `SpansAreLongestMatches` and `SpansCoverNumChars` |
| NumberTokenizer.FindAllMatches | tools/financial_extractor.py:19 | every text `findall` returns is a whole match of the pattern; the list is empty exactly when the line has no digit and no comma |
| NumberTokenizer.RemoveCommas | tools/financial_extractor.py:12 | `s.replace(',', '')`: the text with every comma dropped, never longer; characterised by `RemoveCommasOfNumChars`, `RemoveCommasNoComma` and `RemoveCommasAppend` |
| NumberTokenizer.RemoveCommasAppend | tools/financial_extractor.py:12 | dropping commas from `a + b` drops them from `a` and from `b` |
| NumberTokenizer.RemoveCommasNoComma | tools/financial_extractor.py:12 | a text without a comma is left unchanged |
| NumberTokenizer.RemoveCommasOfNumChars | tools/financial_extractor.py:12 | removing the commas from a `[\d,]+` text leaves only digits; the result is empty exactly when the text was all commas |
| NumberTokenizer.MatchWithoutCommasIsDecimal | tools/financial_extractor.py:12 | a match without its commas reads `\d*` or `\d*\.\d+`; it is empty exactly when the match was all commas |
| NumberTokenizer.DecimalParts | tools/financial_extractor.py:12-14 | split at its first `.`, a comma-free match is digits, then at least one digit after the dot when there is a dot |
| NumberTokenizer.DotIndex | tools/financial_extractor.py:14 | the index of the first `.`, or the length when there is none: no `.` before it, a `.` at it |
| NumberTokenizer.ParseDecimal | tools/financial_extractor.py:13-16 | `float` fails (`None`) exactly on the empty text; otherwise it gives a value that is never negative |
| NumberTokenizer.WholePartBeforeDot | tools/financial_extractor.py:14 | the digits before the `.` are the whole part of the value; the digits after it add a fraction in [0, 1) |
| NumberTokenizer.DigitsValueAppend | tools/financial_extractor.py:14 | digits written one after the other read as the first run shifted left by the length of the second, plus the second |
| NumberTokenizer.ParseDecimalValue | tools/financial_extractor.py:14 | `float` of a nonempty comma-free match is its digits read without the dot, divided by ten for every digit after the dot |
| NumberTokenizer.CleanNum | tools/financial_extractor.py:9-16 | `_clean_num` of a match is `None` exactly when the match is all commas; otherwise it is not negative |
| NumberTokenizer.CommasDoNotMatter | tools/financial_extractor.py:12-14 | two matches that agree once their commas are gone parse to the same value |
| NumberTokenizer.Tokenize | tools/financial_extractor.py:18-20 | there is one parsed value per `findall` match |
| NumberTokenizer.TokenizeSpec | tools/financial_extractor.py:18-20 | no values exactly when the line has no digit or comma; each value is `_clean_num` of the match at its position, `None` exactly when that match is all commas, and never negative |
| NumberTokenizer.TokenChars | tools/financial_extractor.py:7 | a match holds only digits, commas and dots |
| NumberTokenizer.SpansAgree | tools/financial_extractor.py:7-19 | `findall` finds the same spans in two lines that agree on every digit, comma and dot |
| NumberTokenizer.TokenizeSeesOnlyPatternChars | tools/financial_extractor.py:18-20 | two lines that agree on every digit, comma and dot (and differ elsewhere arbitrarily) give the same matches and the same numbers |
| NumberTokenizer.ParseExampleInteger | tools/financial_extractor.py:9-16 | "12,345" parses to 12345 |
| NumberTokenizer.DigitsExample | tools/financial_extractor.py:14 | "12345" has no dot and reads as 12345 |
| NumberTokenizer.ParseExampleDecimal | tools/financial_extractor.py:9-16 | "12.5" is a match and parses to 12.5 |
| NumberTokenizer.DecimalExample | tools/financial_extractor.py:12-14 | "12.5" has no comma, its dot at index 2, and reads 12 before the dot and 5 after |
| NumberTokenizer.ParseExampleCommaAndDigit | tools/financial_extractor.py:9-16 | a lone "," parses to `None`; "7" parses to 7 |
| NumberTokenizer.SpansExample | tools/financial_extractor.py:19 | on "EPS 12.5, 7" the matches are at [4,8), [8,9) and [10,11) |
| NumberTokenizer.FindAllExample | tools/financial_extractor.py:19 | `findall` on "EPS 12.5, 7" gives "12.5", ",", "7" |
| NumberTokenizer.TokenizeExample | tools/financial_extractor.py:18-20 | "EPS 12.5, 7" gives 12.5, `None`, 7 |
| ReportExtractor.NewRecord | tools/financial_extractor.py:34-41 | a new record holds the path and the period, and every metric is `None` |
| ReportExtractor.Basename | tools/financial_extractor.py:36 | `os.path.basename`: the text after the last `/`, never longer than the path; characterised by `BasenameAfterSlash` and `BasenameNoSlash` |
| ReportExtractor.RemoveAll | tools/financial_extractor.py:36 | `replace(".pdf", "")`: every non-overlapping occurrence, found left to right, removed; never longer; characterised by `RemoveAllSkips` and `RemoveAllPdf` |
| ReportExtractor.Period | tools/financial_extractor.py:36 | the period label: the basename with every `.pdf` removed; characterised by `PeriodOfReportFile`, `PeriodOfDottedName` and `PeriodOfDoubledExtension` |
| ReportExtractor.RemovePdfFromName | tools/financial_extractor.py:36 | removing `.pdf` from a dot-free name with the `.pdf` extension gives the name back |
| ReportExtractor.BasenameAfterSlash | tools/financial_extractor.py:36 | the basename of `dir/file` is `file` when `file` has no `/` |
| ReportExtractor.PeriodOfReportFile | tools/financial_extractor.py:36 | the period of `dir/NAME.pdf` is `NAME` when `NAME` has no `.` and no `/` |
| ReportExtractor.BasenameNoSlash | tools/financial_extractor.py:36 | a name without `/` is its own basename |
| ReportExtractor.RemoveAllSkips | tools/financial_extractor.py:36 | `replace` copies the positions where the pattern does not start unchanged |
| ReportExtractor.RemoveAllPdf | tools/financial_extractor.py:36 | a leading `.pdf` is removed whole |
| ReportExtractor.PeriodOfDottedName | tools/financial_extractor.py:36 | the period of `reports/Q1.FY25.pdf` is `Q1.FY25`: only `.pdf` goes, other dots stay |
| ReportExtractor.PeriodOfDoubledExtension | tools/financial_extractor.py:36 | the period of `a.pdf.pdf` is `a`: every `.pdf` is removed |
| ReportExtractor.Lower | tools/financial_extractor.py:44 | `line.lower()` has no capital letter and equals the line up to case |
| ReportExtractor.LowerIdempotent | tools/financial_extractor.py:44 | lower-casing twice is lower-casing once |
| ReportExtractor.ContainsIff | tools/financial_extractor.py:50 | `k in ll` holds exactly when `k` occurs in `ll` at some position |
| ReportExtractor.MentionsAnyIff | tools/financial_extractor.py:50 | `any(k in ll for k in keywords)` holds exactly when some keyword occurs in `ll` |
| ReportExtractor.MentionsEpsWordIff | tools/financial_extractor.py:78 | `re.search(r"\beps\b", ll)` succeeds exactly when `eps` occurs with no word character right before or right after it |
| ReportExtractor.Contains | tools/financial_extractor.py:50 | `k in ll`, scanning start positions from the left; characterised by `ContainsIff` |
| ReportExtractor.MentionsAny | tools/financial_extractor.py:50 | `any(k in ll for k in keywords)`; characterised by `MentionsAnyIff` |
| ReportExtractor.MentionsEpsWord | tools/financial_extractor.py:78 | `re.search(r"\beps\b", ll)`; characterised by `MentionsEpsWordIff` |
| ReportExtractor.MarginHint | tools/financial_extractor.py:71 | `'%' in line or 'margin' in ll or 'opm' in ll`, with `%` looked up in the raw line |
| ReportExtractor.FirstPick | tools/financial_extractor.py:51-54 | a branch's `for n in nums: if ...: ...; break` takes a number exactly when some number qualifies; the number it takes qualifies, and no earlier number does |
| ReportExtractor.FirstPickAt | tools/financial_extractor.py:51-54 | a qualifying number with no qualifying number before it is the one taken |
| ReportExtractor.RevenueStep | tools/financial_extractor.py:50-54 | the revenue branch: on a revenue-keyword line the first number above 1000 becomes `revenue_cr`, otherwise the record is unchanged; the loop `ScanRevenue` is proved equal to it, and `RevenueKeepsBounds` and `ContinueConditions` state what it keeps |
| ReportExtractor.NetProfitStep | tools/financial_extractor.py:59-63 | the net-profit branch, with threshold 100; the loop `ScanNetProfit` is proved equal to it; see `NetProfitKeepsBounds` |
| ReportExtractor.OperatingStep | tools/financial_extractor.py:68-75 | the operating branch: the first nonzero number goes to the margin or the amount by `MarginHint`; the loop `ScanOperating` is proved equal to it; see `OperatingRouting` and `MarginOrAmount` |
| ReportExtractor.EpsStep | tools/financial_extractor.py:78-82 | the EPS branch: the first nonzero number on a line with the word `eps`; the loop `ScanEps` is proved equal to it; see `EpsKeepsBounds` |
| ReportExtractor.StepLine | tools/financial_extractor.py:44-82 | one loop-body pass, with the `continue`s at 46-47, 55-56 and 64-65; the method `ScanLine` is proved equal to it; characterised by `StepWrites`, `ContinueConditions`, `StepKeepsBounds` and `StepKeepsIdentity` |
| ReportExtractor.Extract | tools/financial_extractor.py:43-84 | the loop over the lines, as a fold of `StepLine`; the method `ExtractFromLines` is proved equal to it; characterised by `LastWins`, `ExtractKeepsBounds` and `ExtractAppend` |
| ReportExtractor.ExtractFromLines | tools/financial_extractor.py:43-84 | the loop's record is the fold of the line step over all lines, starting from the new record; the record meets the thresholds (`Bounded`) |
| ReportExtractor.ScanLine | tools/financial_extractor.py:44-82 | one loop-body pass: a line with no numbers changes nothing, and each of the two `continue`s fires when its keyword is on the line and its field is truthy |
| ReportExtractor.ScanRevenue | tools/financial_extractor.py:50-54 | the revenue loop sets `revenue_cr` to the first number above 1000 on a revenue-keyword line, otherwise changes nothing |
| ReportExtractor.ScanNetProfit | tools/financial_extractor.py:59-63 | the net-profit loop sets `net_profit_cr` to the first number above 100 on a net-profit line, otherwise changes nothing |
| ReportExtractor.ScanOperating | tools/financial_extractor.py:68-75 | the first nonzero number on an operating line goes to the margin when the line has `%`, `margin` or `opm`, and to the amount otherwise |
| ReportExtractor.ScanEps | tools/financial_extractor.py:78-82 | the first nonzero number on a line with the word `eps` becomes the EPS |
| ReportExtractor.StepKeepsBounds | tools/financial_extractor.py:44-82 | one line keeps the thresholds: revenue above 1000, net profit above 100, operating figures and EPS nonzero |
| ReportExtractor.RevenueKeepsBounds | tools/financial_extractor.py:50-54 | the revenue branch keeps the thresholds |
| ReportExtractor.NetProfitKeepsBounds | tools/financial_extractor.py:59-63 | the net-profit branch keeps the thresholds |
| ReportExtractor.OperatingKeepsBounds | tools/financial_extractor.py:68-75 | the operating branch keeps the thresholds |
| ReportExtractor.EpsKeepsBounds | tools/financial_extractor.py:78-82 | the EPS branch keeps the thresholds |
| ReportExtractor.StepKeepsIdentity | tools/financial_extractor.py:44-82 | no branch of the loop body writes `path` or `period`: one line keeps both |
| ReportExtractor.ExtractKeepsBounds | tools/financial_extractor.py:43-84 | a scan that starts within the thresholds stays within them after any number of lines |
| ReportExtractor.ExtractAppend | tools/financial_extractor.py:43 | scanning `a + b` is scanning `a`, then `b` from where `a` left off |
| ReportExtractor.NumberlessLineIgnored | tools/financial_extractor.py:45-47 | a line with no digit and no comma can be removed from anywhere in the report without changing the record |
| ReportExtractor.LowerIgnoresCase | tools/financial_extractor.py:44 | two lines equal up to case lower-case to the same text |
| ReportExtractor.PercentIgnoresCase | tools/financial_extractor.py:71 | `%` is on one of two lines equal up to case exactly when it is on the other |
| ReportExtractor.CaseKeepsPatternChars | tools/financial_extractor.py:19 | two lines equal up to case agree on every digit, comma and dot |
| ReportExtractor.StepIgnoresCase | tools/financial_extractor.py:44-82 | one loop-body pass does the same on two lines equal up to case |
| ReportExtractor.ExtractIgnoresCase | tools/financial_extractor.py:43-84 | two reports whose lines are equal up to case give the same record |
| ReportExtractor.ContinueConditions | tools/financial_extractor.py:50-65 | the revenue `continue` fires exactly on a revenue-keyword line whose revenue was truthy before or is set by the line; likewise for net profit; a pass that goes on past a branch has left the record as it was |
| ReportExtractor.RevenueOffered | tools/financial_extractor.py:50-52 | a figure a line offers as revenue is always above 1000 |
| ReportExtractor.Offered | tools/financial_extractor.py:50-82 | a figure a line offers to a metric is truthy, above 1000 for revenue and above 100 for net profit |
| ReportExtractor.StepWrites | tools/financial_extractor.py:50-82 | one line overwrites a metric with the figure it offers, whatever was there, and leaves the metric alone when it offers none |
| ReportExtractor.StepWritesRevenue | tools/financial_extractor.py:50-56 | a line writes its revenue offer over `revenue_cr`, or leaves it |
| ReportExtractor.StepWritesNetProfit | tools/financial_extractor.py:59-65 | a line writes its net-profit offer over `net_profit_cr`, or leaves it |
| ReportExtractor.StepWritesMargin | tools/financial_extractor.py:68-75 | a line writes its margin offer over `operating_margin_pct`, or leaves it |
| ReportExtractor.StepWritesAmount | tools/financial_extractor.py:68-75 | a line writes its amount offer over `operating_profit_amt`, or leaves it |
| ReportExtractor.StepWritesEps | tools/financial_extractor.py:78-82 | a line writes its EPS offer over `eps`, or leaves it |
| ReportExtractor.StepBeforeOperating | tools/financial_extractor.py:55-82 | a pass stopped by a `continue` leaves the operating figures and EPS alone; a pass that gets past both has not changed the record before the operating branch |
| ReportExtractor.ExtractLast | tools/financial_extractor.py:43-82 | the last line of a scan writes its offer, if any, over each metric |
| ReportExtractor.LastSomeAt | tools/financial_extractor.py:43-82 | the last offer is offer `j` when no later line offers one |
| ReportExtractor.LastSomeNone | tools/financial_extractor.py:43-82 | there is no last offer exactly when no line offers one |
| ReportExtractor.LastWins | tools/financial_extractor.py:43-84 | after the scan, each metric holds the figure of the last line that offered one, and its starting value when no line offered one |
| ReportExtractor.RevenueLastWins | tools/financial_extractor.py:43-56 | after the scan, `revenue_cr` is the figure of the last line with a revenue keyword and a number above 1000, whatever the lines in between did |
| ReportExtractor.MarginOrAmount | tools/financial_extractor.py:68-75 | one line never offers both an operating margin and an operating amount |
| ReportExtractor.RevenueLineShortCircuits | tools/financial_extractor.py:50-56 | on a revenue-keyword line, when revenue was truthy before the line or the line sets it, the `continue` fires and the line changes nothing but the revenue |
| ReportExtractor.NetProfitLineShortCircuits | tools/financial_extractor.py:59-65 | on a net-profit line that gets past the revenue branch (whatever other keywords it carries), when net profit was truthy before or the line sets it, the line changes nothing but the net profit |
| ReportExtractor.OperatingRouting | tools/financial_extractor.py:68-82 | on an operating line that gets past both `continue`s, whatever other keywords it carries: revenue and net profit stay unchanged; the first nonzero number goes to the margin when the line has `%`, `margin` or `opm`, else to the amount, and the other stays unchanged; the same number becomes the EPS exactly when the word `eps` is on the line, else EPS stays unchanged |
| TrendAggregator.LexLe | tools/financial_extractor.py:87 | Python's string `<=`, by code point, a proper prefix first; `sorted` uses it; characterised by `LexTotal` and `SortPathsSpec` |
| TrendAggregator.LexTotal | tools/financial_extractor.py:87 | any two strings are ordered one way or the other, so `sorted` has an answer |
| TrendAggregator.Insert | tools/financial_extractor.py:87 | insertion adds exactly one element and keeps the rest |
| TrendAggregator.InsertSorted | tools/financial_extractor.py:87 | inserting into a sorted list keeps it sorted |
| TrendAggregator.SortPaths | tools/financial_extractor.py:87 | sorting keeps the number of paths |
| TrendAggregator.SortPathsSpec | tools/financial_extractor.py:87 | `sorted(paths)` is in lexicographic order and is a permutation of `paths` |
| TrendAggregator.Pct | tools/financial_extractor.py:92-95 | `pct(a, b)` is present exactly when both are present and `b` is nonzero; `b + pct·abs(b)/100 = a`; it is positive exactly when `a > b` and zero exactly when `a = b` |
| TrendAggregator.MarginOf | tools/financial_extractor.py:110-118 | a record gives a margin exactly when its direct margin is truthy, or its amount and revenue both are; the margin is the direct one when that is truthy, and otherwise margin × revenue = amount × 100; it is never zero |
| TrendAggregator.MarginValues | tools/financial_extractor.py:109-118 | there is at most one margin per record |
| TrendAggregator.MarginValuesEmptyIff | tools/financial_extractor.py:109-118 | `margin_values` is empty exactly when no record gives a margin |
| TrendAggregator.Diffs | tools/financial_extractor.py:121 | there is one difference per consecutive pair |
| TrendAggregator.DiffsTelescope | tools/financial_extractor.py:121-123 | the consecutive differences add up to the last margin minus the first |
| TrendAggregator.ClassifyTrend | tools/financial_extractor.py:119-131 | the `margin_trend` decision: the label from the average consecutive difference against the strict bounds ±0.3, stable for one margin, `None` for none; characterised by `ClassifyBySlope` |
| TrendAggregator.ClassifyBySlope | tools/financial_extractor.py:119-131 | no label exactly when there are no margins; "stable" for one; with two or more, "improving" exactly when (last − first)/(count − 1) > 0.3, "declining" exactly when it is < −0.3, otherwise "stable" |
| TrendAggregator.Summarize | tools/financial_extractor.py:97-131 | with fewer than two records both QoQ figures are `None`; the trend is `None` exactly when the margin list is empty, which by `MarginValuesEmptyIff` is exactly when no record gives a margin |
| TrendAggregator.RevenueQoqOfLastTwo | tools/financial_extractor.py:98-101 | the revenue QoQ is present exactly when the last two revenues are present and the earlier one is nonzero; it then takes the earlier revenue to the later one |
| TrendAggregator.NetProfitQoqOfLastTwo | tools/financial_extractor.py:102-104 | the same for net profit |
| TrendAggregator.RecordsOf | tools/financial_extractor.py:88-90 | there is one record per path |
| TrendAggregator.RecordsOfAt | tools/financial_extractor.py:88-90 | record `i` is the scan of the report at path `i` |
| TrendAggregator.ExtractKeepsIdentity | tools/financial_extractor.py:43-84 | the scan never changes a record's path or period |
| TrendAggregator.RecordsInPathOrder | tools/financial_extractor.py:86-90 | the records' paths are the sorted paths: in order and a permutation of the input |
| TrendAggregator.ExtractMetricsFromPaths | tools/financial_extractor.py:86-140 | `quarters` is the records of the sorted paths; the summary is computed from them; their paths are sorted and a permutation of the input; every record meets the thresholds |
| TrendAggregator.CollectRecords | tools/financial_extractor.py:88-90 | the loop builds one record per path, in order, each within the thresholds |
| TrendAggregator.CollectMargins | tools/financial_extractor.py:109-118 | the loop builds `margin_values` in record order |
| TrendAggregator.RevenueQoqExamples | tools/financial_extractor.py:92-101 | revenue 1000 then 1100 gives +10%; 12345 then 13000 gives 65500/12345 %; an absent latest revenue gives `None` |
| TrendAggregator.MarginTrendExamples | tools/financial_extractor.py:119-131 | margins 20, 20.5, 21.1 are improving and 20, 19.8, 19.5 are stable; a change of exactly ±0.3 (0 to 0.3, 0.3 to 0) is stable and −0.4 is declining; no margin gives `None` and one margin gives stable; the inputs give the same labels in double-precision arithmetic |

## Left out

- PDF text extraction (`tools/financial_extractor.py:22-31`), `splitlines` and `strip` (line 33) are not modelled.
  - `ExtractFromLines` takes the trimmed, non-empty lines directly.
  - `ExtractMetricsFromPaths` takes a function `textOf` from a path to those lines.
  - A page whose extraction raises is therefore not modelled either.
- Floating point is not modelled. Numbers are exact reals, so rounding, overflow to infinity and NaN do not arise. For `pct`, this means the division by `abs(b)` and the result are exact.
- CleanNum: it requires its text to be a whole match of `number_re`, which is the only thing `findall` can give it.
  - The `s is None` branch (lines 10-11) is not modelled, since `findall` never yields `None`.
  - Neither is the rest of `float`'s grammar (signs, exponents, `inf`, underscores, surrounding spaces), since a match cannot contain any of it.
- `\d`, `\w`, `\b` and `str.lower()` are modelled on ASCII only. Python also treats other Unicode digits, letters and case mappings this way; that is not modelled.
- Basename: it treats `/` as the only separator, as `os.path.basename` does on POSIX. Windows separators are not modelled.
- The `except` branch of the margin division (lines 114-117) is not modelled, because it cannot be reached.
  - That branch only runs when revenue is truthy, so the divisor is nonzero, and exact division does not raise.
  - So `margin_values` never holds `None`, and `MarginValues` is a list of reals.
  - The `is not None` filter at line 121 then keeps every difference.
- The `operating_profit_amt` key is absent from `out` until it is first assigned. The model gives the record an `operatingProfitAmt` field that starts as `None`. `.get` reads a missing key as `None`, so the two agree.
- The other files of the repository are not part of this model: `tools/qualitative_rag.py`, `app/orchestrator.py`, `app/main.py`, `app/schemas.py`, `db/db.py`, `db/models.py`, `scripts/build_vector_store.py` and `init_db.py`.

