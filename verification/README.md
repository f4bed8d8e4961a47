# liquidador-pension in Dafny

A verified model of the core of *liquidador-pension*, a Colombian old-age
pension estimator. It reads the contribution history out of a pension-fund
report, normalises it and merges concurrent contributions month by month. It
then indexes every historical wage (IBC, *ingreso base de cotización*) to
today's money with the consumer price index (IPC) and averages the result
into the IBL (*ingreso base de liquidación*). From the IBL it computes the
Ley 797 de 2003 replacement rate and the monthly pension. A second tool
simulates raising every IBC by 20%, 30% and 50% under the legal floor and
ceiling.

Modules, in pipeline order:

| module | file | models |
|---|---|---|
| `Common` | common.dfy | options, calendar dates, sums and means of reals |
| `Text` | text.dfy | digits, `str.strip`, newline replacement, decimal rendering |
| `Extraction` | extraction.dfy | `extraer_tabla_cruda`: splitting a matched `"a","b",...` line and padding the rows into a table |
| `Amounts` | amounts.dfy | the currency and weeks cleaning of `limpiar_y_estandarizar` (`re.sub`, the dot/comma rules, `float()`) |
| `Normalization` | normalization.dfy | `limpiar_y_estandarizar`: date search and day-first reading, row filtering, the sort by start date |
| `Consolidation` | consolidation.dfy | `aplicar_regla_simultaneidad`: one row per calendar month |
| `Indexation` | indexation.dfy | compounding of yearly CPI rates over a table, shared by the two CPI factors |
| `Logic` | logic.dfy | class `LiquidadorPension`: CPI factor, indexed IBL, replacement rate, transition regime |
| `Utils` | utils.dfy | `obtener_ipc_acumulado` and `calcular_semanas_minimas_mujeres` |
| `App` | app.dfy | `aplicar_topes` and `simulador_mejora_pensional` |

Modelling choices:

- Money, weeks and rates are `real`s, so no floating-point rounding is modelled.
- A date is `Date(year, month, day)`, ordered chronologically.
- A pandas table is a sequence of records, or a sequence of rows of cells.
- Each loop in the source is a `method` with a loop, proved against a
  function that states its result:
  - the row cleaning, `CleanAndStandardize`;
  - both CPI factors, `IndexFactor` and `AccumulatedIndex`;
  - the IBL average, `IndexedIbl`;
  - the scenario and summary loops of the simulator.
- `LiquidadorPension` is a class with `const` fields, because the original
  object never changes after construction:
  - Its CPI table is a field like the original's `ipc_historico`.
  - The constructor sets the table to the 1967-2026 values of logic.py.
  - The invariant `Valid()` only says that the table holds the years 1967 to
    2026 with positive rates. The proofs about the factor therefore hold for
    any such table.
  - The valuation date (the original reads the clock) is a constructor
    parameter.
- The two CPI tables differ, so both are kept as written:
  - logic.py:14-25 → `Logic.LogicRates`;
  - utils.py:6-18 → `Utils.UtilsRates`.
- The two minimum wages also differ, and both are kept:
  - `Logic.Smmlv` = 1,423,500;
  - `App.Smmlv2026` = 1,750,905.

Behaviour that follows the code where a description of the system says otherwise:

- Lines are split only on the quoted `"…","…"` form. There is no
  date-anchored split of unquoted lines.
- A weeks value above 54 drops the row: it becomes 0 and then fails the
  `> 0` filter. It is never recomputed from the dates.
- When an amount holds both `.` and `,`, the dots are always the thousands
  separator and the comma the decimal point, whichever comes last. So
  "1,234,567.00" drops the row.
- The replacement rate has no 55% floor: it lies in [0, 80]. Weeks are not
  capped at 1800.
- The transition regime is only the 750-week test. There is no separate
  rate table.

## Model

| member | source | states |
|---|---|---|
| Extraction.SplitLine | data_processor.py:29-37 | a matched line gives at least one cell |
| Extraction.SplitQuotedLine | data_processor.py:29-37 | for a line `"c0"g0"c1"…"cn"` whose gaps are a comma with optional blanks and whose cells hold no quote or bar: the cells are exactly c0..cn, each with newlines turned into spaces and trimmed; there are as many cells as separators + 1 |
| Text.TrimSpec | data_processor.py:37 | `strip()` removes exactly the leading and trailing whitespace: the result is a slice whose outside is all blanks and whose ends are not blank |
| Extraction.CleanCellShape | data_processor.py:37 | a stored cell holds no newline and neither starts nor ends with whitespace |
| Extraction.SplitJoin | data_processor.py:34 | splitting on the token undoes joining with it (cells without a bar) |
| Extraction.SubstituteLine | data_processor.py:30 | every separator of a quoted line, and nothing else, becomes the token |
| Extraction.StripQuotesAround | data_processor.py:32 | `strip('"')` removes exactly the outer quotes of a quoted text |
| Extraction.FirstCellMatch | data_processor.py:30 | a separator can start at the opening quote only when the first cell is a lone comma with blanks |
| Extraction.MaxWidth | data_processor.py:44 | the width is at least every row's length and equals some row's length |
| Extraction.Header | data_processor.py:45 | the header is Columna_0 … Columna_{n-1} |
| Extraction.PadRow | data_processor.py:48 | the padded row keeps the cells as a prefix and is None up to the width |
| Extraction.ExtractRawTable | data_processor.py:25-50 | no match gives the empty table; otherwise one row per match, each padded from its split cells to the largest cell count, under Columna_j headers |
| Amounts.KeepAmountChars | data_processor.py:80-81 | only digits, dots and commas remain and the text never grows; a text made of them is kept whole, and one with none of them vanishes |
| Amounts.KeepAmountCharsAppend | data_processor.py:81 | the filter works piece by piece (it distributes over concatenation), so every digit, dot and comma survives, in order |
| Amounts.KeepAmountCharsAround | data_processor.py:80-81 | text holding no digit, dot or comma on either side of a cell's content is removed and the content kept |
| Amounts.ResolveSeparators | data_processor.py:83-89 | the result holds only digits and dots |
| Amounts.ParseDecimal | data_processor.py:91 | `float()` on a text of digits and dots never gives a negative number |
| Amounts.ParseDecimalTwoDots | data_processor.py:91 | a second decimal point makes `float()` fail |
| Amounts.ParseIbc | data_processor.py:81-91 | a wage that parses is never negative |
| Amounts.ParseIbcPlain | data_processor.py:81-91 | plain digits read back as the number they spell |
| Amounts.ParseIbcColombian | data_processor.py:83-84 | "1.234.567,89" reads as n + cents/100 for every n and cents |
| Amounts.ParseIbcDotThousands | data_processor.py:85-86 | "1.500.000" (two or more dot groups) reads as n |
| Amounts.ParseIbcSingleDot | data_processor.py:87-91 | one dot group ("1.500") is a decimal point: n / 1000 |
| Amounts.ParseIbcCommaThousands | data_processor.py:87-89 | "1,500" and "1,500,000" read as n |
| Amounts.ParseIbcIgnoresNoise | data_processor.py:80-91 | currency signs, letters and blanks around an amount do not change the wage read |
| Amounts.ParseIbcDotThousandsInText | data_processor.py:80-91 | "$ 1.500.000 COP"-style cells (two or more dot groups inside such noise) read as n |
| Amounts.ParseIbcReportCell | data_processor.py:80-91 | "$ 1.500.000" reads as 1,500,000 |
| Amounts.ParseIbcUsCentsRejected | data_processor.py:83-84 | "1,234,567.00" (two or more comma groups and cents) cannot be read, so the row drops |
| Amounts.ParseWeeks | data_processor.py:94-100 | weeks that parse are never negative |
| Amounts.ParseWeeksWhole | data_processor.py:94-100 | a whole number of weeks reads back as itself |
| Amounts.ParseWeeksDecimalComma | data_processor.py:95-100 | digits, a comma and digits read as the decimal number with the comma as its point |
| Amounts.ParseWeeksCents | data_processor.py:95-100 | "n,cc" reads as n + cc/100 for every n and cc |
| Amounts.ParseWeeksReportCell | data_processor.py:95-100 | "4,29" reads as 4.29 weeks |
| Amounts.ParseWeeksDotThenCommaRejected | data_processor.py:96-100 | a dot followed by a comma ("1.234,5") gives two decimal points, so `float()` fails and the row drops |
| Amounts.ParseWeeksDotThenCommaCell | data_processor.py:96-100 | "1.234,5" cannot be read as weeks |
| Normalization.FindDatePattern | data_processor.py:69-70 | the leftmost `\d{2}/\d{2}/\d{4}` occurrence, or None when there is none |
| Normalization.ParseDateCell | data_processor.py:69-77 | a parsed date is a real calendar day inside the Timestamp range; no pattern gives None |
| Normalization.DateRoundTrip | data_processor.py:74-75 | writing a date DD/MM/YYYY and reading it back gives the same date |
| Normalization.ParseDateText | data_processor.py:74-77 | reading a/b/y gives the day-first date when it is a real day in the Timestamp range, else None |
| Normalization.MonthFirstFallback | data_processor.py:74-75 | when the second field cannot be a month, the first is read as the month |
| Normalization.ImpossibleDayRejected | data_processor.py:74-77 | "31/02/2020" is not a date: the row drops |
| Normalization.OutOfRangeRejected | data_processor.py:74-77 | a day outside 1677-09-22..2262-04-11 is coerced to NaT: the row drops |
| Normalization.CleanRow | data_processor.py:59-115 | a kept record has real dates, weeks in (0, 54] and a non-negative wage |
| Normalization.CleanRowKept | data_processor.py:62-112 | a row is kept iff the four chosen columns exist, both dates read, both amounts parse and the weeks lie in (0, 54] |
| Normalization.TooManyWeeksDropped | data_processor.py:103-105 | weeks above 54 drop the row |
| Normalization.BadWageDropped | data_processor.py:91-115 | a wage `float()` rejects drops the row instead of counting as 0 |
| Normalization.KeptShape | data_processor.py:59-115 | every kept record has weeks in (0, 54], a non-negative wage and real dates |
| Normalization.Insert | data_processor.py:118 | insertion adds exactly one record to the multiset |
| Normalization.InsertSorted | data_processor.py:118 | insertion keeps the table sorted by start date |
| Normalization.SortByStart | data_processor.py:118 | the result is sorted by start date and a permutation of the input |
| Normalization.CleanAndStandardize | data_processor.py:53-118 | the output is sorted by start date, a permutation of the kept records, and every record is well formed |
| Consolidation.EarliestMonthSpec | data_processor.py:129 | the first month is present and no present month is earlier |
| Consolidation.InPeriodSpec | data_processor.py:122-123 | a month's group holds only rows of that month, and is empty iff the month is absent |
| Consolidation.OutsidePeriodSpec | data_processor.py:123 | removing a month leaves exactly the other months |
| Consolidation.TotalIbcSplit | data_processor.py:124 | a month and the rest split the total wage |
| Consolidation.MinDesdeSpec | data_processor.py:126 | the merged start is the earliest start of the group, and one of them |
| Consolidation.MaxHastaSpec | data_processor.py:127 | the merged end is the latest end of the group, and one of them |
| Consolidation.MaxSemanasSpec | data_processor.py:125 | the merged weeks are the group's largest count, and one of them |
| Consolidation.AggregateMonth | data_processor.py:122-128 | the merged row of a month is filed under that month |
| Consolidation.Consolidate | data_processor.py:120-129 | the consolidated table is never longer than the input and is empty exactly when the input is |
| Consolidation.ConsolidateMonths | data_processor.py:120-129 | the output has exactly the input's months |
| Consolidation.ConsolidateStrictlyMonthly | data_processor.py:123-129 | one row per month, in ascending month order |
| Consolidation.ConsolidateRows | data_processor.py:123-128 | each output row is the aggregate (sum, max, min, max) of its month's rows |
| Consolidation.ConsolidateTotalIbc | data_processor.py:124 | the total IBC is preserved |
| Consolidation.ConsolidateTotalWeeks | data_processor.py:125 | concurrent weeks are not double counted: the total can only shrink |
| Consolidation.ConsolidateWellFormed | data_processor.py:120-129 | consolidating cleaned records gives cleaned records |
| Consolidation.ConsolidateMonthlyUnchanged | data_processor.py:120-129 | a table with one row per month, in order, is left as it is |
| Consolidation.ConsolidateIdempotent | data_processor.py:120-129 | applying the rule twice is the same as once |
| Indexation.CompoundAtLeastOne | logic.py:38-42 | with positive rates the product of growths is at least 1 |
| Indexation.CompoundSplit | logic.py:40-42 | compounding over consecutive ranges multiplies |
| Indexation.CompoundMonotone | logic.py:40-42 | a longer range never lowers the product |
| Indexation.CompoundPastTable | utils.py:36-37 | years past 2026 add nothing |
| Indexation.RunningIndexAbove100 | utils.py:29-38 | the running index starts at 100 and rises above it from 1967 on |
| Indexation.RunningIndexRatio | utils.py:51-52 | the ratio of two running indexes is the growth of the years between them |
| Logic.LogicCpiIsTable | logic.py:14-25 | the table holds exactly 1967..2026, each with a positive rate |
| Logic.LiquidadorPension.constructor | logic.py:6-25 | stores the history, gender and valuation date, and the CPI table |
| Logic.LiquidadorPension.CpiGrowth | logic.py:35-43 | the factor is 1 when the valuation year is not after the start year, or the span lies outside 1967..2026 |
| Logic.LiquidadorPension.IndexFactor | logic.py:27-43 | the factor is the growth of the years max(start, 1967) .. min(end, 2026) - 1, and is at least 1 |
| Logic.CpiGrowthAtLeastOne | logic.py:35-43 | indexing never deflates a wage |
| Logic.CpiGrowthMonotone | logic.py:35-43 | a later valuation year never lowers the factor |
| Logic.CpiGrowthClamps | logic.py:35-40 | an empty clamped range gives 1; end years past 2026 all give the 2026 factor |
| Logic.CpiGrowthSplit | logic.py:40-42 | within the table the factor over a span is the product over its parts |
| Logic.LiquidadorPension.IndexedIbl | logic.py:45-82 | one detail per row of the window (negative wages as 0, factor to the valuation year), and the IBL is the mean indexed wage; an empty history gives 0 |
| Logic.Window | logic.py:51-54 | the window is drawn from the history and never longer; any method other than "ultimos_10" keeps every row |
| Logic.WindowSpec | logic.py:51-54 | "ultimos_10" keeps exactly the rows ending no earlier than ten years before the latest end, each as many times as the history holds it (counted as multisets), and never empties a history; any other method keeps all |
| Logic.TenYearsBefore | logic.py:53 | the cut-off has the same month ten years earlier and lies before the date; a real day stays a real day, kept when it exists that year and clipped to the month's end otherwise |
| Logic.DetailsShape | logic.py:58-73 | each detail keeps its row's dates and weeks, a non-negative historical wage, a factor of at least 1, and an indexed wage at least the historical one |
| Logic.IblAtLeastHistoricMean | logic.py:58-80 | the IBL is at least the mean historical wage, which is at least 0 |
| Logic.MinimumWeeks | logic.py:93-99 | the threshold lies in [1000, 1300] and is 1300 for anyone not "Femenino" |
| Logic.MinimumWeeksSpec | logic.py:93-99 | the threshold is 1300 for men and the women's schedule of utils.py otherwise, always in [1000, 1300] |
| Logic.LiquidadorPension.ReplacementRate | logic.py:84-126 | a non-positive IBL gives (0, 0, {}); otherwise the rate lies in [0, 80], the pension is at least the minimum wage and the detail records the final rate |
| Logic.WeeksBonus | logic.py:101-105 | the bonus is never negative, and is 0 until the weeks exceed the minimum by a full 50 |
| Logic.LegalRate | logic.py:110-111 | the rate is clamped to [0, 80]: 0 below, 80 above, unchanged within |
| Logic.FloorAtMinimumWage | logic.py:113-114 | the pension is the larger of its value and one minimum wage |
| Logic.MinimumPensionRate | logic.py:117 | a non-negative rate is kept; a negative rate paid at the minimum wage becomes the positive rate that pays exactly the minimum wage |
| Logic.MinimumPensionRateNeverApplies | logic.py:117 | the minimum-pension adjustment never fires: the rate is the clamped formula |
| Logic.MesadaIsFlooredShare | logic.py:113-114 | the pension is the larger of IBL·rate and one minimum wage |
| Logic.WeeksBonusMonotone | logic.py:101-105 | more weeks never lower the bonus |
| Logic.BonusPerFiftyWeeks | logic.py:105 | each full 50 weeks above the minimum add exactly 1.5 points |
| Logic.ReplacementRateMonotoneInWeeks | logic.py:84-114 | more weeks never lower the rate or the pension |
| Logic.ReplacementRateFallsWithIbl | logic.py:90-111 | a higher IBL never raises the rate |
| Logic.ReplacementRateAtMinimumWage | logic.py:84-126 | a man at one minimum wage with 1300 weeks gets 65%, paid as the minimum wage |
| Logic.ReplacementRateTenMinimumWages | logic.py:84-126 | ten minimum wages and 1400 weeks: 60.5 + 3 = 63.5%, pension 6.35 minimum wages |
| Logic.WeeksUpToAppend | logic.py:131 | the weeks up to the cut-off split over a concatenation |
| Logic.LiquidadorPension.TransitionRegime | logic.py:128-132 | the regime needs at least one contribution with positive weeks that ended by 1 April 1994 |
| Logic.WeeksUpToWitness | logic.py:131 | weeks counted before the cut-off come from some row that ended by then with positive weeks |
| Logic.TransitionRegimeMonotone | logic.py:128-132 | adding contributions with non-negative weeks never takes the regime away |
| Logic.TransitionRegimeIgnoresLaterRows | logic.py:128-132 | contributions ending after 1 April 1994 never decide the regime |
| Utils.UtilsCpiIsTable | utils.py:6-18 | the table holds exactly 1967..2026, each with a positive rate |
| Utils.AccumulatedIndex | utils.py:20-56 | the loop returns 1 when the start year is not reached, else the index at the end year (100 past the table) over the index at the start year |
| Utils.AccumulatedWithinTable | utils.py:36-52 | within the table the factor is the growth of the years after the start up to the end |
| Utils.AccumulatedOneIff | utils.py:36-52 | within the table the factor is at least 1, and equals 1 iff start and end coincide |
| Utils.AccumulatedClampsStart | utils.py:25-27 | a start year before 1967 counts as 1967 |
| Utils.AccumulatedStartNotReached | utils.py:41-49 | a start after the end year or after 2026 gives 1 |
| Utils.AccumulatedPastTable | utils.py:36-52 | an end year after 2026 leaves the final index at 100, so the factor is 100 / index(start), below 1 |
| Utils.AccumulatedClampedAtLeastOne | utils.py:20-56 | with the end year clamped to 2026 the factor is never below 1 |
| Utils.AccumulatedClampedPastTable | utils.py:20-56 | with the end year clamped, years past 2026 give the full growth to 2026 |
| Utils.SemanasMinimasMujeres | utils.py:58-67 | the schedule lies in [1000, 1300] |
| Utils.SemanasMinimasNonIncreasing | utils.py:58-67 | the schedule never rises with the year |
| Utils.SemanasMinimasFloor | utils.py:63-67 | the schedule is 1000 exactly from 2036 on |
| App.CapConstants | app.py:5-7 | the ceiling is 43,772,625 and 30 days of the daily minimum are one minimum wage |
| App.ApplyCaps | app.py:27-37 | the result never exceeds the ceiling, is at least the proportional floor when the floor is below the ceiling, and is the value, the floor or the ceiling |
| App.ApplyCapsWithin | app.py:27-37 | a value between floor and ceiling passes unchanged |
| App.ApplyCapsFullMonth | app.py:29-32 | with 30 days the floor is 1,750,905 |
| App.ApplyCapsIdempotent | app.py:27-37 | capping twice changes nothing |
| App.ApplyCapsMonotone | app.py:27-37 | a larger IBC never gives a smaller capped value |
| App.ToNumeric | app.py:23-24 | numbers are kept, missing cells are missing, and text that reads as a number is decimal text with a non-negative value |
| App.Coerce | app.py:23-24 | numbers are kept; missing cells and non-numeric text take the default (0 for the IBC, 30 for the days); digit text reads as its value |
| App.SimulateImprovement | app.py:9-66 | returns the cleaned frame with the three capped scenario columns appended, and the summary of means and percent changes |
| App.CleanNumericColumns | app.py:23-24 | every row gets its IBC and days cells cleaned, nothing else |
| App.AppendScenarioColumn | app.py:46-51 | every row gains the capped value of its IBC times the multiplier |
| App.Summarize | app.py:54-62 | the summary holds the original mean and, per scenario, its mean and percent change |
| App.SimulatedFrame | app.py:19-51 | the result has one row per input row, one cell per column, and the input's columns followed by Escenario_20, Escenario_30 and Escenario_50 |
| App.SimulatedFrameSpec | app.py:19-51 | other columns are unchanged, the IBC and days columns hold the cleaned numbers, and scenario column k holds aplicar_topes(IBC·m_k, days) |
| App.SummaryOf | app.py:54-62 | one entry per scenario in order under its name; an entry's percent change is missing exactly when the original mean is 0 |
| App.ScenarioValuesOrdered | app.py:40-51 | every scenario value is under the ceiling; with a non-negative IBC, 20% ≤ 30% ≤ 50% |
| App.ScenarioMeansOrdered | app.py:54-62 | each scenario mean is at most the ceiling; with non-negative IBCs the means are ordered |
| App.UncappedIncrement | app.py:48-61 | when no cap binds, the scenario mean is the multiplier times the original mean and the reported increase is exactly 20, 30 or 50% |
| App.MeanScale | app.py:60 | scaling every value scales the mean |
| App.UncappedMean | app.py:48-61 | for any multiplier that no cap binds on, the scenario column's mean is the multiplier times the IBC mean, and the reported increase is (multiplier - 1) * 100 |
| App.UncappedColumn | app.py:27-37 | when every raised IBC lies between its proportional floor and the ceiling, the scenario column is the IBC column times the multiplier |
| App.UncappedValue | app.py:27-37 | one row with no cap binding keeps its raised IBC unchanged |
| App.PercentOfMultiple | app.py:61 | a mean m times a non-zero original is reported as an increase of (m - 1) * 100 percent |
| App.SumRealsScale | app.py:60 | scaling every value scales the sum |
| App.DemoTwentyPercent | app.py:69-80 | in the example, 45,000,000·1.2 is capped to 43,772,625, and the "20%" scenario's mean (12,758,427.75) is below the original (12,762,726.25) |

## Left out

- Opening the PDF and extracting page text (data_processor.py:16-20) is I/O. The regex `findall` over the text (data_processor.py:14, 23) is not modelled either: `ExtractRawTable` takes the matched lines as its input.
- pandas mechanics are modelled as sequences of records: DataFrame construction, `iterrows`, `groupby`, `to_period` and `reset_index`.
- The `Periodo` column of the consolidated table is not kept. It is the month of each row's start date (`Consolidation.Month`).
- `datetime.now()` (logic.py:10) is the constructor parameter `fechaActual`.
- `fecha_nacimiento` (logic.py:9), the `'Aportante'` tag (data_processor.py:111) and `reduccion` (utils.py:65) are computed but never used, so they are not modelled.
- Floating-point rounding is not modelled: every amount is a `real`.
- Printing and the f-string percent formatting (app.py:62, 82-87) are not modelled. `App.PercentChange` keeps the unformatted number.
- A division of a scenario mean by a zero original mean (app.py:61) yields inf or nan in numpy. It is modelled as `None`.
- The mean of an empty column is NaN in pandas and 0 in `Common.Mean`. It only arises in the simulator given an empty frame.
- App.SimulateImprovement: the frame's column names are taken to be distinct, with no `Escenario_*` column already present. Columns are found by position: the IBC is column G and the days column L. pandas finds them by name. A frame that already has an `Escenario_20` column (for example the simulator's own output) gets that column overwritten in place (app.py:41, 51), while the model appends three more. A second column sharing G's or L's name makes `pd.to_numeric` raise (app.py:23), while the model cleans column G or L only.
- Text.IsDigit accepts the ASCII digits 0-9 only. Python's `\d` in a `str` pattern (data_processor.py:69-70, 81, 94) and `float()` (data_processor.py:91, 100) also accept other Unicode decimal digits, so a wage cell such as "١٥٠٠" reads as 1500.0 in the original and as 0.0 here.
- `aplicar_regla_simultaneidad` adds the `Periodo` column to the caller's own table as a side effect (data_processor.py:122). The model is a pure function and leaves its input as it is.
- Normalization.InTimestampRange follows pandas 2.x. There, a date parsed from text is a nanosecond-resolution Timestamp, so the midnight dates it can hold run from 1677-09-22 to 2262-04-11. A pandas release that gives parsed text a coarser resolution would accept dates outside that range. The original pins no pandas version.
- App.ToNumeric: `pd.to_numeric` on text is modelled for digit-and-dot text only. Signs, exponents and surrounding blanks in a text cell coerce to missing here.
- Extraction.SplitQuotedLine: cells that contain a quote or a bar character, and a first cell that is a lone comma, are outside the proved round trip. `SplitLine` still models such lines.
- Normalization.CleanRow: an exception other than a failed `float()` or a missing column (data_processor.py:114-115) cannot occur in the model.
- Logic.LiquidadorPension.TransitionRegime: for an empty history the model returns false. In the original, a history with no usable row is a `DataFrame` without columns (data_processor.py:117, 121). `self.df['Hasta']` then raises KeyError (logic.py:131), because `verificar_regimen_transicion` has no emptiness guard like the one at logic.py:46.
- The `try/except` around the ratio (utils.py:51-54) is not modelled: the start index is never zero, so it cannot fire.

## Findings

| source | as written | input that shows it | evidently intended | confidence | as-written member | corrected member |
|---|---|---|---|---|---|---|
| utils.py:36-52 | the end year is not clamped to the table, so the final index stays at 100 when the end year is after 2026 | start 2000, end 2030: factor = 100 / index(2000) < 1, which deflates the wage | clamp the end year to 2026 as logic.py:36 does, giving the full growth from the start year to 2026 (at least 1) | high (not executed) | Utils.AccumulatedPastTable | Utils.AccumulatedClampedAtLeastOne |
