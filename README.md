# EGRA/EGMA results dashboard — a verified model of its analyses

The dashboard presents the scores of an early-grade reading assessment
(EGRA: letter sounds, phonemes, words, passage reading, listening,
comprehension) and an early-grade mathematics assessment (EGMA: number
identification, discrimination, missing numbers, addition, subtraction,
problems). It is organised as one view per analysis. Each view takes the
survey table, derives some columns on a copy, computes a table of results
and shows it next to charts and a downloadable report.

This project models the computations of those views, not their display:

- **Reliability** (`analyse6.py`). Cronbach's alpha for the English and
  Dutch EGRA items and for the EGMA items. Rows with a missing item are
  deleted first. The coefficient is then banded into a verbal rating with
  its colour.
- **Zero scores** (`analyse2.py`). The share of students scoring exactly 0
  on each selected EGRA task.
- **Strong correlations** (`analyse5.py`). Pairs of EGRA tasks whose
  rounded correlation exceeds 0.5 in absolute value, listed by strength.
- **Performance by school** (`analyse7.py`). Per-school means and a total
  score. Each student is placed in a tier (Mastery, Developing, Emerging)
  using the median and the third quartile of the school mean totals.
- **Contextual factors** (`analyse8.py`) and **language effect**
  (`analyse4.py`). Each student's home-language answers are mapped to a
  language group, then a total score is added or descriptive statistics are
  taken per group. The statistics columns are flattened to `score_stat`
  names and filtered again by prefix for the report.
- **Language comparison** (`analyse13.py`), **gender effect**
  (`analyse10.py`), **classroom practices** (`analyse9.py`) and **SES and
  home support** (`analyse11.py`). Rows of Mann-Whitney, Kruskal-Wallis or
  Spearman test results, labelled by the 0.05 threshold. The language
  comparison also has a synthesis count.
- **International benchmarks** (`analyse12.py`). Mean scores against the
  standard for each task, the number of tasks above standard and the
  largest gap.

The survey table is `Frames.Frame`: column names and rows. Each row maps
column names to cells. A cell is a number, a text or missing. Missing
stands for pandas' NaN and for a key the row does not have. An absent
column in an indexing expression raises a `KeyError` in the source. In the
model that is `Err(MissingColumn(name))`. Where a view catches the
exception and shows an error, the same `Err` value stands for that error
message. The copy-then-assign pattern of the views that add columns is
`Frames.DataFrame`, a class whose `Assign` method updates the table in
place. The views take the caller's `DataFrame`, copy it, assign on the
copy, and are proved to leave the caller's table as it was.

The statistical tests, `describe` and `quantile` are not re-implemented.
They are function-typed parameters of the views (`TwoSampleTest`,
`ManySampleTest`, `CorrelationTest`, `Describe`, `QuantileFn`), and the
correlation matrix is an argument. What is modelled and proved is what the
views do around them: which samples each test receives, which columns are
tested, how results are labelled and counted, and what is reported when a
column is missing or nothing is selected.

Two duplicated pieces are modelled once:

- `map_language` has the same rule list in `analyse4.py:20-33` and
  `analyse8.py:37-50`. Both views use `ContextualFactors.LanguageGroup` and
  `ContextualFactors.LanguageColumn`.
- The selection pickers (the first half of the catalogue on the left, the
  rest on the right) are `Catalogues.SplitOptions`.

## Model

| member | source | states |
|---|---|---|
| Frames.RowsWhere | analyse6.py:95-100 | The selected rows are exactly those whose column holds the given text, and they form a subsequence of the input (row order kept). |
| Frames.RowsWhereAppend | analyse6.py:95-100 | Filtering a concatenation filters each part and concatenates, so the selection keeps the rows' order. |
| Frames.SubsequenceSnoc | analyse6.py:95-100 | A subsequence stays one when a row is appended to the input, and when the same row is appended to both. |
| Frames.PresentColumns | analyse8.py:52-54 | A column is kept iff it is requested and present. Kept columns stay in request order (a subsequence) and are never more than requested. |
| Frames.PresentColumnsIdempotent | analyse8.py:52-54 | Filtering an already filtered list changes nothing. |
| Frames.PresentColumnsAllPresent | analyse12.py:42 | When every requested column exists, the filter returns the request unchanged. |
| Frames.Require | analyse5.py:38 | Indexing by a column list succeeds iff every column exists. On failure it names a requested column that is absent. |
| Frames.FirstAbsent | analyse10.py:49 | No absent column is found iff all wanted columns are present. A reported column is wanted and absent. |
| Frames.FirstAbsentSameMembership | analyse8.py:85-87 | Two tables that agree on which wanted columns exist fail (or succeed) on the same column. |
| Frames.RequireIgnoresNewColumn | analyse8.py:85-87 | Adding a derived column that is not requested does not change whether a requested selection succeeds. |
| Frames.SumAppend | analyse7.py:67-68 | Summation distributes over concatenation. |
| Frames.RowTotal | analyse7.py:67 | `sum(axis=1)` for one student: a row with all scores missing totals 0, and non-negative scores give a non-negative total. |
| Frames.Mean | analyse12.py:43 | `mean()` of a non-empty column: its sum over its count. Its bounds are stated by `Frames.MeanBetween`. |
| Frames.SumBetween | analyse12.py:43 | n values between two bounds sum to between n times each bound. |
| Frames.MeanBetween | analyse12.py:43 | The mean lies between any lower and upper bound of the values. |
| Frames.RoundAt | analyse12.py:50-52 | Rounding to a scale lands within half a unit of that scale. |
| Frames.Round2 | analyse12.py:50-52 | `round(x, 2)` lies within half a hundredth of x. |
| Frames.MeanOrNaN | analyse12.py:43 | The mean is NaN exactly when there is no non-missing value. |
| Frames.Present | analyse10.py:113-114 | `dropna` never yields more values than cells. |
| Frames.Take | analyse9.py:161 | `[:6]` keeps the first min(6, n) columns in order, all from the input. |
| Frames.RowTotalIsSumOfPresent | analyse7.py:67-68 | The row total is the sum of the row's non-missing values over the selected columns (pandas skips NaN). |
| Frames.RowTotalReadsOnly | analyse7.py:67-68 | The total depends only on the selected columns. |
| Frames.RowTotalAllMissing | analyse7.py:67-68 | A row with every selected value missing totals 0, not NaN. |
| Frames.RowTotalExample | analyse8.py:87 | Concrete case: 5 + missing + 3 totals 8. |
| Frames.TotalColumn | analyse8.py:87 | The `total_score` column has one cell per row, holding that row's total. |
| Frames.PercentBounds | analyse2.py:50-52 | A count out of n, as a percentage, lies in [0, 100]: 100 when all count and 0 when none do. |
| Frames.Round2Percent | analyse2.py:52 | Rounding to two decimals keeps a percentage in [0, 100] and keeps 0 and 100 exact. |
| Frames.Round2Positive | analyse12.py:50-52 | A rounded value is positive iff the unrounded value is at least 0.005. |
| Frames.Round2ShiftInt | analyse12.py:50-52 | Rounding commutes with subtracting an integer standard. |
| Frames.Distinct | analyse9.py:163 | `unique()`: the same members as the input, without duplicates, in first-appearance order: a value listed before another first occurs before that other's first occurrence. |
| Frames.DistinctOfConstant | analyse9.py:163 | A column holding one value throughout has that single distinct value, or none when empty. |
| Frames.WithColumn | analyse10.py:44 | Assigning a column adds the name, fills each row's cell from the values, and leaves every other column of every row unchanged. |
| Frames.DataFrame.Copy | analyse10.py:43 | The copy has the same table as the original. |
| Frames.DataFrame.Assign | analyse10.py:44 | The new table is the old one with the column assigned. |
| Catalogues.SplitOptions | analyse2.py:29-43 | The left picker offers the first half (integer division) of the keys and the right picker the rest, together giving all keys in order. |
| Catalogues.PickedAreKeys | analyse2.py:29-45 | Whatever the two pickers select is a catalogue key. |
| Catalogues.SplitOptionsDisjoint | analyse2.py:29-43 | With distinct keys no option appears in both pickers. |
| Catalogues.AllScoreKeys | analyse13.py:11-25 | The thirteen task keys of the full catalogue, in order. |
| Catalogues.CatalogueShapes | analyse9.py:12-26 | The catalogues have 7, 13 and 13 keys. The first six keys and the picker halves are as listed. The classroom catalogue has `quantity` in place of `discrimin`. |
| Catalogues.LanguageGroupNotScore | analyse8.py:13-27 | `language_group` is not a score key. |
| Catalogues.GenderNotScore | analyse10.py:11-25 | `gender` is not a score key. |
| Catalogues.TotalScoreNotScore | analyse7.py:10-24 | `total_score` is not a score key. |
| Catalogues.FirstSixScores | analyse10.py:112 | `list(score_columns.keys())[:6]` is the six reading tasks, all catalogue keys. |
| Reliability.ListwiseDelete | analyse6.py:15 | Listwise deletion never adds rows. |
| Reliability.ListwiseDeleteAppend | analyse6.py:15 | Deletion acts row by row and distributes over concatenation. |
| Reliability.ListwiseDeleteComplete | analyse6.py:15 | A table with no missing item loses no row and keeps every value. |
| Reliability.ListwiseDeleteWidth | analyse6.py:15 | Kept rows keep the item count. |
| Reliability.SquareSign | analyse6.py:19-21 | A squared deviation is non-negative and zero only for a zero deviation. |
| Reliability.SumSqDevZero | analyse6.py:19-21 | The sum of squared deviations is non-negative and zero iff every value equals the centre. |
| Reliability.SumConstant | analyse6.py:19-21 | The sum of n copies of c is n·c. |
| Reliability.Variance | analyse6.py:19-20 | `var(ddof=1)`: the sample variance is never negative. |
| Reliability.RowSums | analyse6.py:20 | `items.sum(axis=1)`: one total per student. |
| Reliability.ItemVarianceSum | analyse6.py:19 | The sum of the item variances is never negative. |
| Reliability.VarianceZeroIff | analyse6.py:19-24 | The sample variance is zero iff all values are equal, the case the source reports as undefined. |
| Reliability.ScaleSum | analyse6.py:19-21 | Scaling every value scales the sum. |
| Reliability.ScaleSumSqDev | analyse6.py:19-21 | Scaling values and centre scales the squared deviations by c². |
| Reliability.MeanScale | analyse6.py:19-21 | Scaling every value scales the mean. |
| Reliability.ScaleVariance | analyse6.py:19-21 | Scaling every value scales the sample variance by c². |
| Reliability.AlphaOfComplete | analyse6.py:16-26 | On complete rows a coefficient exists only with at least two items and two rows. Exactly one row with two or more items gives NaN (sample variance of one value). |
| Reliability.CronbachAlpha | analyse6.py:13-27 | After deletion the same conditions apply: a coefficient needs two complete rows and two items, and a single complete row gives NaN. |
| Reliability.CronbachUndefinedIff | analyse6.py:16-24 | "Not computable" is returned iff fewer than two items, no complete row, or (with two or more complete rows) a zero variance of the row totals. |
| Reliability.IncompleteRowIgnored | analyse6.py:15 | Inserting a row with a missing item anywhere does not change alpha. |
| Reliability.IdenticalVarianceSum | analyse6.py:19-20 | When every item repeats the same column, the item variances sum to k times its variance. |
| Reliability.IdenticalTotalVariance | analyse6.py:21 | When every item repeats the same column, the total-score variance is k² times its variance. |
| Reliability.AlphaOfIdentical | analyse6.py:26 | The formula gives exactly 1 for those two variance ratios. |
| Reliability.IdenticalItemsGiveOne | analyse6.py:13-27 | k ≥ 2 perfectly agreeing items with some spread have alpha 1. |
| Reliability.InterpretAlpha | analyse6.py:42-53 | The rating is one of the five texts. |
| Reliability.ReliabilityColor | analyse6.py:29-40 | The colour is one of the five colours. |
| Reliability.LabelsMatchColours | analyse6.py:29-53 | Two coefficients get the same rating iff they get the same colour. |
| Reliability.InterpretAlphaMonotone | analyse6.py:42-53 | A higher alpha never gets a worse rating. |
| Reliability.InterpretAlphaBoundaries | analyse6.py:42-53 | The cut points 0.9, 0.7 and 0.6 are inclusive. Not computable is "insufficient data" and NaN falls through to "weak". |
| Reliability.ItemMatrix | analyse6.py:95-100 | The item matrix has one row per student and one numeric-or-missing cell per item. |
| Reliability.ShowCronbach | analyse6.py:95-111 | Succeeds iff `language_teaching` and all 13 item columns exist. Gives three rows (English, Dutch, EGMA) whose alphas are computed on the right subsets and items and whose ratings match the alphas. |
| SignificanceTests.MakeRow | analyse13.py:127-132 | A result row keeps the variable, statistic and p-value. It is labelled with the "significant" text iff p < 0.05 (a NaN p is not significant). |
| SignificanceTests.Sample | analyse13.py:118-119 | A group's sample is never longer than the table. |
| SignificanceTests.PresentAppend | analyse13.py:118 | `dropna` acts cell by cell. |
| SignificanceTests.SampleIsDropnaOfSelection | analyse13.py:43-44 | The sample equals `dropna` of the column on the rows selected for the group. |
| SignificanceTests.SampleIgnoresOtherRows | analyse10.py:113-114 | A row outside the group does not change its sample. |
| SignificanceTests.TestedColumns | analyse13.py:121 | A column is tested iff both groups have at least one value in it. |
| SignificanceTests.TwoGroupResults | analyse13.py:117-132 | One row per tested column, in column order. Each row is labelled from the catalogue and built from the test on the two groups' samples. |
| SignificanceTests.RunTwoGroupTests | analyse13.py:117-132 | The loop builds exactly that table. |
| SignificanceTests.TwoGroupLabels | analyse13.py:131 | Every row says "significant" iff its p-value is below 0.05. |
| SignificanceTests.TwoGroupIgnoresOtherRows | analyse10.py:112-123 | A row in neither group changes no result. |
| LanguageComparison.LabelCount | analyse13.py:175 | The number of rows carrying a given label is at most the number of rows. |
| LanguageComparison.SignificantCount | analyse13.py:175 | The count of significant rows is at most the number of rows. |
| LanguageComparison.SignificantCountMatchesLabels | analyse13.py:131-175 | For correctly labelled rows the count equals the number of rows labelled significant. |
| LanguageComparison.Synthesis | analyse13.py:175-190 | Fails iff there are no results. Otherwise reports the rows, their number, the significant count (at most the total) and a percentage in [0, 100]. This is the corrected version (see Findings). |
| LanguageComparison.SignificantCountAsWritten | analyse13.py:175 | The count read back from the 5-decimal text never exceeds the number of rows. |
| LanguageComparison.RenderedBelowThreshold | analyse13.py:130-175 | The rendered p-value parses below 0.05 iff the true p is below 0.049995. |
| LanguageComparison.AsWrittenAtMostSignificant | analyse13.py:175 | The count as written never exceeds the correct count. The two agree when no p lies in [0.049995, 0.05). |
| LanguageComparison.AsWrittenMissesRow | analyse13.py:130-175 | Counterexample: p = 0.049996 is labelled significant but not counted. |
| LanguageComparison.LanguageComparison | analyse13.py:40-193 | Succeeds iff `language_teaching` and all 13 task columns exist and some column is tested. The results are the English-versus-Dutch tests of the first six tasks. A missing column is reported as such. This is the corrected version (see Findings). |
| LanguageComparison.ShowLanguageComparison | analyse13.py:40-193 | The view computes exactly that report. |
| LanguageComparison.SynthesisCountsLabels | analyse13.py:175 | The synthesis count equals the number of rows labelled significant. |
| LanguageComparison.OtherLanguageIgnored | analyse13.py:43-44 | A school taught in neither language changes nothing. |
| GenderEffect.GenderLabel | analyse10.py:44 | Boy iff code 1, girl iff code 0, unknown otherwise (including missing and text codes). |
| GenderEffect.GenderColumn | analyse10.py:44 | The derived column holds each student's label. |
| GenderEffect.GenderEffect | analyse10.py:41-164 | Succeeds iff `stgender` and all 13 task columns exist. The results are the boy-versus-girl tests of the first six tasks on the table with `gender` added. |
| GenderEffect.ShowGenderEffect | analyse10.py:41-164 | The view on the caller's table computes that result and leaves the caller's table unchanged. |
| GenderEffect.WithGenderAppend | analyse10.py:43-44 | Adding a student adds exactly that student's labelled row to the derived table. |
| GenderEffect.UnknownGenderIgnored | analyse10.py:113-114 | A student with a code other than 0 or 1 changes no result. |
| ClassroomPractices.MethodGroup | analyse9.py:162 | A method's sample is never longer than the table. |
| ClassroomPractices.Groups | analyse9.py:162-163 | One sample per distinct teaching method, in first-appearance order, each taken from that method's rows. |
| ClassroomPractices.KruskalResults | analyse9.py:161-170 | One row per column, never skipped, labelled from the catalogue and built from the test on all method groups. |
| ClassroomPractices.RunKruskalTests | analyse9.py:160-170 | The loop builds exactly that table. |
| ClassroomPractices.ClassroomPractices | analyse9.py:44-170 | No score column means the warning. A missing chart column is reported. With the chart columns present, fewer than two distinct teaching methods (a missing method counts as one) fail as `kruskal` does, and otherwise the result tests the first six present scores. |
| ClassroomPractices.ShowClassroomPractices | analyse9.py:44-170 | The view computes exactly that result, including the failure for fewer than two groups. |
| ClassroomPractices.MissingMethodGroupEmpty | analyse9.py:162-163 | The NaN method's group is always empty, because NaN never compares equal. |
| ClassroomPractices.MethodGroupAppend | analyse9.py:162 | A new student adds their value only to their own method's group. |
| ClassroomPractices.ExactlyOneGroup | analyse9.py:162-163 | A student with a recorded method belongs to exactly one group. |
| ClassroomPractices.SingleMethodTooFewGroups | analyse9.py:162-164 | A table where every student has the same teaching method, or none, fails with too few groups. |
| ClassroomPractices.DiscriminNeverTested | analyse9.py:21 | `discrimin` is never tested in this view, because its catalogue lists `quantity` instead. |
| SesSupport.SamplesAsWritten | analyse11.py:143 | The two samples as written are independently dropna'd. They fail iff their lengths differ. |
| SesSupport.PairedSamples | analyse11.py:143 | The paired samples have equal length. Each pair comes from one student's SES and score. |
| SesSupport.BothPresent | analyse11.py:143 | The count of students with both values is at most the table size. |
| SesSupport.PairedSamplesCount | analyse11.py:143 | There is one pair per student with both values. |
| SesSupport.SamplesAgreeWhenComplete | analyse11.py:143 | With no missing values the code as written and the paired samples agree. |
| SesSupport.MisalignedPairs | analyse11.py:143 | Counterexample: equal lengths but (1, 5) is paired although no student has SES 1 and score 5. |
| SesSupport.LengthMismatchFails | analyse11.py:143 | Counterexample: one missing score makes the lengths differ and the test fails. |
| SesSupport.SpearmanResults | analyse11.py:141-149 | One row per column, labelled from the catalogue and built from the test on the paired samples. This is the corrected version (see Findings). |
| SesSupport.RunSpearmanTests | analyse11.py:141-149 | The loop builds exactly that table. |
| SesSupport.SpearmanLabels | analyse11.py:146-149 | Every row says "correlated" iff p < 0.05. |
| SesSupport.AnalysisFrame | analyse11.py:45-47 | The copy gains `total_score` (the row totals over existing scores) and keeps every other cell. |
| SesSupport.SesHomeSupport | analyse11.py:43-190 | Succeeds iff `ses` and `home_support` exist. The results are the correlation tests of the first six existing scores on the analysis table. This is the corrected version (see Findings). |
| SesSupport.ShowSesHomeSupport | analyse11.py:43-190 | The view on the caller's table computes that report and leaves the caller's table unchanged. |
| SesSupport.TestsFirstSixExisting | analyse11.py:142 | Exactly min(6, n) existing scores are tested, in order, each labelled from the catalogue. |
| ZeroScores.ZeroCount | analyse2.py:50 | The zero count is at most the number of cells. |
| ZeroScores.ZeroCountExtremes | analyse2.py:50 | All cells count iff all are 0. None count iff none is 0 (missing and text are not 0). |
| ZeroScores.ZeroPercentage | analyse2.py:50-52 | NaN iff the table is empty. Otherwise in [0, 100]: 100 when all are 0 and 0 when none is. |
| ZeroScores.ZeroPercentageExtremes | analyse2.py:50-52 | All zeros give exactly 100 and no zeros give exactly 0. |
| ZeroScores.MissingCountsInDenominator | analyse2.py:50-52 | Missing cells count in the denominator: one zero out of three rows is 33.33. |
| ZeroScores.ZeroScores | analyse2.py:45-57 | An empty selection gives the warning. Otherwise succeeds iff every selected column exists, giving one labelled percentage per selected task, in order. |
| Benchmarks.BenchmarkTableShape | analyse12.py:10-24 | The 13 benchmark codes are the catalogue keys in order. |
| Benchmarks.BenchmarkNames | analyse12.py:10-24 | Each benchmark's name is the catalogue label of its task. |
| Benchmarks.Lookup | analyse12.py:48-52 | `international_benchmarks[col]`: the entry found is in the catalogue and carries the code asked for. |
| Benchmarks.CompareOne | analyse12.py:45-53 | A line keeps its benchmark. Its observed value exists iff the column has a value and is the rounded mean. The gap exists with it and is observed minus standard. |
| Benchmarks.PositiveGapMeansAbove | analyse12.py:43-53 | The gap is positive iff the unrounded mean is at least standard + 0.005. |
| Benchmarks.ComparisonTable | analyse12.py:45-53 | One line per existing code, in order, each for that code's benchmark. |
| Benchmarks.BuildComparison | analyse12.py:45-53 | The loop builds exactly that table. |
| Benchmarks.AboveCount | analyse12.py:162 | The count above standard is at most the table size. |
| Benchmarks.AboveCountAll | analyse12.py:162 | All lines count iff every gap is defined and positive. |
| Benchmarks.LargestGapIndex | analyse12.py:168-169 | `idxmax` of the absolute gap: none iff every gap is NaN. Otherwise the first line whose absolute gap is maximal. |
| Benchmarks.LargestGap | analyse12.py:168-169 | Fails iff no gap is defined. Otherwise the largest absolute gap with its task name. |
| Benchmarks.InternationalComparison | analyse12.py:40-172 | Fails iff no benchmark column exists (the melt at lines 60-66 has nothing to plot). Otherwise the report is the comparison table, one line per existing benchmark column in catalogue order with absent columns skipped, its above count and its largest gap. |
| Benchmarks.ShowInternationalComparison | analyse12.py:40-172 | The view computes exactly that report, and fails in the same case. |
| Benchmarks.LinesMatchTable | analyse12.py:45-53 | Every line carries its benchmark's name and standard, and gap = observed − standard. |
| Correlations.Candidate | analyse5.py:60-69 | A line records its position, both task labels and a rounded value above 0.5 in absolute value. |
| Correlations.RoundedStrongIff | analyse5.py:64 | A correlation counts as strong iff it is at least 0.505 or below −0.505 (threshold applied after rounding). |
| Correlations.ThresholdExamples | analyse5.py:64 | 0.503 and −0.5 are not strong. 0.506 and −0.51 are. |
| Correlations.RowPairs | analyse5.py:62-69 | The inner loop yields at most one line per column. |
| Correlations.RowPairsExact | analyse5.py:62-69 | The inner loop yields exactly the strong positions of its row, in column order. |
| Correlations.Rounded | analyse5.py:38 | `.corr().round(2)`: a NaN coefficient stays NaN, and a defined one moves by at most 0.005. |
| Correlations.StrongUpTo | analyse5.py:60-69 | The pairs the two loops collect from the first i rows; their members are stated by `Correlations.StrongUpToMembers`. |
| Correlations.StrongUpToMembers | analyse5.py:60-69 | The nested loops collect exactly the strong upper-triangle positions. |
| Correlations.StrongUpToAscending | analyse5.py:60-69 | They are collected in row-major order. |
| Correlations.AscendingAppend | analyse5.py:60-69 | Row-major order survives appending a later row. |
| Correlations.StrongUpToCount | analyse5.py:60-69 | After i rows at most i(2n − 1 − i)/2 pairs are collected. |
| Correlations.StrongPairsBound | analyse5.py:60-69 | At most n(n − 1)/2 pairs, the size of the upper triangle. |
| Correlations.ExtractStrong | analyse5.py:60-69 | The nested loops compute exactly that list. |
| Correlations.InsertByStrength | analyse5.py:76-79 | One insertion step adds exactly that line. |
| Correlations.ConsSorted | analyse5.py:76-79 | A line at least as strong as a sorted rest heads a sorted list. |
| Correlations.InsertBounded | analyse5.py:76-79 | Insertion keeps a bound on strengths. |
| Correlations.InsertKeepsOrder | analyse5.py:76-79 | Insertion keeps the list sorted by decreasing strength. |
| Correlations.SortByStrength | analyse5.py:76-79 | The result is sorted by decreasing absolute value and is a permutation of its input. |
| Correlations.Correlations | analyse5.py:38-116 | Succeeds iff every task column exists. "None found" iff there is no strong pair. Otherwise a permutation of the strong pairs sorted by strength. |
| Correlations.ShowCorrelation | analyse5.py:38-116 | The view computes exactly that result. |
| Correlations.TableIsExactlyStrongPositions | analyse5.py:60-79 | Every line is a genuine strong upper-triangle position with its labels and rounded value, and every such position is listed. |
| SchoolPerformance.PerformanceLevel | analyse7.py:26-33 | Mastery iff at or above the 0.75 cut, Developing iff below it and at or above the 0.50 cut, Emerging otherwise (a NaN cut is never reached). |
| SchoolPerformance.PerformanceLevelMonotone | analyse7.py:26-33 | With ordered cuts a higher total never gets a lower tier. |
| SchoolPerformance.PerformanceLevelIntervals | analyse7.py:26-33 | With ordered cuts the tiers are the intervals [q75, ∞), [q50, q75) and (−∞, q50). |
| SchoolPerformance.SchoolRows | analyse7.py:64 | A school's rows are exactly the rows with that school. |
| SchoolPerformance.Schools | analyse7.py:64 | The groups are exactly the non-missing school values, each once. |
| SchoolPerformance.RemoveMissing | analyse7.py:64 | Dropping the NaN key keeps every other key, without duplicates. |
| SchoolPerformance.SchoolRowsNonEmpty | analyse7.py:64-69 | Every group has at least one student, so its mean exists. |
| SchoolPerformance.Totals | analyse7.py:67-68 | One total per student. |
| SchoolPerformance.MeanTotals | analyse7.py:69 | One mean total per school, over that school's students. |
| SchoolPerformance.CutPoints | analyse7.py:71 | The two cut points are the 0.50 and 0.75 quantiles of the schools' mean totals, from the quantile parameter. |
| SchoolPerformance.SchoolMeans | analyse7.py:64 | One mean per selected score. It is NaN iff the school has no value for that score, and otherwise the two-decimal mean of the values it has. |
| SchoolPerformance.CountsPartition | analyse7.py:169-171 | The three tier counts add up to the number of students. |
| SchoolPerformance.Levels | analyse7.py:72-74 | Each student's level is the rule applied to their total. |
| SchoolPerformance.SchoolTiers | analyse7.py:105 | A school's three tier counts add up to its number of students. |
| SchoolPerformance.LevelColumn | analyse7.py:72-74 | The level column holds each student's tier against the same two cuts. |
| SchoolPerformance.AnalysisFrame | analyse7.py:67-74 | The copy gains `total_score` and `performance_level` and keeps every other cell. |
| SchoolPerformance.PerformanceSchool | analyse7.py:61-188 | An empty selection gives the warning. Otherwise succeeds iff `school` and the selected columns exist. Gives per-school means, the cuts from the school mean totals, the analysis table and per-school tier counts. |
| SchoolPerformance.ShowPerformanceSchool | analyse7.py:61-188 | The view on the caller's table computes that report and leaves the caller's table unchanged. |
| SchoolPerformance.SameTotalSameLevel | analyse7.py:72-74 | Two students with the same total get the same level, whatever their schools. |
| ContextualFactors.Occasional | analyse4.py:25-28 | `in ["Frequently", "Sometimes"]`: true for those two answers only, never for a missing one. |
| ContextualFactors.LanguageGroup | analyse4.py:20-33 | The group is always one of the eight group names. |
| ContextualFactors.MapLanguage | analyse8.py:37-50 | When it succeeds the result is the rule list's group. It can fail only on one of the three answer columns, and cannot fail when all three exist. |
| ContextualFactors.EnglishAlwaysWins | analyse8.py:39-40 | "Always" English wins over any other answers. |
| ContextualFactors.DutchAlwaysBeatsOccasionalEnglish | analyse8.py:39-44 | "Always" Dutch wins over an occasional English answer. |
| ContextualFactors.OccasionalAnswers | analyse8.py:39-46 | Failing both "Always" rules, an occasional English answer names the group, then an occasional Dutch one. English Sometimes wins over Dutch Frequently. |
| ContextualFactors.OtherLanguageIff | analyse8.py:39-50 | "Other Language" iff no English/Dutch rule fires and the other-language answer is Yes. "Other" iff none fires and it is not. |
| ContextualFactors.LanguageColumn | analyse8.py:86 | Succeeds iff every row maps. Then it holds each student's group, and a failure is a missing column. |
| ContextualFactors.LanguageColumnTotal | analyse8.py:86 | With the three answer columns present the mapping always succeeds. |
| ContextualFactors.AlwaysEnglishNeedsNoOtherColumn | analyse8.py:39-40 | The lookup is lazy: if every student answers English "Always", only the English column is needed. |
| ContextualFactors.AnalysisFrame | analyse8.py:85-87 | The copy gains `language_group` and `total_score` and keeps every other cell. |
| ContextualFactors.SelectionExcludesDerived | analyse8.py:62-80 | No selectable score is named like a derived column. |
| ContextualFactors.RequireBoth | analyse8.py:87-135 | Requiring the selection and the two context columns is requiring each. |
| ContextualFactors.ContextualFactors | analyse8.py:80-241 | An empty selection gives the warning. Otherwise succeeds iff the language mapping succeeds and the selected, `ses` and `home_support` columns exist. The result is the copy with both derived columns. |
| ContextualFactors.ShowContextualFactors | analyse8.py:80-241 | The view on the caller's table computes that result and leaves the caller's table unchanged. |
| LanguageEffect.FlatName | analyse4.py:70 | A flattened name starts with the key and `_`, followed by the statistic. |
| LanguageEffect.StatColumns | analyse4.py:69-70 | A key gives its eight `describe` statistics, in order. |
| LanguageEffect.Flatten | analyse4.py:70 | Eight flattened names per key. |
| LanguageEffect.ReportColumns | analyse4.py:69-71 | The table's columns are `language_group` followed by the flattened names. |
| LanguageEffect.FlattenMembers | analyse4.py:70 | A name is flattened iff it is some selected key joined with some statistic. |
| LanguageEffect.SectionColumns | analyse4.py:172 | The report filter keeps a column iff it starts with `key_` or is `language_group`, in table order. |
| LanguageEffect.SectionKeepsOwnStats | analyse4.py:172 | A key's section keeps the group column and all eight of its own statistics. |
| LanguageEffect.ShorterPrefix | analyse4.py:172 | Two prefixes of the same name, the shorter is a prefix of the longer. |
| LanguageEffect.SectionExact | analyse4.py:172 | When no key followed by `_` is a prefix of another's, a section holds exactly the group column and that key's statistics. |
| LanguageEffect.DistinctStartsPrefixFree | analyse4.py:10-18 | Keys with distinct first two letters are prefix-free and distinct. |
| LanguageEffect.EgraDistinctStarts | analyse4.py:10-18 | The seven reading-task keys have distinct first two letters. |
| LanguageEffect.EgraPickers | analyse4.py:44-58 | The pickers offer three and four tasks, with none in both. |
| LanguageEffect.EgraKeysAreScores | analyse4.py:10-18 | Every reading task is a score key. |
| LanguageEffect.SelectedSectionsExact | analyse4.py:172 | For any selection, every section of the report holds exactly its own statistics. |
| LanguageEffect.GroupLabels | analyse4.py:66 | Each student's label is one of the eight group names. |
| LanguageEffect.LanguageEffect | analyse4.py:60-138 | An empty selection gives the warning. Otherwise succeeds iff the mapping succeeds and the selected columns exist. The columns are the flattened names, one row per distinct group, each cell the statistics of that group's sample of that score. |
| LanguageEffect.SelectionNotDerived | analyse4.py:44-66 | No selectable task is named `language_group`. |
| LanguageEffect.ShowLanguageEffect | analyse4.py:60-138 | The view on the caller's table computes that result and leaves the caller's table unchanged. |
| LanguageEffect.GroupsAreStudentLabels | analyse4.py:69-71 | The groups are distinct group names and every student's label is among them. |
| LanguageEffect.GroupColumnHoldsLabel | analyse4.py:66 | In the derived table, a student's group cell matches a name iff the name is their label. |

## Left out

- Display and files: charts, metrics, Streamlit widgets, Word and CSV export, temporary files and the report builders (`generate_*_report`). Only the values these show are modelled.
- `analyse1.py`, `analyse3.py` and the entry point are not part of this model.
- Statistical routines (Mann-Whitney, Kruskal-Wallis, Spearman), `describe` (with its `.round(2)`) and `quantile` are function parameters. Their numerical results are not modelled.
- The correlation matrices of views 5, 8 and 11 are inputs or not modelled. View 5 takes the matrix as an argument; the heatmaps of views 8 and 11 are display only.
- Floating point: values are exact reals. `round` is half-up on those reals, so float representation effects on ties are not modelled.
- Text in a score column is treated as missing for means, sums and tests, where pandas would raise a type error. In `Reliability.ItemMatrix` this means listwise deletion drops a row holding text, whereas the source's `dropna` keeps that row and `items.var` raises, which `show_cronbach` does not catch.
- Group order: pandas `groupby` sorts its groups. The model keeps the groups of views 4 and 7 in first-appearance order (the sets, and what is computed per group, are the same).
- ClassroomPractices.ClassroomPractices: the Kruskal-Wallis test is a total parameter, so its own errors are not modelled: `kruskal` also raises when all values are identical, and gives NaN for an empty group.
- `unique()` treats every missing method as one value. Its group is always empty (`ClassroomPractices.MissingMethodGroupEmpty`), which matches pandas' NaN comparison.
- `apply(map_language, axis=1)` on a table with no rows is not modelled specially: the model yields an empty column.
- The text formatting of statistics and p-values (`:.3f`, `:.5f`) is modelled only where it changes a result, in `LanguageComparison.SignificantCountAsWritten`.
- Correlations.SortByStrength: states sorted and a permutation only. `sort_values('Abs_Corr', ascending=False)` uses pandas' default quicksort, which is not stable, so the order of equal strengths is unspecified and the model does not fix it.
- ReportColumns and FlatName: `strip()` on the joined name removes nothing, because keys and statistic names carry no blanks, so it is not modelled.

## Findings

| source | as written | input that shows it | evidently intended | confidence | as-written member | corrected member |
|---|---|---|---|---|---|---|
| analyse13.py:175 | The synthesis counts significant tests by parsing the p-value back from its 5-decimal text (`float(x) < 0.05`). | A test with p = 0.049996 is shown as 0.05000: its row is labelled significant (p < 0.05) but it is not counted. | Count the rows whose p-value is below 0.05, the same rule as the label. | not executed | LanguageComparison.AsWrittenMissesRow | LanguageComparison.SynthesisCountsLabels |
| analyse11.py:143 | Spearman gets `ses.dropna()` and `score.dropna()`, each dropping its own missing values. | Rows (ses 1, score missing), (ses missing, score 5), (ses 2, score 3) pair SES 1 with score 5, from two different students. With one row fewer the lengths differ and the test raises. | Drop the students missing either value, so each pair is one student's SES and score. | not executed | SesSupport.MisalignedPairs | SesSupport.SesHomeSupport |
