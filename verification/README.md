# Bellabeat activity analysis: a Dafny model

This project models the computational core of the Bellabeat case-study script
`bellabeat_pdf_generation_code.py`. The script reads one FitBit record per
user per day and derives per-record columns. It then computes the statistics
that the PDF report and `analysis_summary.csv` present:

- the step-count classifier `classify_activity_level`, with four buckets split
  at 5000, 7500 and 10000 steps;
- the per-record derivation in `load_and_clean_data`: activity level, total
  active minutes, active percentage of the day, and the weekend flag;
- `analyze_data`:
  - the basic statistics;
  - the record-level and user-level bucket distributions;
  - mean steps per weekday, reindexed Monday to Sunday;
  - the weekday/weekend comparison;
- the summary metrics, including the most and least active day, which are
  `idxmax`/`idxmin` of the weekly pattern.

Modules, one per file:

| module | file | contents |
|---|---|---|
| `Options` | `options.dfy` | `Option` (pandas NaN / no row) and `Result` (a raised exception) |
| `ActivityLevels` | `activity_levels.dfy` | the buckets and the classifier |
| `Records` | `records.dfy` | raw and derived records, row-wise derivation |
| `Groups` | `groups.dfy` | column sums and means, `groupby` selection, weekend partition |
| `Distribution` | `distribution.dfy` | bucket counts and percentages, over records and over users |
| `Analysis` | `analysis.dfy` | basic stats, weekly pattern, weekend comparison, `analyze_data`, summary |
| `Findings` | `findings.dfy` | two defects of the script, as written and corrected |
| `Scenario` | `scenario.dfy` | a worked two-user, two-day example |

Modelling choices:

- Measurements are unbounded integers. Means and percentages are exact `real`s.
- A pandas NaN, such as the mean of an empty group, is `None`.
- The active percentage is a float64 quotient with three cases. It is finite
  when the day's minutes do not total 0. With a zero total, it is NaN when
  the active minutes are also 0, and otherwise +inf or -inf by the sign of the
  active minutes. An infinity needs negative minute counts, which the script
  does not reject.
- An exception the script raises is the error case of a `Result`.
- The parsed `ActivityDate` is represented only by its day of the week.
- A bucket distribution is a total `Buckets` record with one entry per level
  (zeros included), which is what the report text relies on.
- Users appear in order of first appearance. Only the set of users and the
  count per bucket matter to the results.

## Model

| member | source | states |
|---|---|---|
| ActivityLevels.Classify | bellabeat_pdf_generation_code.py:26-34 | the result is the most active bucket whose lower threshold the step count reaches |
| ActivityLevels.ClassifyBands | bellabeat_pdf_generation_code.py:26-34 | each bucket is exactly one half-open band: below 5000, [5000, 7500), [7500, 10000), 10000 and above |
| ActivityLevels.ClassifyMonotone | bellabeat_pdf_generation_code.py:26-34 | more steps never yield a less active bucket |
| ActivityLevels.ClassifyBoundaries | bellabeat_pdf_generation_code.py:27-33 | 4999/5000, 7499/7500 and 9999/10000 fall on either side of each threshold, with the threshold in the upper bucket |
| Records.DayIndex | bellabeat_pdf_generation_code.py:73 | each day's position in the Monday-first week order |
| Records.WeekIsAPermutationOfDays | bellabeat_pdf_generation_code.py:73 | the report order lists all seven days, each once |
| Records.Derive | bellabeat_pdf_generation_code.py:36-40 | raw columns kept; level is the classifier of the steps; active minutes are the sum of the three active columns; weekend iff Saturday or Sunday; the percentage is finite exactly when the day's minutes do not total 0, and then times that total equals 100 times the active minutes; with a zero total it is NaN iff the active minutes are 0, and otherwise an infinity negative iff the active minutes are |
| Records.ActivityPercentageBounds | bellabeat_pdf_generation_code.py:39 | with non-negative minutes and a non-empty day, the percentage is in [0, 100]; it is 0 iff nothing was active and 100 iff nothing was sedentary |
| Records.DeriveAll | bellabeat_pdf_generation_code.py:36-40 | derivation is row-wise: same length, each row's raw columns kept, each row derived from its own raw columns only |
| Records.RederiveIsIdentity | bellabeat_pdf_generation_code.py:36-40 | re-deriving a derived table from its raw columns reproduces it |
| Records.DeriveKeepsRows | bellabeat_pdf_generation_code.py:36-40 | derivation adds, drops, reorders and alters no input row |
| Groups.Mean | bellabeat_pdf_generation_code.py:60-62 | a column mean is undefined exactly for an empty table, and otherwise mean times count equals the column sum |
| Groups.MeanAtLeast | bellabeat_pdf_generation_code.py:60-62 | a lower bound on every value bounds the mean |
| Groups.MeanAtMost | bellabeat_pdf_generation_code.py:60-62 | an upper bound on every value bounds the mean |
| Groups.Select | bellabeat_pdf_generation_code.py:69 | a group is no larger than the table, and all its rows carry the group's key |
| Groups.SelectCounts | bellabeat_pdf_generation_code.py:69 | a group keeps each row with exactly its multiplicity in the table if the row has the key, and with 0 otherwise |
| Groups.SelectMembers | bellabeat_pdf_generation_code.py:74 | a row is in a group iff it is in the table and has the key |
| Groups.EmptyGroup | bellabeat_pdf_generation_code.py:74 | a group is empty iff no row of the table has the key |
| Groups.WeekendPartition | bellabeat_pdf_generation_code.py:78-82 | the weekday and weekend groups together are exactly the table's rows, as a multiset |
| Groups.WeekendPartitionSums | bellabeat_pdf_generation_code.py:78-82 | every column's weekday sum plus weekend sum is its sum over the table |
| Distribution.Tally | bellabeat_pdf_generation_code.py:66 | each bucket counts exactly the occurrences of its level, and the counts total the number of labels |
| Distribution.Percent | bellabeat_pdf_generation_code.py:66 | a share in percent: times the total gives 100 times the count; it lies in [0, 100] and is 0 iff the count is 0 |
| Distribution.PercentsAddUp | bellabeat_pdf_generation_code.py:66 | four shares of counts that partition a total add up to 100 |
| Distribution.Percentages | bellabeat_pdf_generation_code.py:66 | each bucket's percentage is its share of the total count, and the four sum to 100 |
| Distribution.LevelCountIsGroupSize | bellabeat_pdf_generation_code.py:66 | a level occurs in the level column exactly as often as its group has rows |
| Distribution.LevelsOf | bellabeat_pdf_generation_code.py:66 | the `ActivityLevel` column: one entry per record, in table order, each that record's bucket |
| Distribution.RecordCounts | bellabeat_pdf_generation_code.py:66 | each bucket counts the records at its level, and the counts total the record count |
| Distribution.RecordDistribution | bellabeat_pdf_generation_code.py:66 | defined iff there are records; each bucket is the percentage of records at that level; the four sum to 100; a bucket is 0 iff no record is at that level |
| Distribution.RecordCountsCoverTable | bellabeat_pdf_generation_code.py:66 | the four record counts add up to the number of records |
| Distribution.Users | bellabeat_pdf_generation_code.py:58 | the distinct user ids, each listed once, no more of them than records |
| Distribution.UniqueUsersCount | bellabeat_pdf_generation_code.py:58 | the number of distinct users is at most the number of records, and 0 iff there are none |
| Distribution.UserHasRecords | bellabeat_pdf_generation_code.py:69 | every user's group of records is non-empty, so its mean is defined |
| Distribution.UserMeanSteps | bellabeat_pdf_generation_code.py:69 | a user's mean steps times their record count equals the sum of their steps |
| Distribution.UserLevels | bellabeat_pdf_generation_code.py:69 | keyed by exactly the distinct users; each user's bucket is the classifier of their mean steps |
| Distribution.LevelsForCount | bellabeat_pdf_generation_code.py:69-70 | in a list of distinct users, each level occurs as often as the listed users in that bucket |
| Distribution.UserLevelList | bellabeat_pdf_generation_code.py:69 | the per-user level series has one entry per distinct user, and each level occurs once per user in its bucket |
| Distribution.UserCounts | bellabeat_pdf_generation_code.py:70 | each bucket counts the users at that level, and the counts total the distinct users |
| Distribution.UserDistribution | bellabeat_pdf_generation_code.py:69-70 | defined iff there are records; each bucket is the percentage of distinct users at that level; the four sum to 100 |
| Distribution.UserCountsCoverUsers | bellabeat_pdf_generation_code.py:69-70 | the four user counts add up to the number of distinct users |
| Distribution.UniformUserKeepsBucket | bellabeat_pdf_generation_code.py:69 | a user whose records all fall in one bucket (each classified as on line 36) is classified into that bucket by mean steps as well |
| Analysis.MeanSedentaryHours | bellabeat_pdf_generation_code.py:62 | mean sedentary minutes over 60: undefined iff the table is empty, and otherwise times 60 it equals the mean sedentary minutes |
| Analysis.ComputeBasicStats | bellabeat_pdf_generation_code.py:56-63 | an empty table raises ValueError, because its `date_range` entry (line 59) formats `NaT`; otherwise it gives the record count, the distinct-user count (between 1 and the record count), the step and calorie column means, and sedentary hours that times 60 equal the mean sedentary minutes |
| Analysis.SedentaryHoursWithinDay | bellabeat_pdf_generation_code.py:62 | when every sedentary figure is between 0 and 1440 minutes, the average lies between 0 and 24 hours |
| Analysis.DayMean | bellabeat_pdf_generation_code.py:74 | a weekday's mean is undefined iff no record falls on it; otherwise times that day's record count it equals the day's step sum |
| Analysis.WeeklyPatterns | bellabeat_pdf_generation_code.py:73-75 | exactly seven entries in Monday-to-Sunday order; entry i is the mean for the i-th day, undefined where that day has no records |
| Analysis.SomeDayDefinedIffNonEmpty | bellabeat_pdf_generation_code.py:73-75 | some weekday has a defined mean iff the table has a record |
| Analysis.MeansOf | bellabeat_pdf_generation_code.py:78-82 | a group's three means are defined iff the group has rows, and each times the group size equals the column sum |
| Analysis.CompareWeekend | bellabeat_pdf_generation_code.py:78-83 | the weekday and weekend rows are the means of the two groups; a side is absent iff no record has that flag |
| Analysis.WeekendGroupIsSaturdaySunday | bellabeat_pdf_generation_code.py:40 | in a derived table the weekend group is exactly the Saturday and Sunday records |
| Analysis.OverallMeanIsWeighted | bellabeat_pdf_generation_code.py:78-82 | overall mean steps times the record count equals the weekday group's mean times its size plus the weekend group's mean times its size |
| Analysis.Analyze | bellabeat_pdf_generation_code.py:51-85 | an empty table raises the ValueError of the basic statistics; otherwise every part is the one its own member describes, computed from the same table, and every part is defined: both distributions, at least one weekday mean and at least one side of the weekend comparison |
| Analysis.IdxMax | bellabeat_pdf_generation_code.py:272 | no position iff every entry is undefined; otherwise the first position holding the largest defined value |
| Analysis.IdxMin | bellabeat_pdf_generation_code.py:273 | no position iff every entry is undefined; otherwise the first position holding the smallest defined value |
| Analysis.FirstMaxIsMostActiveDay | bellabeat_pdf_generation_code.py:272 | the first maximum of the weekly pattern names a day whose mean is the highest, and every earlier day's mean is strictly lower |
| Analysis.FirstMinIsLeastActiveDay | bellabeat_pdf_generation_code.py:273 | the first minimum of the weekly pattern names a day whose mean is the lowest, and every earlier day's mean is strictly higher |
| Analysis.MostActiveDayIsUnique | bellabeat_pdf_generation_code.py:272 | at most one day is most active under the earliest-on-tie rule |
| Analysis.LeastActiveDayIsUnique | bellabeat_pdf_generation_code.py:273 | at most one day is least active under the earliest-on-tie rule |
| Analysis.Summarize | bellabeat_pdf_generation_code.py:267-274 | the six summary metrics: counts; mean steps and sedentary hours, which agree with the basic statistics on a non-empty table; most and least active day, each defined iff there are records and each the best (worst) day, earliest on a tie |
| Findings.AnalyzeWith | bellabeat_pdf_generation_code.py:56-69 | an empty table raises the line-59 ValueError before the lookup; on any other table the analysis succeeds iff the classifier's name is visible at the top level of the script, and yields `Analyze`'s result, or else a NameError for that name |
| Findings.AnalyzeAsWrittenAlwaysFails | bellabeat_pdf_generation_code.py:26 | the classifier is bound only inside the loader, so as written the analysis never succeeds, and every non-empty table ends in a NameError |
| Findings.AnalyzeCorrectedSucceeds | bellabeat_pdf_generation_code.py:69 | with the classifier moved to the top level, the analysis is `Analyze`'s, and it succeeds iff the table is non-empty |
| Findings.ValueCounts | bellabeat_pdf_generation_code.py:66 | the as-written series has an entry for exactly the labels that occur, each holding its percentage share |
| Findings.BreakdownAsWritten | bellabeat_pdf_generation_code.py:211-214 | the four lookups succeed iff all four labels are present, and then read the series; otherwise the error names the first missing label in report order |
| Findings.BreakdownOfColumn | bellabeat_pdf_generation_code.py:211-220 | one paragraph over a label column: it renders iff every label occurs, showing the `value_counts` entries; otherwise it raises KeyError for the first label, in report order, that does not occur |
| Findings.RecordBreakdownAsWritten | bellabeat_pdf_generation_code.py:211-214 | the record-level paragraph renders iff every bucket has a record; otherwise the KeyError names the first bucket, in report order, with no record |
| Findings.UserBreakdownAsWritten | bellabeat_pdf_generation_code.py:217-220 | the user-level paragraph renders iff every bucket has a user; otherwise the KeyError names the first bucket, in report order, with no user |
| Findings.BreakdownSectionAsWritten | bellabeat_pdf_generation_code.py:207-220 | the breakdown text, evaluated left to right: a record-level failure ends it; otherwise a user-level failure does; it renders iff every bucket has both a record and a user, and then shows the corrected record and user distributions |
| Findings.BreakdownOfLabels | bellabeat_pdf_generation_code.py:211-220 | for any label list, the four lookups succeed iff every label occurs, and then read the same percentages as the all-buckets distribution |
| Findings.RecordBreakdownAsWrittenAgrees | bellabeat_pdf_generation_code.py:211-214 | the record-level paragraph renders iff every bucket has a record, and then shows the corrected distribution |
| Findings.RecordValueCountsMatchDistribution | bellabeat_pdf_generation_code.py:66 | where the as-written series has an entry, it equals the corrected share; a label is missing iff the corrected share is 0 |
| Findings.UserBreakdownAsWrittenAgrees | bellabeat_pdf_generation_code.py:217-220 | the user-level paragraph renders iff every bucket has a user, and then shows the corrected user distribution |
| Findings.OnlySedentaryRecordsRaiseKeyError | bellabeat_pdf_generation_code.py:212 | a single 3000-step record makes the record-level lookup of Lightly Active fail |
| Findings.OnlySedentaryRecordsDistribution | bellabeat_pdf_generation_code.py:66 | corrected, that table's record distribution is 100/0/0/0 |
| Findings.OnlySedentarySectionRaisesKeyError | bellabeat_pdf_generation_code.py:212 | for that table the breakdown text ends with the record-level KeyError for Lightly Active, so the user-level lookups are never reached |
| Findings.OnlySedentaryUserRaisesKeyError | bellabeat_pdf_generation_code.py:218 | for the same table the user-level paragraph, were it reached, would fail at its Lightly Active lookup |
| Findings.OnlySedentaryUserDistribution | bellabeat_pdf_generation_code.py:70 | corrected, that table's user distribution is 100/0/0/0 |
| Scenario.ScenarioRecordDistribution | bellabeat_pdf_generation_code.py:66 | two users over two days with steps 3000, 12000, 8000 and 6000 give one record per bucket, 25% each |
| Scenario.UserAIsFairlyActive | bellabeat_pdf_generation_code.py:69 | a user averaging exactly 7500 steps is Fairly Active, since the threshold belongs to the upper bucket |
| Scenario.UserBIsLightlyActive | bellabeat_pdf_generation_code.py:69 | a user averaging 7000 steps is Lightly Active |
| Scenario.ScenarioUserLevels | bellabeat_pdf_generation_code.py:69 | the scenario's user-to-bucket mapping is exactly {A: Fairly Active, B: Lightly Active} |
| Scenario.ScenarioUserDistribution | bellabeat_pdf_generation_code.py:69-70 | the scenario's user distribution is 0/50/50/0 |
| Scenario.ScenarioMondayMean | bellabeat_pdf_generation_code.py:73-75 | the scenario's Monday entry is the mean of 3000 and 8000, that is 5500 |
| Scenario.ShapedSectionRaisesAtUsers | bellabeat_pdf_generation_code.py:211-217 | a table shaped like the scenario passes the record-level paragraph, but its user-level paragraph, and so the breakdown text, raises KeyError at 'Sedentary' |
| Scenario.ScenarioSectionRaisesAtUsers | bellabeat_pdf_generation_code.py:211-217 | the scenario's record-level paragraph renders, and its breakdown text raises KeyError at the user-level 'Sedentary' lookup |

## Left out

- Reading the CSV (`pd.read_csv`), parsing `ActivityDate` and `dt.day_name()`: each record carries its day of week directly.
- The text of `date_range` in the basic statistics: records carry no dates. Only its failure is modelled. On an empty table the earliest and latest dates are `NaT`, and formatting them raises ValueError.
- Analysis.ComputeBasicStats: `pd.to_datetime` turns an empty date cell into `NaT`. A non-empty table whose date cells are all empty would therefore also raise at line 59. The model has no dates and lets every non-empty table through.
- Columns the analysis never reads, such as distances and `LoggedActivitiesDistance`.
- The charts, the PDF pages and their hard-coded narrative figures: these are layout and prose. The one exception is the breakdown lookups, which are modelled as findings.
- Writing `bellabeat_cleaned_data.csv`: the written columns are the record's fields.
- Writing `analysis_summary.csv`: the metrics are modelled before text formatting.
- Float rounding and the `:.0f`/`:.1f` formatting: the model computes exact rationals.
- Non-finite inputs (NaN or infinite step counts): measurements are integers. pandas' NaN means are `None`, and the active percentage's NaN and infinities are cases of its quotient type.
- The order of the rows pandas returns from `groupby('Id')`: the model lists users by first appearance, which changes no count or percentage.
- The ordering of `value_counts`: the model's distributions are keyed by level, so order does not arise.
- Console progress messages and warning suppression.
- Scenario: user B's minutes and all calorie figures are arbitrary; no lemma depends on them.
- Analysis.Summarize: the most and least active day are stated as `idxmax`/`idxmin` over the seven weekly means. When every mean is undefined, pandas raises or warns instead of returning a value, and the model returns no day. That happens only for an empty table, which the script never brings this far: `analyze_data` has already raised at line 59.

## Findings

| source | as written | input that shows it | evidently intended | confidence | as-written member | corrected member |
|---|---|---|---|---|---|---|
| bellabeat_pdf_generation_code.py:69 | `analyze_data` calls `classify_activity_level`, which is defined only inside `load_and_clean_data` (line 26), so the name lookup raises NameError | any non-empty table (an empty one raises ValueError at line 59, before the lookup) | the classifier is defined at the top level of the script and applied to each user's mean steps | high; not executed | Findings.AnalyzeAsWrittenAlwaysFails | Findings.AnalyzeCorrectedSucceeds |
| bellabeat_pdf_generation_code.py:211-214 | `value_counts` (line 66) has no entry for a bucket without records, yet the record-level paragraph looks up all four labels, so a missing one raises KeyError; this is reached once the NameError above is fixed | one user with one record of 3000 steps: the lookup of 'Lightly Active' fails at line 212 | every bucket is reported, with 0% for an empty one | high; not executed | Findings.OnlySedentaryRecordsRaiseKeyError | Distribution.RecordDistribution |
| bellabeat_pdf_generation_code.py:217-220 | `value_counts` (line 70) has no entry for a bucket without users, yet the user-level paragraph looks up all four labels, so a missing one raises KeyError | the scenario's four records (3000, 12000, 8000 and 6000 steps; users averaging 7500 and 7000): the record-level paragraph renders, and the lookup of 'Sedentary' fails at line 217 | every bucket is reported, with 0% for an empty one | high; not executed | Scenario.ScenarioSectionRaisesAtUsers | Distribution.UserDistribution |
