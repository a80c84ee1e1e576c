# AI-Driven Data Cleaning System — a verified model of the data-quality pipeline

This project models, in Dafny, the data-quality core of the AI-Driven Data
Cleaning System. It works on an in-memory table: a row count and an ordered
sequence of named columns. Each column has a dtype tag (`int64`, `float64`
or `object`) and one cell per row. A cell is a null (pandas' NaN), a number
or a piece of text.

The pipeline has four parts. The first three are one Dafny module each; the fourth is two modules, `Report` and `Helpers`:

- **Profiler** (`DataProfiler`, `profiling.dfy`). It computes per-column
  missing counts and percentages, keep-first duplicate rows, dtype-narrowing
  tags, IQR outliers with linearly interpolated quartiles, and case and
  whitespace issues in text columns.
- **Suggestion engine** (`AISuggestionEngine`, `suggestions.dfy`). Fixed
  thresholds split the profiled columns into bands. Every non-empty band
  becomes one suggestion record, and the records are stably sorted by
  priority weight.
- **Cleaner** (`DataCleaner`, `cleaning.dfy`). It runs median/mode
  imputation, then keep-first de-duplication, then whitespace and case
  normalisation of text columns. Each stage is behind its own configuration
  flag and appends to an operation log. The module-level
  `detect_case_inconsistencies` is modelled here too.
- **Report** (`ReportGenerator`, `report.dfy`) and **helpers**
  (`helpers.dfy`). These hold the clamped quality score, the before/after
  report, thousands-separator formatting and the sample-size estimate.

Shared building blocks:

- `table.dfy`: the table, null counting, percentages, pandas' `duplicated()`
  and `drop_duplicates()`.
- `text.dfy`: ASCII `strip`, `\s+` collapsing, `lower`, `title`, code-point
  string order and decimal rendering.
- `stats.dfy`: sorting, quartiles and the median.
- `wrappers.dfy`: `Option` and `Result`.

Loops in the source are methods with loop invariants. Each method is proved
equal to a specification function, and the lemmas state the promised
properties about those functions.

## Model

| member | source | states |
|---|---|---|
| DataTable.NullCount | modules/data_profiling.py:60 | the null count of a column is at most its length and is 0 exactly when no cell is null |
| DataTable.TotalNullsZero | modules/data_profiling.py:72 | the table's total of missing cells is 0 exactly when no column holds a null |
| DataTable.PercentageRange | modules/data_profiling.py:61 | `count / rows * 100` for 0 < count <= rows lies in (0, 100] |
| DataTable.DuplicatesBelowExact | modules/data_profiling.py:97-103 | the duplicate indices are strictly increasing and hold exactly the rows equal to an earlier row (null equal to null) |
| DataTable.KeptBelowExact | modules/data_cleaning.py:32 | the rows `drop_duplicates` keeps are strictly increasing and are exactly the rows that repeat no earlier row |
| DataTable.KeptPlusDuplicates | modules/data_cleaning.py:31-37 | every row is either kept or a duplicate, so before - after equals the duplicate count |
| DataTable.FirstOccurrenceKept | modules/data_cleaning.py:32 | the first occurrence of every row is kept |
| DataTable.DropDuplicates | modules/data_cleaning.py:32 | de-duplication keeps the columns' names and dtypes and yields a well-formed table |
| DataTable.DropDuplicatesCorrect | modules/data_cleaning.py:30-38 | exactly the duplicate rows are removed, no two remaining rows are equal, and every original row still has a copy |
| Text.Lower | modules/data_cleaning.py:112 | `str.lower` maps character by character and leaves no upper-case letter |
| Text.LowerIdempotent | modules/data_cleaning.py:112 | lower-casing twice is lower-casing once |
| Text.NonSpaceLower | modules/data_cleaning.py:112 | lower-casing and dropping whitespace commute, so lower-casing keeps every non-whitespace character in place, case-folded |
| Text.TitleFrom | modules/data_cleaning.py:114 | `str.title` keeps the length; each character is lower-cased when a letter precedes it and upper-cased otherwise |
| Text.Title | modules/data_cleaning.py:114 | the same pointwise rule for a whole string, where the first character has no letter before it |
| Text.TitleKeepsLetters | modules/data_cleaning.py:114 | title case keeps whitespace where it was and changes only the case of letters: the lower-case form is unchanged |
| Text.LeadingSpaces | modules/data_cleaning.py:105 | the count of leading characters that are whitespace: all of them are, and the next one is not |
| Text.TrailingSpaces | modules/data_cleaning.py:105 | the count of trailing characters that are whitespace: all of them are, and the one before is not |
| Text.StripLeft | modules/data_cleaning.py:105 | the left strip is a suffix of the input, every character it drops is whitespace, and it does not start with whitespace |
| Text.StripRight | modules/data_cleaning.py:105 | the right strip is a prefix of the input, every character it drops is whitespace, and it does not end with whitespace |
| Text.Strip | modules/data_cleaning.py:105 | `str.strip()` is the slice of the input after its leading whitespace; everything before and after the slice is whitespace, and the slice neither starts nor ends with whitespace |
| Text.StripUnique | modules/data_cleaning.py:105 | any slice with whitespace only around it and none at its ends is the strip, so the strip is fully determined |
| Text.StripNonSpace | modules/data_cleaning.py:105 | stripping keeps every non-whitespace character, in order |
| Text.CollapseShape | modules/data_cleaning.py:108 | after `\s+` is replaced by one space there are no two adjacent whitespace characters, and the only whitespace left is the space |
| Text.CollapseNonSpace | modules/data_cleaning.py:108 | collapsing keeps every non-whitespace character, in order |
| Text.CollapseAppend | modules/data_cleaning.py:108 | collapsing a concatenation collapses each piece, the second starting inside a run exactly when the first ended in whitespace |
| Text.CollapseWord | modules/data_cleaning.py:108 | text without whitespace is left unchanged |
| Text.CollapseGap | modules/data_cleaning.py:108 | a non-empty whitespace run becomes a single space, or nothing inside a run already open |
| Text.CollapseSeparated | modules/data_cleaning.py:108 | two words are joined by exactly one space when any whitespace separated them, and stay joined when nothing did |
| Text.CleanWhitespace | modules/data_cleaning.py:104-108 | strip followed by collapsing gives text that is trimmed, has no whitespace run, and keeps every non-whitespace character of the input in order |
| Text.SpacesCarryOver | modules/data_cleaning.py:110-114 | a case mapping that keeps whitespace positions keeps both whitespace shapes |
| Text.StrLeTotal | modules/data_cleaning.py:79 | the code-point order pandas sorts modes by is total |
| Text.StrLeAntisymmetric | modules/data_cleaning.py:79 | that order is antisymmetric |
| Text.StrLeTransitive | modules/data_cleaning.py:79 | that order is transitive |
| Text.NatToString | utils/helpers.py:35 | `str(n)` is a non-empty digit string without a leading zero |
| Text.NatToStringValue | utils/helpers.py:35 | the decimal value of `str(n)` is `n` |
| Stats.Sort | modules/data_profiling.py:147-148 | the values are sorted before quantiles are taken, as a permutation |
| Stats.QuantileBetween | modules/data_profiling.py:147-148 | a linear-interpolation quartile lies between the two sorted values around position (n-1)*p |
| Stats.QuantileMonotone | modules/data_profiling.py:147-149 | Q1 <= median <= Q3, so the IQR is never negative |
| Stats.MedianBetweenMiddles | modules/data_cleaning.py:70 | the median lies between the two middle sorted values |
| Stats.HalfQuantileMiddle | modules/data_cleaning.py:70 | the 0.5 quantile is the mean of the values at positions (n-1)/2 and n/2 |
| Stats.MedianOfMiddles | modules/data_cleaning.py:70 | the median is the middle sorted value for an odd count and the mean of the two middle sorted values for an even count |
| Profiling.GetBasicInfo | modules/data_profiling.py:49-56 | `shape` is (row count, column count); the column count is the number of columns, the memory figure is the one measured, and every column has row-count cells |
| Profiling.AnalyzeMissingValues | modules/data_profiling.py:58-76 | the loop yields the table's total nulls, the number of columns with nulls, and the `by_column` entries |
| Profiling.MissingTotalsAgree | modules/data_profiling.py:60-74 | `total_missing` is the sum of the `by_column` counts, and `columns_with_missing` is the number of entries |
| Profiling.MissingEntriesSound | modules/data_profiling.py:63-69 | every `by_column` entry belongs to a column with nulls and holds its count and `count / rows * 100` |
| Profiling.MissingEntriesComplete | modules/data_profiling.py:64-69 | every column with a null has its entry |
| Profiling.MissingPercentageRange | modules/data_profiling.py:61-68 | a reported missing percentage lies in (0, 100] |
| Profiling.AnalyzeDuplicates | modules/data_profiling.py:95-104 | it fails with the indexing error exactly when the table has rows but no columns; otherwise the count equals the number of indices, the indices ascend, lie in range and hold exactly the rows equal to an earlier row, and the percentage is count / rows * 100 |
| Profiling.UniqueCount | modules/data_profiling.py:112 | `nunique()` is positive exactly when the column has a non-null value |
| Profiling.MinOf | modules/data_profiling.py:118 | `min()` over the non-null values is one of them and is below all of them |
| Profiling.MaxOf | modules/data_profiling.py:119 | `max()` over the non-null values is one of them and is above all of them |
| Profiling.TypeSuggestionsExact | modules/data_profiling.py:117-130 | int8 iff an int64 column's values all fit [-128, 127]; int16 iff they fit 16 bits but not 8; int32 iff a float64 column has only integral values, a null counting as non-integral; category iff an object column has fewer distinct values than half its rows; int8 and int16 never both |
| Profiling.AnalyzeDataTypes | modules/data_profiling.py:106-138 | one type entry per column, in column order, each computed from that column |
| Profiling.IqrFences | modules/data_profiling.py:147-152 | lower bound <= Q1 <= Q3 <= upper bound |
| Profiling.OutlierRowsExact | modules/data_profiling.py:154-163 | the outlier indices ascend and hold exactly the non-null cells strictly outside the bounds |
| Profiling.OutlierRowsNonEmpty | modules/data_profiling.py:154-157 | some row is listed exactly when some non-null cell lies strictly outside the bounds |
| Profiling.OutlierEntryWhen | modules/data_profiling.py:143-157 | a column is reported iff it is numeric, has a non-null value and has at least one outlier |
| Profiling.OutlierEntryContents | modules/data_profiling.py:158-164 | a reported column's count equals its index list and is positive; the percentage is count / rows * 100 and lies in (0, 100]; the bounds enclose both quartiles |
| Profiling.DetectOutliers | modules/data_profiling.py:140-166 | the loop yields one entry per reported column, in column order |
| Profiling.CaseIssuesExact | modules/data_profiling.py:182-191 | `case_issues` holds each non-null value once, and exactly those whose lower-case form is shared with a different spelling |
| Profiling.CategoricalInclusion | modules/data_profiling.py:174-202 | a text column enters the issues map exactly when it has a non-null value, because the integer `unique_values` is truthy |
| Profiling.FindCaseIssues | modules/data_profiling.py:187-191 | the scan collects exactly the case-issue list of the column |
| Profiling.DetectCategoricalIssues | modules/data_profiling.py:168-204 | the loop yields the issue entries of the text columns that pass the `any(...)` test, in column order |
| Profiling.GenerateProfile | modules/data_profiling.py:36-47 | it fails exactly when the duplicate analysis does (rows but no columns); otherwise the profile's parts are those of the individual analyses |
| Suggestions.ProfiledColumnsExist | modules/ai_suggestions.py:107-108 | every column the profiler lists under `by_column` exists in the table, so the dtype lookup never fails |
| Suggestions.SplitBands | modules/ai_suggestions.py:83-91 | the banding loop yields the high, low and medium lists |
| Suggestions.SplitLow | modules/ai_suggestions.py:107-110 | the two comprehensions yield the numeric and the remaining low-band columns |
| Suggestions.SuggestMissingValuesHandling | modules/ai_suggestions.py:70-146 | the method yields the missing-value records of the rule, with nothing when `total_missing` is 0 |
| Suggestions.InBandColumns | modules/ai_suggestions.py:83-91 | a column is in a band's list exactly when its entry's percentage falls in that band (> 40% high, < 10% low, medium otherwise, both limits included) |
| Suggestions.BandsPartition | modules/ai_suggestions.py:83-91 | the three bands together hold each `by_column` key exactly as often as `by_column` does |
| Suggestions.BandExclusive | modules/ai_suggestions.py:83-91 | with distinct keys, every key is in exactly one band, the one its percentage selects |
| Suggestions.LowSplitPartition | modules/ai_suggestions.py:106-110 | `col not in numeric_cols` selects exactly the non-numeric low-band columns; the numeric and categorical lists partition the low band and keep its order |
| Suggestions.MissingSuggestionCounts | modules/ai_suggestions.py:93-144 | when something is missing: one removal record iff the high band is non-empty, one numeric and one categorical imputation record iff each half of the low band is non-empty, one careful-imputation record iff the medium band is non-empty |
| Suggestions.MissingSuggestionKinds | modules/ai_suggestions.py:94-144 | every missing-value record is High exactly when it proposes removing columns, and Medium otherwise |
| Suggestions.DuplicatePriority | modules/ai_suggestions.py:154-155 | High iff pct > 5, Medium iff 1 < pct <= 5, Low iff pct <= 1 |
| Suggestions.SuggestDuplicateHandling | modules/ai_suggestions.py:148-167 | one record iff the count is positive; it carries the profile's count and the priority the percentage selects |
| Suggestions.OutlierSuggestions | modules/ai_suggestions.py:169-210 | at most two records; the handle record is Medium and lists exactly the high-outlier columns, the review record is Low and lists exactly the moderate ones; each record appears once exactly when its list is non-empty |
| Suggestions.SuggestOutlierHandling | modules/ai_suggestions.py:169-210 | the loop yields the outlier records of the rule |
| Suggestions.OutlierColumnsPartition | modules/ai_suggestions.py:180-187 | the handle and review lists together hold every reported column |
| Suggestions.OutlierColumnsExact | modules/ai_suggestions.py:180-187 | a column is handled iff pct/100 > 0.05, and reviewed otherwise |
| Suggestions.OutlierSuggestionPresent | modules/ai_suggestions.py:174-208 | some outlier record exists exactly when any column was reported |
| Suggestions.SuggestDataTypeOptimization | modules/ai_suggestions.py:212-233 | the loop yields the rule's records: one Low record listing the optimisable columns in profile order, or none |
| Suggestions.OptimizableColumnsExact | modules/ai_suggestions.py:217-220 | a column is listed exactly when its `suggestions` list is non-empty |
| Suggestions.CategoricalSuggestions | modules/ai_suggestions.py:235-274 | at most two records; the case record is Medium and lists exactly the columns with case variants, the whitespace record is Low and lists exactly the columns with stray whitespace; each record appears once exactly when its list is non-empty |
| Suggestions.SuggestCategoricalCleaning | modules/ai_suggestions.py:235-274 | the loop yields the categorical records of the rule |
| Suggestions.IssueColumnsExact | modules/ai_suggestions.py:246-250 | a column is in the case list iff it has case issues and in the whitespace list iff it has edge whitespace, so it can be in both |
| Suggestions.SortByPriorityCorrect | modules/ai_suggestions.py:64-66 | the sort is a permutation, orders records by non-increasing weight and keeps each priority group in rule order |
| Suggestions.OrderedIsGrouped | modules/ai_suggestions.py:64-66 | a sequence ordered by weight is its High, Medium and Low groups laid end to end |
| Suggestions.StableSortUnique | modules/ai_suggestions.py:64-66 | any arrangement ordered by weight that keeps each group's order equals the sort, so the sort is the stable one |
| Suggestions.GenerateSuggestions | modules/ai_suggestions.py:45-68 | the result is the five rules' records, in rule order, stably sorted by priority |
| Cleaning.RenderReadsBack | modules/data_cleaning.py:36-37 | every log line starts with its kind ("Filled ", "Removed ", "Standardized "), then the count in decimal and a space, so the count can be read back from the line |
| Cleaning.Mode | modules/data_cleaning.py:79 | `mode()[0]` is a value of the column that no other value outnumbers, and the smallest among those equally frequent |
| Cleaning.ModeAmong | modules/data_cleaning.py:79 | the chosen candidate beats every candidate on (count, then code-point order) |
| Cleaning.FillNulls | modules/data_cleaning.py:71-80 | `fillna(v)` replaces every null by `v` and leaves every other cell alone |
| Cleaning.MissingStageErrPrefix | modules/data_cleaning.py:63-84 | once a column raises, the whole stage fails with that column's error |
| Cleaning.FillColumn | modules/data_cleaning.py:64-84 | one turn of the loop equals the column's specified imputation |
| Cleaning.HandleMissing | modules/data_cleaning.py:60-86 | the loop equals the specified stage, stopping at the first failing column |
| Cleaning.ColumnUntouched | modules/data_cleaning.py:64-66 | a column with no nulls is left as it is and logs nothing |
| Cleaning.MedianFill | modules/data_cleaning.py:69-75 | a numeric column with k nulls and some numbers gets every null replaced by the median, which lies between the middle values; nothing else changes; it logs "Filled k ... with median" |
| Cleaning.AllNullNumericLogged | modules/data_cleaning.py:69-75 | an all-null numeric column keeps its nulls (the median is NaN) but is still logged as filled |
| Cleaning.ModeFill | modules/data_cleaning.py:78-84 | a text column with nulls raises exactly when it has no text; otherwise its nulls become the smallest most frequent value and it logs "Filled k ... with mode" |
| Cleaning.HandleColumnValid | modules/data_cleaning.py:71-80 | imputation keeps a column's name, dtype, length and cell kinds |
| Cleaning.HandleColumnNoNulls | modules/data_cleaning.py:69-84 | after imputation a column keeps nulls only if it is numeric without any number |
| Cleaning.HandleColumnFails | modules/data_cleaning.py:78-79 | a column raises exactly when it is a text column with nulls and no text |
| Cleaning.MissingStageFails | modules/data_cleaning.py:60-86 | the stage fails exactly when some text column has nulls and no text |
| Cleaning.MissingStageColumns | modules/data_cleaning.py:63-84 | otherwise every column is replaced by its imputed version, in order |
| Cleaning.MissingStageValid | modules/data_cleaning.py:60-86 | the imputed table is well formed and keeps every column's name and dtype |
| Cleaning.StdCells | modules/data_cleaning.py:102-117 | standardising a column keeps its length and holds no numbers |
| Cleaning.StandardizeText | modules/data_cleaning.py:91-127 | the loop equals the specified stage: object columns standardised, others untouched, one log line per column that changed |
| Cleaning.NormalizeShape | modules/data_cleaning.py:104-114 | normalised text is trimmed, has no whitespace run, and its non-whitespace characters are the input's up to case; under "lower" they are exactly the input's lower-cased and no upper-case letter is left; under a case other than "lower" or "title" the text is only stripped and collapsed and keeps its characters exactly |
| Cleaning.StdCellShape | modules/data_cleaning.py:102-117 | every text a standardised cell holds has that shape |
| Cleaning.NullBecomesNanUnderTitle | modules/data_cleaning.py:102-117 | under "title" a null comes back as the text "Nan" |
| Cleaning.NanTextBecomesNullUnderLower | modules/data_cleaning.py:105-117 | under "lower" the genuine text " NaN " becomes a null |
| Cleaning.NullsCountAsChanged | modules/data_cleaning.py:120 | the change count is at least the number of nulls, because NaN never equals anything |
| Cleaning.NullColumnLogged | modules/data_cleaning.py:120-125 | a text column holding a null always logs a "Standardized" line |
| Cleaning.StdColumnValid | modules/data_cleaning.py:96-117 | standardisation keeps every column's name, dtype and length and leaves non-object columns unchanged |
| Cleaning.TextStageColumns | modules/data_cleaning.py:98-117 | the stage rewrites every column through its one-column step, in order |
| Cleaning.TextStageValid | modules/data_cleaning.py:98-117 | the standardised table is well formed |
| Cleaning.DedupStage | modules/data_cleaning.py:30-38 | the de-duplicated table is well formed |
| Cleaning.DedupLogged | modules/data_cleaning.py:30-38 | no two remaining rows are equal, every row keeps a copy, and "Removed n duplicate rows" is logged exactly when n = duplicate count > 0 |
| Cleaning.AfterMissing | modules/data_cleaning.py:23-25 | stage 1 runs only when its flag is set and leaves a well-formed table with the same rows |
| Cleaning.AfterDedup | modules/data_cleaning.py:30-38 | stage 2 runs only when its flag is set and leaves a well-formed table |
| Cleaning.AfterText | modules/data_cleaning.py:43-49 | stage 3 runs only when its flag is set and leaves a well-formed table |
| Cleaning.CleanSpec | modules/data_cleaning.py:11-54 | missing, then duplicates, then text; any result is a well-formed table |
| Cleaning.MissingBlock | modules/data_cleaning.py:23-25 | the imputation block equals stage 1, including its error |
| Cleaning.DuplicatesBlock | modules/data_cleaning.py:30-38 | the de-duplication block equals stage 2: before - after rows dropped, logged only when non-zero |
| Cleaning.TextBlock | modules/data_cleaning.py:43-49 | the text block equals stage 3, appending the stage's log lines |
| Cleaning.CleanData | modules/data_cleaning.py:11-54 | the three flag-guarded stages run in that order: the method's result equals the staged specification, success or error |
| Cleaning.CleanDefaults | modules/data_cleaning.py:23-44 | with every flag absent nothing runs and nothing is logged; an absent `text_case` means "lower" |
| Cleaning.CleanFailsOnlyOnEmptyMode | modules/data_cleaning.py:11-54 | cleaning fails exactly when imputation is on and some text column has nulls and no text |
| Cleaning.Uniques | modules/data_cleaning.py:134 | `dropna().unique()` holds each non-null text once, and only those |
| Cleaning.GroupMembers | modules/data_cleaning.py:138-145 | a `lower_map` group holds exactly the spellings that lower-case to its key |
| Cleaning.KeysExact | modules/data_cleaning.py:138-145 | the `lower_map` keys are exactly the lower-case forms, each once |
| Cleaning.BuildLowerMap | modules/data_cleaning.py:136-145 | the loop builds a map whose keys come in insertion order and whose groups are those above |
| Cleaning.ColumnInconsistency | modules/data_cleaning.py:134-150 | one column's result is its last inconsistent group |
| Cleaning.DetectCaseInconsistencies | modules/data_cleaning.py:128-152 | the issues are, per object column in order, its last inconsistent group |
| Cleaning.LastInconsistentNone | modules/data_cleaning.py:148-150 | a column is left out exactly when no lower-case key has two spellings |
| Cleaning.LastInconsistentWins | modules/data_cleaning.py:148-150 | a reported group is all spellings of one key, has at least two, and no later key has two: earlier groups are overwritten |
| Report.Clamp | modules/report_generator.py:74 | `max(0, min(100, x))` lies in [0, 100] and is `x` when `x` already does |
| Report.DuplicateCountBound | modules/report_generator.py:68 | there are never more duplicate rows than rows |
| Report.QualityScore | modules/report_generator.py:61-74 | the score lies in [0, 100], and an empty table scores 0 |
| Report.QualityScorePerfect | modules/report_generator.py:66-74 | a non-empty table scores 100 exactly when it has no null and no duplicate row |
| Report.QualityScoreWithoutNulls | modules/report_generator.py:66-74 | without nulls, duplicates cost at most 10 points |
| Report.ReductionRange | modules/report_generator.py:30-35 | the reduction percentage is at most 100, is 0 when the original size is 0, and is negative exactly when the table grew |
| Report.GenerateReport | modules/report_generator.py:12-59 | the shapes are reported, rows and columns removed are the unclamped differences, improvement = final score - original score and lies in [-100, 100]; both sizes are in MiB, the reduction is (original - final) / original * 100 when the original size is positive and 0 otherwise, and never above 100%; each counter is its key's value when present and 0 otherwise; the operations are `operations_performed` if present, else `operations` if present, else empty |
| Report.ReportOfCleanerLog | modules/report_generator.py:16-22 | fed the cleaner's report, which holds only "operations", the report lists those operations and every counter is 0; fed a report with none of the keys it reads (the application passes only "rows_removed"), it lists no operation and every counter is 0 |
| Helpers.FormatNumberRoundTrip | utils/helpers.py:33-35 | deleting the commas from `format_number(n)` gives `str(n)`, which is an optional minus sign followed by digits whose decimal value is the magnitude of `n` |
| Helpers.Group3RoundTrip | utils/helpers.py:35 | deleting the commas from a grouped digit string gives the digits back |
| Helpers.Group3Shape | utils/helpers.py:35 | a comma sits exactly every fourth place from the right, all else is digits, and the leading group has one to three digits |
| Helpers.FormatNumberShape | utils/helpers.py:33-35 | `format_number(n)` is an optional minus sign followed by such a grouped string |
| Helpers.GetDataQualityScore | utils/helpers.py:37-51 | the score lies in [0, 100], is 0 for an empty table and agrees with the report generator's score |
| Helpers.SampleSizeFits | utils/helpers.py:78-84 | all rows are suggested when rows * cols * 8 bytes fit the target |
| Helpers.SampleSizeShrinks | utils/helpers.py:85-87 | otherwise, for a target that is not negative, the suggestion is the largest row count below `rows` whose estimate fits |

## Left out

- `_find_missing_patterns` (modules/data_profiling.py:78-93) and `_detect_correlation_issues` (206-226) are not modelled. Both rest on pandas' Pearson `corr()`, which needs floating-point square roots.
- Memory measurement (`memory_usage(deep=True)`) and the `datetime.now()` timestamp are parameters: `GenerateProfile` takes the memory size, and `GenerateReport` takes both byte counts and the timestamp string.
- Numbers are exact reals. Float rounding in percentages, quantiles, the median, the score and `int(...)` in `suggest_sample_size` is not modelled.
- Case mapping and whitespace are ASCII only. Python's Unicode `lower`, `title`, `strip` and `\s` are not modelled beyond ASCII and the separators `\x1c`-`\x1f`.
- An `object` column holds only text and nulls. Mixed-type object columns, where `astype(str)` renders numbers, are not modelled. None and NaN are both the single null. This hides one difference: `astype(str)` in `_standardize_text` renders a Python `None` as "None", while the model renders the null as "nan". The difference does not arise for tables from `read_csv` and `read_excel`, which produce NaN and never `None`.
- The dtype tag is taken as given. pandas' dtype inference is not modelled, and neither is `astype('category')` or any other conversion the type suggestions propose.
- Profiling.AnalyzeDuplicates: on a table with no rows the source divides 0 by 0 and reports a NaN percentage. The model reports 0.0.
- Profiling.AnalyzeDuplicates and Profiling.OutlierEntryContents: `duplicate_indices` (modules/data_profiling.py:103) and `outlier_indices` (modules/data_profiling.py:163) are pandas index labels from `.index.tolist()`. The model returns row positions. The two agree for the default RangeIndex that `read_csv` and `read_excel` produce (main.py:78-80). A frame with another index is not modelled.
- Profiling.FindCaseIssues: like `CaseIssuesExact`, it lists the case variants in order of first appearance, not in `value_counts()` order.
- Profiling.CaseIssuesExact: the source lists the case variants in `value_counts()` order, by descending frequency. The model lists them in order of first appearance, with the same set of values.
- Profiling.DetectCategoricalIssues: `whitespace_issues` is a bool here, standing for `['whitespace_found']` or `[]`. `encoding_issues`, which is always empty, is dropped.
- Suggestions.GenerateSuggestions: priority "unknown" (weight 0) cannot occur, because every rule emits High, Medium or Low. The free-text `description` of each record is not modelled, since it embeds Python list and float formatting. Title and recommendation follow from the action.
- Suggestions.GenerateSuggestions: Python's in-place list sort is modelled as a function on sequences. Its contract (stable, by non-increasing weight) is proved; the sorting algorithm itself is not.
- Suggestions.SuggestMissingValuesHandling: the source looks up `data[col]` and raises KeyError when the column is missing. The model requires every `by_column` key to name a column, which `ProfiledColumnsExist` proves for profiler output.
- Cleaning.CleanData: the source fills in place on its own copy (`data.copy()`, `fillna(inplace=True)`). Dafny values are immutable, so the copy and the in-place updates are implicit. The caller's table cannot change.
- Cleaning.HandleMissing: the source fills with `data[col].fillna(..., inplace=True)`, which reaches the copy only while pandas does not use copy-on-write (before pandas 3.0). The model takes that behaviour: the filled column replaces the old one. Under copy-on-write the fill would be lost and only the log line written.
- Cleaning.CleanData: a configuration value that is present but not a bool is not modelled, and neither is a `text_case` of `None`. Flags are `Option<bool>`, and absent means disabled.
- Cleaning.ModeFill: an all-null text column with nulls makes `mode()[0]` raise `KeyError: 0`, a label lookup on an empty series. The model returns `Err(EmptyMode(column))` and stops the pipeline, as the exception would. Skipping such columns would be a reasonable alternative; the code raises, and the model follows the code.
- The log lines are modelled as constructors with their exact wording in `Render`. The report stores the rendered strings.
- Helpers.SuggestSampleSize: the default `target_mb=100` is not a separate member; callers pass the target. A negative target with zero columns divides by zero and is modelled as `Err(DivisionByZero)`.
- The shadowed first definitions in `ai_suggestions.py`, `data_profiling.py` and `utils/helpers.py` are dead code and are not modelled. So are `detect_file_encoding`, `safe_convert_numeric` and `get_memory_usage`, which wrap libraries or I/O.
- The Streamlit UI, the voice service and the instruction parser are not part of this model. They are presentation, foreign model calls and network calls.
