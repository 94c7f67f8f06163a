# Survey ETL of quarterly Peruvian labour-market extracts, modelled in Dafny

The repository turns quarterly extracts of a Peruvian household labour
survey into one labelled, sanitised and weighted table. It splits that
table into the workforce (age 14 and over) and the under-14 population,
and aggregates it with the survey's expansion weights. A second set of
scripts under `lima/` does the same for Lima Metropolitana only: filter,
clean, harmonise, verify, analyse and feed a dashboard. This project models the
rules of those scripts as values and proves what they promise.

A pandas DataFrame is a `Frame.Table`: an ordered list of labels and a
list of rows. Each row maps a label to a `Cell`: `Missing` (NaN),
`NotApplicable` ("No Aplica"), `Num(real)` or `Text(string)`. A label a
row lacks reads as NaN. Weights and incomes are exact reals, not IEEE
doubles. A directory is either a listing of entries (name, readable
content or not) or a `LimaFiles.Folder` mapping names to contents. An
uncaught KeyError, ValueError or FileNotFoundError is a `Failure` of a
`Result`.

Where a script changes things step by step, the model has a method with
a loop, proved against a function that specifies it. Examples are the
append-and-concat loop (`Load.LoadLoop`), the fill loop over
`cols_to_fill` (`Frame.FillMasked`), the per-file loops of the Lima
scripts, and `clean_special_codes` mutating its argument
(`DashboardPrep.DataFrame`, a class with the frame's fields). Pure helpers
are functions with lemmas beside them.

Modules, one per script or shared concern:

- `Strings`: startswith, endswith, replace, whitespace, float(), int() and truncation, sorted().
- `Periods`: the six-entry quarter table and the `Trim <months><yy>` parser.
- `Codebook`: the recode tables of `get_recode_maps` and the dashboard's education maps.
- `Frame`: the DataFrame operations the scripts call.
- `Aggregate`: sums, np.average, group shares.
- `Features`: age bands and the informality flag.
- `Sanitize`: sentinel replacement and coercion, in both orders.
- `Factors`: the `fa_` weight combination.
- `Load`: the loading loop.
- `Segregation`: the age split and the two sub-populations.
- `MainPipeline`: `01_scripts/main_pipeline.py`.
- `ProcessData`: `process_data.py`.
- `DashboardPrep`: `05_dashboard/data_prep.py`.
- `LimaFiles`: the Lima folders and their shared loader.
- `LimaFilter`: `lima/filter_script.py` and `lima/verify_filter.py`.
- `LimaCleaning`: `lima/data_cleaning_script.py`.
- `Harmonize`: `lima/harmonize_columns.py`.
- `Consistency`: `lima/verify_consistency.py`.
- `LimaAnalysis`: steps the analysis scripts share.
- `Eda`: `lima/eda_script.py`.
- `FinalReport`: `lima/generate_final_report.py`.
- `FeatureSelection`: `lima/feature_selection.py`.
- `Modeling`: `lima/modeling_script.py`.
- `DashboardApp`: `lima/06_dashboard/dashboard_app.py`.
- `CsvToJson`: `csv_to_json.py`.

The scripts have several variants of the same step, and the model keeps
each one separate:

- An unknown file name is skipped by the main pipeline and the dashboard loader, and raises in `process_data.py`.
- Two rules pick the "No Aplica" columns: by prefix, or by question number 308 and above.
- `process_data.py` drops rows without an age before the split. The main pipeline leaves them out of both halves.

`01_scripts/main_pipeline.py:102-109` replaces sentinels before coercing.
`main()` is modelled with that order (`MainPipeline.Pipeline`,
`MainPipeline.RunPipeline`). The model proves what goes wrong with it
(see "## Findings"), and models the same run with the corrected order
beside it (`MainPipeline.PipelineCorrected`, built on
`MainPipeline.CleanSpecialCodesCorrected`). `05_dashboard/data_prep.py:53-60`
uses the same order and is modelled as written
(`DashboardPrep.PrepTextAgeSurvives`).

Two consequences of the code are worth stating:

- The two age masks of `01_scripts/main_pipeline.py:137-138` do not cover every row. A row without a numeric age is in neither partition (`Segregation.AgeSplit`).
- Because of the order at `01_scripts/main_pipeline.py:102-109`, cleaning twice differs from cleaning once. Only the coerce-then-replace order is idempotent (see "## Findings").

## Model

| member | source | states |
|---|---|---|
| Strings.NatToStringRoundTrip | csv_to_json.py:19 | reading back the decimal digits written for n gives n |
| Strings.IndexOf | process_data.py:93 | the index found holds the character and none comes before it; no index means the character is absent |
| Strings.ParseReal | csv_to_json.py:18 | float() raises on the empty string, and reads a string of digits as its value |
| Strings.ParseRealOfNat | csv_to_json.py:18 | float() reads the digits of n, with or without a leading minus, as n or -n |
| Strings.ParseInt | csv_to_json.py:19 | int() succeeds only on a non-empty string, and reads a string of digits as its value |
| Strings.Trunc | csv_to_json.py:22 | int() of a float truncates toward zero: the result lies within one of x, on the side of zero |
| Strings.ReplaceAllAbsent | lima/harmonize_columns.py:27 | replacing a pattern that does not occur leaves the string unchanged |
| Strings.ReplaceLeadingPrefix | lima/harmonize_columns.py:27 | replacing a pattern that occurs only at the front replaces that occurrence alone |
| Strings.LexLeTotal | lima/eda_script.py:58 | any two names are ordered one way or the other |
| Strings.LexLeTrans | lima/eda_script.py:58 | the order of names is transitive |
| Strings.LexLeAntisym | lima/eda_script.py:58 | two names ordered both ways are equal |
| Strings.Insert | lima/eda_script.py:58 | inserting into a sorted list keeps it sorted and adds exactly that name |
| Strings.Sort | lima/eda_script.py:58 | sorted() returns a sorted permutation of the names |
| Strings.Dedup | lima/verify_consistency.py:92 | removing repeats keeps exactly the same values, each once |
| Strings.FirstIndex | lima/generate_final_report.py:89 | the first position holding a value: it holds the value and no earlier position does |
| Strings.FirstIndexPrefix | lima/generate_final_report.py:89 | appending items leaves every first position where it was |
| Strings.DedupInOrder | lima/generate_final_report.py:89 | removing repeats lists the values in the order of their first occurrences |
| Strings.DistinctCounts | lima/verify_consistency.py:92 | a list without repeats holds each value once |
| Strings.CountsDistinct | lima/verify_consistency.py:92 | a list holding each value once has no repeats |
| Strings.SortedKeys | lima/verify_consistency.py:92 | sorted(set(...)) is sorted, without repeats, and has exactly the values of the list |
| Periods.QuarterOfMonths | lima/eda_script.py:41-49 | a month group of the map gets its quarter, any other group Q_Unk |
| Periods.RunEnd | lima/eda_script.py:38 | the run of [A-Za-z-] characters starting at i ends at the first character outside the class |
| Periods.MatchAt | lima/eda_script.py:38 | a match at i means "Trim " occurs at i, followed by a non-empty month run and two digits |
| Periods.SearchFrom | lima/eda_script.py:38 | search finds nothing exactly when no position matches, and otherwise returns a match at some position |
| Periods.SearchSkipsPrefix | lima/eda_script.py:38 | a prefix without a T cannot hold a match, so the search starts after it |
| Periods.PeriodLabelOfName | lima/eda_script.py:35-51 | a name of the form prefix, Trim, months, two digits yy and a rest is labelled 20yy followed by the quarter of the months |
| Periods.MatchAtName | lima/eda_script.py:38 | the pattern matches at i when "Trim ", a month run and two digits follow, and captures those two groups |
| Periods.QuarterTableAgrees | 01_scripts/main_pipeline.py:54-58 | every file of the fixed quarters table, with or without the lima prefix, gets the same period from the regex parser as from the table |
| Periods.QuarterEntries | 01_scripts/main_pipeline.py:54-58 | the table has exactly the six quarterly file names, with their periods |
| Periods.EntryEneFebMar24 | 01_scripts/main_pipeline.py:54-58 | a prefixed Trim Ene-Feb-Mar24.csv parses to 2024-Q1 |
| Periods.EntryAbrMayJun24 | 01_scripts/main_pipeline.py:54-58 | a prefixed Trim Abr-May-Jun24.csv parses to 2024-Q2 |
| Periods.EntryJulAgoSet24 | 01_scripts/main_pipeline.py:54-58 | a prefixed Trim Jul-Ago-Set24.csv parses to 2024-Q3 |
| Periods.EntrySetOctNov24 | 01_scripts/main_pipeline.py:54-58 | a prefixed Trim Set-Oct-Nov24.csv parses to 2024-Q4 |
| Periods.EntryEneFebMar25 | 01_scripts/main_pipeline.py:54-58 | a prefixed Trim Ene-Feb-Mar25.csv parses to 2025-Q1 |
| Periods.EntryMarAbrMay25 | 01_scripts/main_pipeline.py:54-58 | a prefixed Trim Mar-Abr-May25.csv parses to 2025-Q2, the same quarter as Abr-May-Jun |
| Periods.TableEntry | lima/eda_script.py:35-51 | a name Trim plus a mapped month group plus yy plus .csv parses to 20yy and the group's quarter |
| Periods.UnknownIffNoMatch | lima/eda_script.py:38-51 | the name is labelled Periodo_Desconocido exactly when the pattern matches nowhere |
| Periods.NoTrimIsUnknown | lima/eda_script.py:38-51 | a name without "Trim " is labelled Periodo_Desconocido |
| Codebook.RecodeBy | 01_scripts/main_pipeline.py:141-144 | a column with a table is mapped through it, and any other column is unchanged |
| Codebook.ActivityOcupado | 01_scripts/main_pipeline.py:28 | the activity table labels a code 'Ocupado' exactly when the code is 1 |
| Codebook.EducationRoundTrip | lima/06_dashboard/dashboard_app.py:19-24 | the dashboard's label-to-code map and the short code-to-label table are inverse for the codes 1 to 12 |
| Codebook.DashboardActivityManyToOne | lima/06_dashboard/dashboard_app.py:53 | codes 2 and 3 share the label Desocupado, and only code 1 is labelled Ocupado |
| Features.BandIndex | 01_scripts/main_pipeline.py:155-157 | an age below 14 has no bin; otherwise the bin's left edge is at most the age and the next edge is above it |
| Features.AgeBand | 01_scripts/main_pipeline.py:155-157 | pd.cut gives a label exactly to ages of 14 or more, namely the label of the half-open bin holding the age, and NaN otherwise |
| Features.EdgeOpensItsBin | 01_scripts/main_pipeline.py:155-157 | each left edge falls in its own bin, because the bins are closed on the left |
| Features.BandMonotone | 01_scripts/main_pipeline.py:155-157 | an older age never falls in an earlier band |
| Features.Flag | 01_scripts/main_pipeline.py:158-160 | the flag is the number 1 exactly when the condition holds, and 0 otherwise |
| Features.InformalRulesAgree | lima/06_dashboard/dashboard_app.py:54 | with a table that maps exactly code 1 to 'Ocupado', the label rule on the recoded row equals the code rule on the original row |
| Frame.Column | lima/eda_script.py:105 | a column holds, row by row, the row's cell under that label |
| Frame.Fill | 01_scripts/main_pipeline.py:158 | a constant column holds the same value in every row |
| Frame.Without | 01_scripts/main_pipeline.py:74 | dropping labels keeps exactly the other labels in order, without repeats when there were none |
| Frame.WithLabel | 01_scripts/main_pipeline.py:156 | assigning a column adds its label when it is new and keeps every other label |
| Frame.Position | 01_scripts/main_pipeline.py:164 | list.index finds the first position of the label, and raises exactly when the label is absent |
| Frame.WithColumn | 01_scripts/main_pipeline.py:156 | assigning a column sets that cell in every row and changes nothing else |
| Frame.MapColumn | process_data.py:65 | mapping a present column rewrites that cell of every row; an absent column leaves the frame unchanged |
| Frame.DropColumns | 01_scripts/main_pipeline.py:74 | dropping removes the labels and their cells from every row, and keeps every other cell |
| Frame.FirstAbsent | lima/modeling_script.py:57-60 | nothing is absent exactly when every wanted label is present; otherwise a wanted label that is absent |
| Frame.Project | lima/modeling_script.py:57-60 | selecting columns raises a KeyError exactly when some label is absent, naming one; otherwise the frame has exactly those labels and the same rows |
| Frame.RenameColumn | 05_dashboard/data_prep.py:73-79 | renaming replaces the label in place, moves its cells to the new label and keeps every other cell |
| Frame.RenamedLabels | 05_dashboard/data_prep.py:73-79 | replacing one label by another in place keeps the presence of every third label |
| Frame.RenamedAway | 05_dashboard/data_prep.py:73-79 | after a rename to another label the old label reads as NaN |
| Frame.RenameStep | 05_dashboard/data_prep.py:73-79 | one rename moves the renamed cell to the new label, keeps a third label present exactly when it was, and leaves every other cell |
| Frame.RenameAll | 05_dashboard/data_prep.py:73-79 | a dict rename, applied entry by entry with absent labels skipped, keeps the row count |
| Frame.RenameAllOther | 05_dashboard/data_prep.py:73-79 | a label outside the rename dict is present exactly when it was and keeps its cell in every row |
| Frame.RenameAllTarget | 05_dashboard/data_prep.py:73-79 | for a dict whose old and new labels are separate, each new label is present when its old label was and holds the old label's cell, or its own cell when the old label was absent |
| Frame.Filter | 01_scripts/main_pipeline.py:137 | a boolean mask keeps exactly the rows that satisfy it, in order |
| Frame.FilterRows | 01_scripts/main_pipeline.py:137 | filtering rows keeps the labels |
| Frame.FilterAppend | 01_scripts/main_pipeline.py:137 | filtering a concatenation is concatenating the filtered parts |
| Frame.FilterAll | 01_scripts/main_pipeline.py:137 | a mask true on every row keeps them all |
| Frame.FilterPartition | 01_scripts/main_pipeline.py:137-138 | two disjoint masks and the rows matching neither account for every row |
| Frame.FilterFilter | process_data.py:76-77 | filtering twice is filtering once by both conditions |
| Frame.FilterExt | process_data.py:76-77 | masks that agree on the rows keep the same rows |
| Frame.FilterAlignedCount | 05_dashboard/data_prep.py:87 | masks that agree row by row on two aligned lists keep as many rows |
| Frame.FilterAlignedAt | 05_dashboard/data_prep.py:87 | under masks that agree row by row on two aligned lists, the k-th kept row of each comes from the same position |
| Frame.Union | 01_scripts/main_pipeline.py:65 | the union of two label lists starts with the first, holds exactly the labels of both, and has no repeats when they had none |
| Frame.Widen | 01_scripts/main_pipeline.py:65 | a row widened to the union of labels reads NaN under every label it lacked |
| Frame.AllColumns | 01_scripts/main_pipeline.py:65 | the concatenated labels are exactly the labels of the parts |
| Frame.AllRows | 01_scripts/main_pipeline.py:65 | the concatenated rows are as many as the rows of the parts |
| Frame.RowsBeforePrefix | 01_scripts/main_pipeline.py:65 | the offset of a part does not depend on the parts after it |
| Frame.RowsBeforeMono | 01_scripts/main_pipeline.py:65 | offsets grow with the part index |
| Frame.RowsBeforeSame | 01_scripts/main_pipeline.py:65 | lists of parts with the same row counts have the same offsets |
| Frame.AllRowsAt | 01_scripts/main_pipeline.py:65 | row k of part i sits at the part's offset plus k |
| Frame.ConcatAll | 01_scripts/main_pipeline.py:65 | pd.concat with ignore_index has the union of labels, the sum of the row counts, and each part's rows widened in order |
| Frame.ConcatAllAt | 01_scripts/main_pipeline.py:65 | every cell of row k of part i is found at the part's offset plus k |
| Frame.ConcatAllCell | 01_scripts/main_pipeline.py:65 | one cell of row k of part i is found at the part's offset plus k |
| Frame.NormalizedConcatAt | 01_scripts/main_pipeline.py:65-66 | after the concat and the blank replacement, the cell is the part's cell with blank text made NaN |
| Frame.NormalizedConcatRow | 01_scripts/main_pipeline.py:65-66 | the same for every cell of the row |
| Frame.NormalizedConcatRowCount | 01_scripts/main_pipeline.py:65-66 | after the concat and the blank replacement the frame has as many rows as the parts, read off any parts with the same row counts |
| Frame.BlankToMissing | 01_scripts/main_pipeline.py:66 | a cell becomes NaN exactly when it was NaN or text made only of whitespace, and is unchanged otherwise |
| Frame.NormalizeBlanks | 01_scripts/main_pipeline.py:66 | the replacement keeps labels, rows and keys, and applies the blank rule to every cell |
| Frame.ToNumeric | 01_scripts/main_pipeline.py:107-109 | coercion gives a number or NaN; numbers and NaN are unchanged; text becomes a number exactly when it parses; No Aplica becomes NaN |
| Frame.ReplaceCodes | 01_scripts/main_pipeline.py:103-104 | a cell becomes NaN exactly when it was NaN or a number among the codes, and is unchanged otherwise |
| Frame.Recode | 01_scripts/main_pipeline.py:141-144 | Series.map gives a label exactly to integral numbers whose code is in the table, namely that code's label, and NaN otherwise |
| Frame.Present | 01_scripts/main_pipeline.py:103 | the columns a loop touches are those of its list that the frame has |
| Frame.ColumnsMapped | 01_scripts/main_pipeline.py:103-104 | a cellwise loop over present columns rewrites exactly their cells and keeps the labels and row count |
| Frame.MappedRowStep | 01_scripts/main_pipeline.py:103-104 | one more column of the loop rewrites one more cell of the row |
| Frame.ColumnsMappedNone | 01_scripts/main_pipeline.py:103-104 | a loop over no columns changes nothing |
| Frame.ColumnsMappedOne | 01_scripts/main_pipeline.py:103-104 | one more iteration is the loop over one more column |
| Frame.ColumnsMappedTwice | 01_scripts/main_pipeline.py:103-109 | two loops over the same columns are one loop with the composed rule |
| Frame.MapColumns | 01_scripts/main_pipeline.py:103-104 | the loop, one column at a time, computes ColumnsMapped |
| Frame.LabelSet | 01_scripts/main_pipeline.py:107-109 | the set of a label list holds exactly its labels |
| Frame.MaskFilled | 01_scripts/main_pipeline.py:150-152 | the fill loop keeps the labels and the row count, and a well-formed frame stays well formed |
| Frame.MaskFilledCells | 01_scripts/main_pipeline.py:150-152 | each present listed column reads the value on the masked rows, and every other cell is unchanged |
| Frame.FilledRowStep | 01_scripts/main_pipeline.py:150-152 | one more column of the fill loop fills one more cell of the row |
| Frame.FillPrefixIsMaskFilled | 01_scripts/main_pipeline.py:150-152 | filling the first i listed columns one after another, skipping absent ones, is MaskFilled over those i columns |
| Frame.FillMasked | 01_scripts/main_pipeline.py:150-152 | the fill loop, one column at a time, computes MaskFilled |
| Frame.SelectNames | 01_scripts/main_pipeline.py:53 | a list comprehension keeps exactly the names that pass, in order and without new repeats |
| Frame.SelectNamesHead | 01_scripts/main_pipeline.py:53 | the first selected name is the first listed name that passes |
| Frame.SelectNamesLast | 01_scripts/main_pipeline.py:53 | the selection of a list is that of all but its last name, then the last name if it passes |
| Frame.SelectFiles | 01_scripts/main_pipeline.py:53 | the kept entries are exactly those whose names pass |
| Aggregate.SumOverAppend | lima/eda_script.py:99 | a sum over two concatenated row lists is the sum of the two sums |
| Aggregate.SumOverAdd | lima/eda_script.py:99 | summing a pointwise sum of two summands is adding their sums |
| Aggregate.SumOverMono | lima/eda_script.py:99 | a pointwise smaller summand has a smaller sum |
| Aggregate.SumOverFilter | lima/eda_script.py:17 | summing over the rows a filter keeps is summing a summand that is zero on the dropped rows |
| Aggregate.SumOverZero | lima/eda_script.py:99 | a summand that is zero everywhere sums to zero |
| Aggregate.SumOverExt | lima/eda_script.py:99 | summands that agree on every row have the same sum |
| Aggregate.Average | lima/eda_script.py:20 | np.average fails exactly when the weights sum to zero; otherwise the mean times the total weight is the weighted sum of the values |
| Aggregate.ScaledBounds | lima/eda_script.py:20 | with non-negative weights and values between lo and hi, the weighted sum lies between lo and hi times the total weight |
| Aggregate.WeightsNonNeg | lima/eda_script.py:20 | non-negative weights have a non-negative total |
| Aggregate.AverageBounds | lima/eda_script.py:20 | a weighted mean with non-negative weights lies between any lower and upper bound of the values |
| Aggregate.Kept | lima/eda_script.py:17 | dropna on the value and weight columns keeps exactly the rows where both are numbers |
| Aggregate.PairsOf | lima/eda_script.py:20 | one (value, weight) pair per kept row, in row order |
| Aggregate.EdaAverage | lima/eda_script.py:15-20 | NaN when no row has both a value and a weight; a zero-weight error when the kept weights sum to zero; otherwise the weighted mean of the kept rows |
| Aggregate.AllKeptAverage | lima/eda_script.py:15-20 | when every row has a numeric value and weight and the weights do not sum to zero, the mean is the weighted sum over the total weight of all rows |
| Aggregate.DashboardAverage | lima/06_dashboard/dashboard_app.py:97-104 | 0 when no row has both cells; otherwise np.average of the kept rows, with its zero-weight error |
| Aggregate.ReportAverage | lima/generate_final_report.py:33-34 | np.average of nothing raises; a value whose weight is NaN makes the mean NaN; otherwise it is the weighted mean of the kept rows |
| Aggregate.KeptWhenWeighted | lima/generate_final_report.py:34 | when every row with a value has a weight, dropping NaN values alone keeps the same rows as dropping NaN values and weights |
| Aggregate.ReportMatchesEda | lima/generate_final_report.py:33-34 | the report's and the EDA's weighted means agree when every row with a value has a weight and some row has both |
| Aggregate.EdaAverageExample | lima/eda_script.py:15-20 | any three rows whose values are 10, 20, 30 and weights 1, 1, 2 average 22.5 |
| Aggregate.KeptAverageBounds | lima/06_dashboard/dashboard_app.py:103-104 | a weighted mean over the kept rows lies within any bounds of the kept values, so a 0/1 flag's mean times 100 is a percentage |
| Aggregate.Labels | lima/eda_script.py:99 | the text labels of the key column: a label is listed exactly when some row carries it |
| Aggregate.GroupKeys | lima/eda_script.py:99 | groupby's keys are sorted and distinct, and are exactly the labels some row carries |
| Aggregate.Share | lima/eda_script.py:99 | a share is NaN exactly when the total is zero; otherwise it times the total is 100 times the part |
| Aggregate.GroupShares | lima/eda_script.py:99 | one entry per group key in key order, holding that group's weight as a percentage of the column total |
| Aggregate.GroupSumsAdd | lima/eda_script.py:99 | the group sums over distinct keys add up to the weight of the rows whose label is one of the keys |
| Aggregate.SharesAdd | lima/eda_script.py:99 | shares listed for keys add up to the keys' summed group weights over the total, times 100 |
| Aggregate.DivAdd | lima/eda_script.py:99 | a percentage of a sum is the sum of the percentages |
| Aggregate.DivAtMostOne | lima/eda_script.py:99 | a part no larger than a positive total is at most 100 percent of it |
| Aggregate.InKeysIsLabelled | lima/eda_script.py:99 | the rows under some group key are exactly the rows with a label |
| Aggregate.SharesAtMost100 | lima/eda_script.py:99 | with non-negative weights the group shares add up to 100 times the labelled rows' weight over the total, hence to at most 100 |
| Sanitize.ReplaceThenCoerce | 01_scripts/main_pipeline.py:102-109 | replacing then coercing always gives a number or NaN; a numeric cell ends NaN exactly when it was NaN or a code; a text cell is simply coerced |
| Sanitize.CoerceThenReplace | lima/data_cleaning_script.py:59-63 | coercing then replacing always gives a number or NaN that is not a code; it is NaN exactly when the coerced cell is NaN or a code; a numeric non-code cell is unchanged |
| Sanitize.TextSentinelSurvives | 01_scripts/main_pipeline.py:102-109 | the text "99" survives replace-then-coerce as the number 99, and a second pass removes it |
| Sanitize.TextSentinelRemoved | lima/data_cleaning_script.py:59-63 | coerce-then-replace removes both the text "99" and the number 99 |
| Sanitize.CoerceThenReplaceIdempotent | lima/data_cleaning_script.py:59-63 | coerce-then-replace applied twice is applied once |
| Sanitize.OrdersAgreeOnNumbers | 01_scripts/main_pipeline.py:102-109 | on cells that are already numbers or NaN the two orders agree |
| Sanitize.TwoPassesAsWritten | 01_scripts/main_pipeline.py:102-109 | the replace loop followed by the coercion loop is one cellwise pass of the replace-then-coerce rule |
| Sanitize.TwoPassesCorrected | lima/data_cleaning_script.py:59-63 | the coercion loop followed by the replace loop is one cellwise pass of the coerce-then-replace rule |
| Sanitize.ColumnsMappedIdempotent | lima/data_cleaning_script.py:59-63 | a cellwise pass with an idempotent rule is idempotent on the whole frame |
| Sanitize.CoerceThenReplaceCleans | lima/data_cleaning_script.py:59-63 | a coerce-then-replace pass over the columns of any code table leaves every present column with codes numeric and free of them, and every other column unchanged |
| Sanitize.SanitizedColumns | lima/data_cleaning_script.py:59-63 | the corrected cleaning with the sentinel table leaves every present sentinel column numeric and free of its codes, and every other column unchanged |
| Sanitize.SanitizeTwiceIsOnce | lima/data_cleaning_script.py:59-63 | cleaning the corrected cleaning's output again changes nothing |
| Sanitize.SanitizeAsWrittenNotIdempotent | 01_scripts/main_pipeline.py:102-109 | on a one-row frame with the text age "99", one pass of the national cleaning leaves 99 and a second pass removes it |
| Sanitize.SanitizeTextAge | lima/data_cleaning_script.py:59-63 | one coerce-then-replace pass makes the text age "99" NaN || Factors.FactorColumns | 01_scripts/main_pipeline.py:67 | the fa_ columns are exactly the frame's labels that start with fa_, without repeats when the labels have none |
| Factors.RowSumOfCoerced | 01_scripts/main_pipeline.py:69-72 | the row sum over coerced fa_ cells is the sum of the numeric parts of the original cells |
| Factors.NewColumnsAreNotFactors | 01_scripts/main_pipeline.py:72-73 | neither factor_expansion nor factor_ajustado starts with fa_ |
| Factors.WithWeights | 01_scripts/main_pipeline.py:72-73 | adding the two weights sets factor_expansion to the row's sum and factor_ajustado to that sum over the number of files, and keeps every other cell |
| Factors.FactorsCoerced | 01_scripts/main_pipeline.py:69-71 | the coercion loop turns every fa_ cell into a number or NaN and keeps every other cell |
| Factors.FactorSums | 01_scripts/main_pipeline.py:72 | one sum per row, the sum over its fa_ cells |
| Factors.WeightsCombined | 01_scripts/main_pipeline.py:67-75 | the fa_ columns are dropped and the two weights added; each row's factor_expansion is its fa_ sum, factor_ajustado that sum over the number of files; every other cell is unchanged |
| Factors.CombineFactors | 01_scripts/main_pipeline.py:67-75 | the coercion loop, the sum, the division and the drop compute WeightsCombined |
| Load.LoadAll | 01_scripts/main_pipeline.py:59-63 | the read loop succeeds exactly when every file can be read and treated; the frames then come in listing order; otherwise the error is that of the first file that fails, all files before it having loaded |
| Load.LoadAllPrefix | 01_scripts/main_pipeline.py:59-63 | a failure among the first files is the failure of the whole loop |
| Load.LoadAllFailed | 01_scripts/main_pipeline.py:59-63 | a failure among all but the last file is the failure of the whole loop |
| Load.LoadLoop | 01_scripts/main_pipeline.py:59-63 | the loop's statements compute the read loop |
| Load.Concat | process_data.py:62 | concatenating an empty list raises; any other list gives the concatenation of its frames |
| Load.WithPeriod | process_data.py:59 | setting periodo gives every row that period, adds the label at the end when it is new, and keeps the row count |
| Load.StampedConcatCell | process_data.py:56-62 | row k of the i-th stamped frame sits in the concatenation after the rows of the frames before it, with its period and its own other cells |
| Load.StampedCell | process_data.py:59 | a stamped row reads its period under periodo and its own cells elsewhere |
| Load.QuarterIfKnown | 01_scripts/main_pipeline.py:62 | a file named in the quarters table is stamped with its quarter; any other file is left unstamped; the treatment never fails |
| Load.QuarterOrFail | process_data.py:59 | a file named in the quarters table is stamped with its quarter; any other name raises a KeyError |
| Load.PeriodFromName | lima/eda_script.py:66 | a Lima file is stamped with the period its name encodes, without failing |
| Load.QuarterIfKnownLoads | 01_scripts/main_pipeline.py:59-63 | with the lenient treatment the loop fails exactly when some file cannot be read |
| Load.QuarterOrFailLoads | process_data.py:56-60 | over readable files, the strict loop fails exactly when some name is missing from the quarters table, and then with that KeyError |
| Load.CsvFiles | 01_scripts/main_pipeline.py:53 | the listing's .csv entries, in listing order |
| Load.Unified | 01_scripts/main_pipeline.py:53-66 | no CSV file raises FileNotFoundError; otherwise loading succeeds exactly when the loop does, and fails with its error; the frame is the concatenation with blank text made NaN |
| Load.LenientFrames | 01_scripts/main_pipeline.py:60-63 | each file's frame keeps its row count, and every row gets the file's quarter when the name is known |
| Load.LenientLoads | 01_scripts/main_pipeline.py:59-63 | over readable files, the lenient loop yields exactly those stamped frames |
| Load.UnifiedReadable | 01_scripts/main_pipeline.py:59-65 | a successful load read every CSV file |
| Load.UnifiedRowCount | 01_scripts/main_pipeline.py:59-66 | the unified frame has as many rows as all CSV files together |
| Load.UnifiedLenient | 01_scripts/main_pipeline.py:59-66 | the unified frame is the blank-normalised concatenation of the leniently stamped frames |
| MainPipeline.LenientFailure | 01_scripts/main_pipeline.py:59-63 | when the listing has CSV files and loading fails, the error is an unreadable file, and some CSV file is unreadable |
| MainPipeline.Weighed | 01_scripts/main_pipeline.py:67-75 | the weight step keeps the row count and leaves no fa_ column; with no fa_ column the frame is unchanged; otherwise each row's factor_expansion is the sum of its fa_ cells and factor_ajustado that sum over the number of files |
| MainPipeline.Loaded | 01_scripts/main_pipeline.py:50-77 | no CSV file raises FileNotFoundError; loading succeeds exactly when every CSV file is readable, and otherwise fails on an unreadable file; on success the frame is the unified frame after the weight step |
| MainPipeline.LoadAndUnify | 01_scripts/main_pipeline.py:50-77 | the loading steps, in the script's order, compute Loaded |
| MainPipeline.CleanSpecialCodes | 01_scripts/main_pipeline.py:102-109 | the replace loop then the coercion loop, as written: every present sentinel column ends numeric; a numeric cell ends NaN exactly when it was NaN or one of its column's codes; every other column is unchanged |
| MainPipeline.CleanSpecialCodesCorrected | 01_scripts/main_pipeline.py:102-109 | the same loops with the coercion first: every present sentinel column ends numeric and holds none of its codes; every other column is unchanged |
| MainPipeline.MainFillPicks | 01_scripts/main_pipeline.py:147 | the C3, I3 and D3 prefix rule picks C300n, C301_DIA, I339_1 and D344, and never the age or the activity column |
| MainPipeline.Segregated | 01_scripts/main_pipeline.py:131-175 | no C208 raises a KeyError; the split succeeds exactly when C208 and OCUP300 are present and the under-14 step succeeds; the workforce has one row per row aged 14 or more, the under-14 frame one per row under 14, and together with the rows without an age they are all the rows |
| MainPipeline.SegregatedRows | 01_scripts/main_pipeline.py:137-157 | workforce row k comes from the k-th row aged 14 or more, keeps its age and carries that age's band; under-14 row k comes from the k-th row under 14 |
| MainPipeline.SegregateAndPrepare | 01_scripts/main_pipeline.py:131-175 | the split's statements compute Segregated |
| MainPipeline.Pipeline | 01_scripts/main_pipeline.py:318-330 | main() as written: no CSV file gives FileNotFoundError; a loading error ends the run with that error; otherwise the run segregates the frame cleaned by the replace-then-coerce rule of clean_special_codes |
| MainPipeline.RunPipeline | 01_scripts/main_pipeline.py:328-330 | load_and_unify, clean_special_codes and segregate_and_prepare in order compute Pipeline |
| MainPipeline.PipelineCorrected | 01_scripts/main_pipeline.py:318-330 | the same run with the coerce-then-replace cleaning: the same errors, otherwise the segregated frame cleaned of every sentinel, textual ones included |
| MainPipeline.RunPipelineCorrected | 01_scripts/main_pipeline.py:328-330 | the three steps with the corrected cleaning compute PipelineCorrected |
| MainPipeline.TextAgeSplitsApart | 01_scripts/main_pipeline.py:102-109 | the text age "99" is cleaned by main() into an age the workforce mask keeps, and by the corrected cleaning into NaN, which neither age mask keeps |
| Segregation.AgeSplit | 01_scripts/main_pipeline.py:137-138 | no row is both 14 or over and under 14; a row without an age is in neither frame; the two frames and the rows without an age account for every row |
| Segregation.AgedSplit | 01_scripts/main_pipeline.py:137-138 | when every row has a numeric age, the two frames together hold every row |
| Segregation.FillNames | 01_scripts/main_pipeline.py:147-148 | cols_to_fill holds exactly the columns the prefix rule picks, plus the four extras |
| Segregation.NotOcupado | 01_scripts/main_pipeline.py:146 | the mask is true exactly on the rows not labelled 'Ocupado', NaN included |
| Segregation.ActivityRecoded | 01_scripts/main_pipeline.py:18-29 | OCUP300 is recoded by the activity table |
| Segregation.AgeNotRecoded | 01_scripts/main_pipeline.py:18-29 | the age C208 has no recode table and is not one of the four extra fill columns |
| Segregation.InformalCodeNotRecoded | 01_scripts/main_pipeline.py:18-29 | C361_1 has no recode table, so its code survives the recode loop |
| Segregation.DerivedLabels | 01_scripts/main_pipeline.py:157-160 | grupo_edad and es_informal are two new labels, distinct from each other and from the codes read to compute them |
| Segregation.LabelFacts | 01_scripts/main_pipeline.py:18-29 | the survey tables recode the workforce columns as the workforce steps need: OCUP300 by the activity table, neither C208 nor C361_1 at all |
| Segregation.Recoded | 01_scripts/main_pipeline.py:141-144 | for any recode tables m, each present column with a table in m is mapped through it, and every other cell is unchanged |
| Segregation.NotEmployedMask | 01_scripts/main_pipeline.py:141-146 | for tables that recode OCUP300 by the activity table, on the recoded frame, the not-'Ocupado' mask is true exactly on the rows whose activity code is not 1 |
| Segregation.Filled | 01_scripts/main_pipeline.py:141-152 | for such tables, after the recode and fill loops, a picked or extra column reads 'No Aplica' on not-employed rows, and every other cell is its recoded value |
| Segregation.Bands | 01_scripts/main_pipeline.py:155-157 | each row gets the band of its own age |
| Segregation.InformalFlags | 01_scripts/main_pipeline.py:158-160 | es_informal is 1 exactly where the frame has C361_1, the row is 'Ocupado' and C361_1 is 2, and 0 elsewhere |
| Segregation.BandedRow | 01_scripts/main_pipeline.py:146-160 | a filled row keeps its age band, and its informality read off the labels equals the one read off the codes |
| Segregation.WorkerLabels | 01_scripts/main_pipeline.py:141-152 | a filled row is 'Ocupado' exactly when its activity code is 1, and then keeps its C361_1 code |
| Segregation.Banded | 01_scripts/main_pipeline.py:141-157 | the banded frame has one more label, the same rows, each row's band of its own age and each filled cell as WorkerCell says |
| Segregation.Workforce | 01_scripts/main_pipeline.py:141-160 | there is a KeyError exactly when OCUP300 is missing; otherwise every row carries its age band, its informality flag from the codes, and its recoded or filled cells |
| Segregation.FlagInTwoSteps | 01_scripts/main_pipeline.py:158-160 | setting es_informal to 0 and then to 1 on the informal rows gives the same frame as setting the flag in one step |
| Segregation.PrepareWorkforce | 01_scripts/main_pipeline.py:141-160 | the recode loop, the fill loop, the cut and the flag compute Workforce |
| Segregation.KeptColumns | 01_scripts/main_pipeline.py:164-166 | the kept labels come from the frame or are the three identifier columns, and all three are kept |
| Segregation.Pruned | 01_scripts/main_pipeline.py:163-169 | without C300n nothing is pruned; with it the frame is projected on the columns before C300n plus the identifiers |
| Segregation.NonWorkforce | 01_scripts/main_pipeline.py:163-172 | a KeyError exactly when C300n is present and an identifier column is missing; otherwise the same rows, the pruned labels, recoded cells except the activity column, and NaN in pruned columns |
| Segregation.YoungKeepActivityCode | 01_scripts/main_pipeline.py:170-172 | the under-14 recode skips OCUP300 and uses the same table as the workforce for every other column |
| Segregation.PrepareNonWorkforce | 01_scripts/main_pipeline.py:163-172 | the prune and the recode loop compute NonWorkforce |
| ProcessData.Stem | process_data.py:93 | the part before the first underscore holds no underscore, and a label without one is its own stem |
| ProcessData.StemAt | process_data.py:93 | in stem + "_" + rest, the first underscore sits right after the stem |
| ProcessData.ColumnNumberOf | process_data.py:93 | the number read from C + digits, with or without an underscore suffix, is the integer those digits spell |
| ProcessData.FillByNumber | process_data.py:90-96 | a C3 column is filled exactly when the number before its underscore parses and is at least 308 |
| ProcessData.ProcessFillC3 | process_data.py:90-96 | a label starting with C3 is filled exactly when its number parses and is at least 308 |
| ProcessData.ThreeDigits | process_data.py:93 | three digits spell one hundred times the first plus ten times the second plus the third |
| ProcessData.FillByThreeDigits | process_data.py:90-96 | a C3nn column, with or without a suffix, is filled exactly when its three digits are at least 308 |
| ProcessData.FillOfLabel | process_data.py:90-96 | C plus three digits starting with 3, with or without a suffix, is filled exactly when the digits spell at least 308 |
| ProcessData.NotFilledC301 | process_data.py:90-96 | C301_DIA is not filled, because 301 < 308 |
| ProcessData.FilledC361 | process_data.py:90-96 | C361_1 is filled |
| ProcessData.FilledC366 | process_data.py:90-96 | C366 is filled |
| ProcessData.FilledFrom308 | process_data.py:90-96 | C308 is the first filled number: C308 is filled and C307 is not |
| ProcessData.NotFilledC300n | process_data.py:92-96 | C300n does not parse as a number and is skipped |
| ProcessData.ProcessFillKeeps | process_data.py:89-99 | the age and the activity column are never filled |
| ProcessData.ProcessFillNarrower | process_data.py:89-99 | every column this rule fills the national rule fills too, while C301_DIA is filled only by the national rule |
| ProcessData.Weighted | process_data.py:65-73 | no C208 raises a KeyError; otherwise the row count is kept, no fa_ column is left, C208 is coerced, and each row's two weights are its fa_ sum and that sum over the number of files |
| ProcessData.NoFactorLeft | process_data.py:71-73 | combining the weights leaves no fa_ column |
| ProcessData.AgeIsNoFactor | process_data.py:65-68 | coercing C208 changes neither the fa_ columns nor any row's factor sum |
| ProcessData.WeightedRow | process_data.py:65-73 | row k of the weighted frame has the coerced age and the two weights of row k |
| ProcessData.SameFactorCells | process_data.py:71 | rows that agree on the fa_ cells have the same factor sum |
| ProcessData.Master | process_data.py:49-73 | a listing without CSV files reaches concat with nothing and raises |
| ProcessData.MasterIsWeighted | process_data.py:56-73 | a successful master frame means a non-empty listing whose files all load with the strict quarter stamp, and it is their concatenation after the weight step |
| ProcessData.MasterAges | process_data.py:65 | every age of the master frame is a number or NaN |
| ProcessData.MasterUnknownName | process_data.py:59 | over readable files, a CSV file missing from the quarters table makes the load fail with a KeyError naming a file outside the table |
| ProcessData.MasterRowCount | process_data.py:56-73 | a successful load read every CSV file, each named in the quarters table, and keeps the total row count |
| ProcessData.Split | process_data.py:76-125 | no C208 raises a KeyError; the split succeeds exactly when C208, OCUP300 and C361_1 are present and the under-14 step succeeds; the frames have one row per aged row 14 or over and under 14 |
| ProcessData.SplitRows | process_data.py:76-111 | workforce row k comes from the k-th aged row of 14 or more, with its age band and its informality flag read off the codes; under-14 row k comes from the k-th aged row under 14 |
| ProcessData.SplitCounts | process_data.py:76-78 | with a numeric age column, the two frames hold every row that has an age |
| ProcessData.Processed | process_data.py:47-125 | no CSV file makes concat raise; a load error ends the run with it; otherwise the run splits the master frame |
| ProcessData.ProcessedCounts | process_data.py:76-78 | the two outputs together hold every master row that has an age |
| ProcessData.LoadMaster | process_data.py:49-73 | the loading statements compute Master |
| ProcessData.SplitMaster | process_data.py:76-125 | the split statements compute Split |
| ProcessData.RunProcessData | process_data.py:47-129 | the whole script computes Processed |
| DashboardPrep.LoadAndUnify | 05_dashboard/data_prep.py:23-44 | no CSV file raises FileNotFoundError; otherwise the files are read and stamped when their names are known, concatenated, and blank text made NaN |
| DashboardPrep.PrepCleaned | 05_dashboard/data_prep.py:46-62 | the cleaning keeps the labels and the row count |
| DashboardPrep.PrepCleanedCell | 05_dashboard/data_prep.py:53-60 | a present numeric column ends numeric, a numeric cell ending NaN exactly when it was NaN or a code; C312 loses its code 4 without being coerced; every other cell is unchanged |
| DashboardPrep.NumericDistinct | 05_dashboard/data_prep.py:57 | the four coerced columns are distinct |
| DashboardPrep.RegistrationNotCoerced | 05_dashboard/data_prep.py:50-60 | C312 code 4 becomes NaN, while a text C312 cell is left as text |
| DashboardPrep.PrepTextAgeSurvives | 05_dashboard/data_prep.py:53-60 | the text age "99" survives this cleaning as the number 99 |
| DashboardPrep.DataFrame.constructor | 05_dashboard/data_prep.py:99 | the frame object holds the given table |
| DashboardPrep.DataFrame.MapEach | 05_dashboard/data_prep.py:53-55 | the in-place loop over a set of columns maps each present column cellwise and leaves the rest |
| DashboardPrep.DataFrame.MapInOrder | 05_dashboard/data_prep.py:58-60 | the in-place loop over a list of distinct columns does the same as over their set |
| DashboardPrep.DataFrame.CleanSpecialCodes | 05_dashboard/data_prep.py:46-62 | cleans the frame in place, returns the same object, and its new contents are PrepCleaned of the old |
| DashboardPrep.DisplayNames | 05_dashboard/data_prep.py:73-79 | the five-entry rename keeps the row count; its cells are stated by DisplayNamesRow |
| DashboardPrep.DisplayPairsSeparate | 05_dashboard/data_prep.py:73-79 | no old label of the rename dict is a new one and no two entries share a label, so renaming entry by entry equals the simultaneous dict rename |
| DashboardPrep.DisplayNamesRow | 05_dashboard/data_prep.py:73-79 | after the rename Sexo, Edad, Nivel Educativo, Tipo de Ocupación and Ingreso_Mensual hold the old C207, C208, C366, C310 and INGTOT cells (present when the old label was; their own cell when it was absent), and every label outside the rename dict keeps its presence and its cell |
| DashboardPrep.PrepMapsRecode | 05_dashboard/data_prep.py:12-19 | the four tables recode C207 by sex, C366 by education and C310 by occupation |
| DashboardPrep.PrepMapsKeep | 05_dashboard/data_prep.py:12-19 | no table applies to C208, INGTOT or Sexo |
| DashboardPrep.PrepMapsKeepNames | 05_dashboard/data_prep.py:12-19 | no table applies to Edad, Nivel Educativo, Tipo de Ocupación or Ingreso_Mensual |
| DashboardPrep.NamedRowBy | 05_dashboard/data_prep.py:68-79 | recoding by such tables and then renaming shows each row's recoded sex, education and occupation, its age and its income under the display names |
| DashboardPrep.Banded | 05_dashboard/data_prep.py:66-83 | the banded frame has one row per row aged 14 or over |
| DashboardPrep.Flagged | 05_dashboard/data_prep.py:85 | every row gets es_informal 1 exactly when it is 'Ocupado' and C361_1 is 2, and 0 otherwise |
| DashboardPrep.RecodedRow | 05_dashboard/data_prep.py:68-71 | the recode leaves age and C361_1 alone and maps OCUP300 through the activity table |
| DashboardPrep.BandedRow | 05_dashboard/data_prep.py:66-83 | row k of the banded frame comes from the k-th row aged 14 or over: Edad is its age, the band is its age's band, it is 'Ocupado' exactly when employed, and it keeps C361_1 |
| DashboardPrep.BandedDisplayedBy | 05_dashboard/data_prep.py:68-83 | banding by Edad after that recode and rename keeps the display columns |
| DashboardPrep.BandedDisplayed | 05_dashboard/data_prep.py:66-83 | row k of the banded frame shows the display columns of the k-th row aged 14 or over |
| DashboardPrep.Labelled | 05_dashboard/data_prep.py:66-85 | the labelled frame has one row per row aged 14 or over |
| DashboardPrep.LabelledRow | 05_dashboard/data_prep.py:66-85 | a labelled row is aged 14 or over, keeps its age and band, is 'Ocupado' exactly when employed, and is flagged informal exactly when 'Ocupado' with C361_1 equal to 2 |
| DashboardPrep.EmployedCount | 05_dashboard/data_prep.py:87 | the kept rows are as many as the employed rows aged 14 or over |
| DashboardPrep.EmployedRows | 05_dashboard/data_prep.py:85-87 | every kept row is aged 14 or over, 'Ocupado', banded by its own age and flagged informal exactly when C361_1 is 2 |
| DashboardPrep.FlaggedWorking | 05_dashboard/data_prep.py:85 | flagging an 'Ocupado' banded row that shows its source row's display columns, band and C361_1 gives a kept row |
| DashboardPrep.LabelledWorking | 05_dashboard/data_prep.py:66-85 | a labelled row that is 'Ocupado' holds the display columns, band, C361_1 and informality of its source row |
| DashboardPrep.WorkingRowAt | 05_dashboard/data_prep.py:66-87 | the k-th kept row exists and comes from the k-th employed row aged 14 or over |
| DashboardPrep.WorkingRows | 05_dashboard/data_prep.py:66-87 | the kept rows and the employed rows aged 14 or over match position by position |
| DashboardPrep.WorkingPopulation | 05_dashboard/data_prep.py:64-89 | the step succeeds exactly when C208, OCUP300 and C361_1 are present, with a KeyError on a missing C208; the result has one row per employed row aged 14 or over, and its k-th row comes from the k-th of them: Sexo, Nivel Educativo and Tipo de Ocupación are its recoded C207, C366 and C310, Edad its C208, Ingreso_Mensual its INGTOT (each when the source has that column), grupo_edad its age band, OCUP300 is 'Ocupado', C361_1 is kept, and es_informal is 1 exactly when C361_1 is 2 |
| DashboardPrep.ProcessWorkingPopulation | 05_dashboard/data_prep.py:64-89 | the step's statements compute WorkingPopulation |
| DashboardPrep.FinalColumnsDistinct | 05_dashboard/data_prep.py:103-106 | the nine output labels are distinct |
| DashboardPrep.Backfilled | 05_dashboard/data_prep.py:108-110 | every missing output label is added as a NaN column, the other cells are kept, and the row count is unchanged |
| DashboardPrep.Shaped | 05_dashboard/data_prep.py:108-112 | the output has exactly the listed labels in order and the same rows, each cell its source cell or NaN |
| DashboardPrep.FinalShape | 05_dashboard/data_prep.py:108-112 | the backfill loop and the projection compute Shaped on the nine output labels, giving a well-formed frame |
| DashboardPrep.Prepared | 05_dashboard/data_prep.py:92-112 | no CSV file raises FileNotFoundError; a loading error ends the run; otherwise the output is the shaped working population of the cleaned frame, always with the nine output labels |
| DashboardPrep.RunDataPrep | 05_dashboard/data_prep.py:92-112 | the whole script computes Prepared |
| LimaCleaning.WithFactor | lima/data_cleaning_script.py:47-53 | the first fa_ column is coerced to numbers and renamed factor_expansion in its own position; every other cell is unchanged; without an fa_ column the frame is unchanged |
| LimaCleaning.FirstFactor | lima/data_cleaning_script.py:47-49 | the renamed column is the first label, in column order, that starts with fa_ |
| LimaCleaning.LimaCleaned | lima/data_cleaning_script.py:43-63 | cleaning keeps the row count, and the labels are those left by the rename |
| LimaCleaning.SentinelsAreNotFactors | lima/data_cleaning_script.py:12-18 | no column of the codes table starts with f, so none is an fa_ column or factor_expansion |
| LimaCleaning.WithFactorCell | lima/data_cleaning_script.py:47-53 | after the weight step, factor_expansion holds the coerced fa_ cell and the old label reads as NaN; every other cell is unchanged |
| LimaCleaning.WithFactorLabels | lima/data_cleaning_script.py:47-53 | a label that does not start with f is present after the weight step exactly when it was present before |
| LimaCleaning.CleanedWithCell | lima/data_cleaning_script.py:43-63 | gives each cell after the blank replacement, the weight step and any per-column map that spares labels starting with f |
| LimaCleaning.LimaCleanedCell | lima/data_cleaning_script.py:43-63 | in a present column of the codes table, a cell is its blank-normalised value, coerced and with its codes made NaN; factor_expansion holds the coerced first fa_ cell; every other cell is its blank-normalised self |
| LimaCleaning.SentinelStepIdempotent | lima/data_cleaning_script.py:59-63 | running the codes loop again on a cleaned frame changes nothing |
| LimaCleaning.CleanFile | lima/data_cleaning_script.py:40-63 | the per-file statements compute the cleaned frame |
| LimaCleaning.CleanNameOf | lima/data_cleaning_script.py:68 | when the prefix occurs only at the start of the name, the replace swaps just the prefix, so the new name is a cleaned name and not a filtered one |
| LimaCleaning.CleanNameInjective | lima/data_cleaning_script.py:68 | two different such names get two different cleaned names |
| LimaCleaning.CleanStepRead | lima/data_cleaning_script.py:39-78 | one iteration reports an unreadable file as failed and changes nothing; a readable file's cleaned frame is written under the cleaned name and the original is removed; every other file is untouched |
| LimaCleaning.CleanAll | lima/data_cleaning_script.py:35-78 | the loop gives one report per listed file |
| LimaCleaning.Cleaning | lima/data_cleaning_script.py:25-35 | the script stops exactly when the listing holds no lima_filtered_*.csv name; otherwise it runs the loop over those names in listing order |
| LimaCleaning.CleanAllRead | lima/data_cleaning_script.py:35-78 | after the loop every listed file is gone, and any name that is neither listed nor cleaned is untouched |
| LimaCleaning.CleanAllOutput | lima/data_cleaning_script.py:35-75 | over distinct names, each readable file's cleaned frame ends under its cleaned name |
| LimaCleaning.CleanAllReport | lima/data_cleaning_script.py:35-78 | over distinct names, the i-th report says cleaned or failed for the i-th file, whatever happened to the files before it |
| LimaCleaning.CleanAllOutcome | lima/data_cleaning_script.py:35-78 | the whole loop: every file is reported; every listed file is gone; each readable one's cleaned frame sits under its cleaned name; names outside both families are untouched |
| LimaCleaning.CleanOne | lima/data_cleaning_script.py:39-78 | the try block of one iteration computes its step |
| LimaCleaning.CleanFolder | lima/data_cleaning_script.py:23-78 | the script's statements compute the cleaning run |
| Harmonize.Rewrite | lima/harmonize_columns.py:32-38 | no rewrite happens when the labels already equal the canonical order, or when a canonical label is missing (the KeyError the try reports); otherwise the frame has exactly the canonical labels, in order, with the same rows and cells |
| Harmonize.RewriteSettles | lima/harmonize_columns.py:32-38 | a harmonised frame needs no second rewrite |
| Harmonize.HarmonizeStepRead | lima/harmonize_columns.py:28-45 | one iteration overwrites only its own file, and only when the file is readable and needs a rewrite |
| Harmonize.HarmonizeStepReport | lima/harmonize_columns.py:28-45 | one iteration reports already-canonical, rewritten or failed, as its file dictates |
| Harmonize.HarmonizeAll | lima/harmonize_columns.py:24-45 | the loop gives one report per listed file |
| Harmonize.Harmonizing | lima/harmonize_columns.py:12-24 | the script stops exactly when the reference file cannot be read; otherwise the loop runs with the reference's labels over the lima_cleaned_*.csv names |
| Harmonize.HarmonizeAllRead | lima/harmonize_columns.py:24-45 | over distinct names, a file ends rewritten exactly when it is listed, readable and needs a rewrite; every other file is untouched |
| Harmonize.HarmonizeAllReport | lima/harmonize_columns.py:24-45 | over distinct names, the i-th report depends on the i-th file alone |
| Harmonize.HarmonizedColumns | lima/harmonize_columns.py:32-41 | a listed readable file holding every canonical label ends with exactly the canonical labels, the same row count, and the same cells under them |
| Harmonize.HarmonizeTwice | lima/harmonize_columns.py:24-45 | running the script a second time changes no file |
| Harmonize.ReferenceUntouched | lima/harmonize_columns.py:15-34 | the reference file is always reported as already canonical |
| Harmonize.HarmonizeOne | lima/harmonize_columns.py:28-45 | the try block of one iteration computes its step |
| Harmonize.HarmonizeFolder | lima/harmonize_columns.py:12-50 | the script's statements compute the harmonising run |
| Consistency.Compare | lima/verify_consistency.py:38-58 | a file is consistent exactly when its labels equal the reference list; otherwise the sorted missing labels are those in the reference and not in the file, the sorted added labels the reverse, and the difference is order-only exactly when both are empty, which holds exactly when the two label sets agree |
| Consistency.ColumnStep | lima/verify_consistency.py:28-62 | the first readable file fixes the reference and later files never change it; an unreadable file is a read error |
| Consistency.ColumnsChecked | lima/verify_consistency.py:26-62 | the column pass gives one report per file |
| Consistency.ColumnsCheckedLast | lima/verify_consistency.py:26-62 | the last file's report is appended after the other files' reports, judged against the reference they left |
| Consistency.FirstReadableIsFirst | lima/verify_consistency.py:33-36 | the reference is absent exactly when no file is readable; otherwise it is the header of a readable file with no readable file before it |
| Consistency.FirstReadableKept | lima/verify_consistency.py:33-36 | a reference found among all but the last file is the reference of all the files |
| Consistency.ColumnsReference | lima/verify_consistency.py:23-62 | the reference the loop ends with is the first readable file's labels |
| Consistency.ColumnsVerdict | lima/verify_consistency.py:24-64 | the columns verdict is true exactly when every file's report passed |
| Consistency.ColumnsReport | lima/verify_consistency.py:26-62 | the i-th report compares the i-th file with the reference fixed by the files before it |
| Consistency.ConsistentIff | lima/verify_consistency.py:33-58 | once a reference exists, a readable file is reported consistent exactly when its labels equal the reference, which is then the reference of the whole pass |
| Consistency.ReferenceKept | lima/verify_consistency.py:33-36 | a reference fixed by a prefix of the files is the reference of the whole pass |
| Consistency.CheckColumns | lima/verify_consistency.py:23-67 | the column loop computes the column pass |
| Consistency.Values | lima/verify_consistency.py:84 | the unique values of a column are its non-NaN cells |
| Consistency.Gathered | lima/verify_consistency.py:76-96 | the gathered check belongs to the variable asked for |
| Consistency.GatheredFacts | lima/verify_consistency.py:76-96 | a variable is consistent exactly when every file can be read with it; the gathered values are those of the files that can |
| Consistency.CategoriesChecked | lima/verify_consistency.py:73-98 | one check per categorical variable; the verdict is true exactly when every variable is consistent |
| Consistency.GatherValues | lima/verify_consistency.py:76-89 | the inner file loop computes the gathered check |
| Consistency.CheckCategories | lima/verify_consistency.py:73-96 | the outer variable loop computes the category pass |
| Consistency.Verified | lima/verify_consistency.py:11-19 | the script stops exactly when no lima_cleaned_*.csv file is listed; otherwise it runs the column pass and then the category pass over C207, C310, C366 and OCUP300, over the sorted files |
| Consistency.VerifyConsistency | lima/verify_consistency.py:11-101 | the script's statements compute the verification |
| LimaFilter.FilteredName | lima/filter_script.py:43 | the output name is lima_filtered_ followed by the source name |
| LimaFilter.LimaRows | lima/filter_script.py:40 | the filtered frame keeps every label and exactly the rows whose REGION is the number 1, in order |
| LimaFilter.FilteredNameInjective | lima/filter_script.py:43 | two source files never share an output name |
| LimaFilter.FilterExpected | lima/filter_script.py:32-54 | a file is saved exactly when it is readable and has REGION; the report then names the output and counts the Lima rows |
| LimaFilter.FilterAll | lima/filter_script.py:27-54 | the loop gives one report per CSV file |
| LimaFilter.Filtering | lima/filter_script.py:16-27 | the script stops exactly when the listing holds no .csv name; otherwise it runs the loop over those names in listing order |
| LimaFilter.FilterAllRead | lima/filter_script.py:27-54 | after the loop, an output whose source was listed, readable and had REGION holds that source's Lima rows; every other file of the output directory is as it was |
| LimaFilter.FilterAllReport | lima/filter_script.py:27-54 | the i-th report depends on the i-th file alone |
| LimaFilter.FilterOne | lima/filter_script.py:32-54 | the try block of one iteration computes its step |
| LimaFilter.FilterFolder | lima/filter_script.py:16-54 | the script's statements compute the filtering run |
| LimaFilter.CheckOne | lima/verify_filter.py:31-66 | a source without REGION is skipped; a missing output is an error; otherwise the counts match exactly when the source's Lima rows number the output's rows |
| LimaFilter.FilterVerified | lima/verify_filter.py:21-72 | one check per source file, in order; the verdict passes exactly when every check passed |
| LimaFilter.VerifyingFilter | lima/verify_filter.py:11-24 | the check stops exactly when no .csv file is listed; otherwise it checks those files |
| LimaFilter.VerifyFilter | lima/verify_filter.py:11-72 | the script's statements compute the verdict |
| LimaFilter.FilterThenVerify | lima/verify_filter.py:24-66 | checking right after filtering the same listing passes exactly when every listed source was readable |
| LimaFiles.Written | lima/data_cleaning_script.py:70 | after to_csv the file reads back as the written frame and every other file reads as before |
| LimaFiles.Removed | lima/data_cleaning_script.py:73 | after os.remove the file is gone and unreadable, every other file reads as before |
| LimaFiles.Entries | lima/eda_script.py:62-65 | one directory entry per listed name, in listing order, holding what read_csv gives for it |
| LimaFiles.PrefixesDiffer | lima/feature_selection.py:30 | no file name starts with both the filtered and the cleaned prefix |
| LimaFiles.Selected | lima/feature_selection.py:30 | the selection is sorted and holds exactly the listed names the predicate accepts |
| LimaFiles.Tables | lima/feature_selection.py:31 | one frame per selected file, each the file's contents, in order |
| LimaFiles.Stamped | lima/feature_selection.py:33-34 | one stamped frame per selected file |
| LimaFiles.LimaLoads | lima/feature_selection.py:31-34 | reading and stamping succeeds exactly when every selected file is readable, then yields each file's frame stamped with its period; a failure names an unreadable selected file |
| LimaFiles.LimaMaster | lima/feature_selection.py:28-40 | an empty selection fails at the concatenation; otherwise the load succeeds exactly when every selected file is readable, a failure names an unreadable file, and success is the concatenation of the stamped frames in sorted order |
| LimaFiles.LimaMasterRowCount | lima/feature_selection.py:36 | the master frame has as many rows as the selected files together |
| LimaFiles.LoadLima | lima/generate_final_report.py:38-45 | the listing, read, stamp and concat loop computes the master frame of the selection |
| LimaAnalysis.Coerced | lima/generate_final_report.py:51-52 | the first absent listed column raises a KeyError naming it; otherwise the columns and row count are kept, exactly the listed columns are coerced to numbers and every other cell is unchanged |
| LimaAnalysis.CoercedCell | lima/generate_final_report.py:51-52 | one more coerced column coerces exactly the cells of that column, and coercing a cell twice is coercing it once |
| LimaAnalysis.CoercedNumeric | lima/generate_final_report.py:51-52 | after the coercion every listed column holds only numbers or NaN |
| LimaAnalysis.CoercedKeeps | lima/generate_final_report.py:51-52 | a column not listed keeps its cells |
| LimaAnalysis.CoerceColumns | lima/feature_selection.py:56-58 | the column-by-column coercion loop computes the coercion of the whole list |
| LimaAnalysis.CoercedPrefixFails | lima/generate_final_report.py:51-52 | a KeyError within a prefix of the list is the KeyError of the whole list |
| LimaAnalysis.EmployedRows | lima/generate_final_report.py:55 | the employed subset keeps the columns and exactly the rows whose OCUP300 is the number 1, in order |
| LimaAnalysis.InformalFlags | lima/generate_final_report.py:50 | one flag per row, in order, set exactly on employed rows without ESSALUD coverage |
| LimaAnalysis.Informal | lima/generate_final_report.py:50 | a KeyError without OCUP300 or C361_1; otherwise a new es_informal column that is 1 exactly when OCUP300 is 1 and C361_1 is 2 and 0 otherwise, every other cell kept |
| LimaAnalysis.SetInformal | lima/feature_selection.py:44-46 | setting the flag to 0 and then to 1 on the matching rows yields the same frame as the np.where form |
| LimaAnalysis.Labelled | lima/generate_final_report.py:48-49 | a KeyError without the source column; otherwise a new label column holding the mapped label of each code, NaN for unmapped codes, every other cell kept |
| LimaAnalysis.DropNa | lima/generate_final_report.py:88 | a KeyError names an absent subset label; otherwise the columns are kept and the rows are those with no NaN in the subset, in order |
| LimaAnalysis.CompleteRows | lima/generate_final_report.py:88 | a row is kept exactly when none of its subset cells is NaN |
| LimaAnalysis.CompleteNumbers | lima/generate_final_report.py:88-89 | after dropna on a numeric column, that column holds only numbers |
| LimaAnalysis.GroupRows | lima/generate_final_report.py:89 | a group holds exactly the rows whose key cell equals the group key |
| LimaAnalysis.Collect | lima/generate_final_report.py:73-78 | the groupby-apply fails exactly when some group's computation fails, with the first such error; otherwise one result per group, in group order |
| LimaAnalysis.KeyCells | lima/generate_final_report.py:89 | the key column has one cell per row, and its cells are exactly the rows' key cells |
| LimaAnalysis.Uniques | lima/generate_final_report.py:89 | unique() lists distinct cells, exactly the key cells that occur, in the order of their first appearance in the column |
| LimaAnalysis.Values | lima/generate_final_report.py:89 | one number per row, each the row's value cell, in order |
| LimaAnalysis.AnovaGroups | lima/generate_final_report.py:89 | one non-empty group per distinct key, in the order of unique(), holding the values of the rows with that key |
| LimaAnalysis.HitsOnce | lima/generate_final_report.py:89 | a cell matches exactly one of a list of distinct keys it belongs to, and none otherwise |
| LimaAnalysis.GroupedCountStep | lima/generate_final_report.py:89 | adding a row adds its matches to the grouped count |
| LimaAnalysis.GroupedCountAll | lima/generate_final_report.py:89 | distinct keys covering every row's key count every row exactly once |
| LimaAnalysis.GroupedCountEmpty | lima/generate_final_report.py:89 | no rows, no grouped rows |
| LimaAnalysis.AnovaGroupsPartition | lima/generate_final_report.py:89 | the ANOVA groups partition the rows: their sizes add up to the row count |
| LimaAnalysis.Paired | lima/generate_final_report.py:108-109 | a row is paired exactly when neither of its two cells is NaN |
| LimaAnalysis.Crosstab | lima/generate_final_report.py:109 | the crosstab has a cell for exactly every pair of a seen row value and a seen column value on the paired rows |
| LimaAnalysis.CrosstabEmpty | lima/feature_selection.py:107-108 | the crosstab is empty exactly when no row has both cells |
| LimaAnalysis.CrosstabCount | lima/generate_final_report.py:109 | each crosstab cell counts the paired rows carrying its pair |
| LimaAnalysis.CrosstabPresent | lima/generate_final_report.py:109 | no crosstab row or column label is NaN |
| LimaAnalysis.Seen | lima/generate_final_report.py:109 | the seen values are exactly the cells of the column on the rows |
| LimaAnalysis.PairCount | lima/generate_final_report.py:109 | a pair count is at most the row count and is positive exactly when some row carries the pair |
| LimaAnalysis.AnovaOutcome | lima/feature_selection.py:88-96 | not computable exactly with fewer than two groups; otherwise the test's statistic and p, significant exactly when p < 0.05 |
| LimaAnalysis.ChiSquareOutcome | lima/feature_selection.py:108-116 | not computable exactly on an empty table; otherwise the test's statistic and p, significant exactly when p < 0.05 |
| Eda.NumericNotRecoded | lima/eda_script.py:79-87 | none of the three coerced columns has a recode table |
| Eda.Prepared | lima/eda_script.py:79-87 | a KeyError names an absent coerced column; otherwise the columns and row count are kept, INGTOT, C208 and factor_expansion are coerced, C207, C366 and OCUP300 carry their labels where present with NaN for unmapped codes, and every other cell is unchanged |
| Eda.EdaFrame | lima/eda_script.py:55-75 | no cleaned CSV file raises FileNotFoundError; otherwise a read error ends the script; otherwise the prepared master frame |
| Eda.PreparedReady | lima/eda_script.py:85-87 | after preparation income, age and weight hold only numbers or NaN |
| Eda.Periods | lima/eda_script.py:105 | the periods are sorted and distinct, exactly the periodo labels some row carries |
| Eda.IncomeByPeriod | lima/eda_script.py:105 | one entry per period in sorted order, holding the weighted income mean of that period's rows |
| Eda.Summarize | lima/eda_script.py:92-105 | a zero total weight on the kept rows raises; the summary exists exactly when both means succeed, C207 exists and every period's mean succeeds, and then holds the two means, the sex shares and the income series |
| Eda.EdaRun | lima/eda_script.py:55-105 | the whole computation fails as the load fails, and otherwise summarizes the prepared frame, on which income, age and weight are numeric |
| Eda.SeriesByPeriod | lima/eda_script.py:105 | the income series has one entry per period, in sorted order, each the weighted mean over that period's rows |
| Eda.SexSharesAtMost100 | lima/eda_script.py:99 | with non-negative weights and a positive total the sex shares add up to at most 100 |
| Eda.IncomeWithinBounds | lima/eda_script.py:93 | with non-negative weights the income mean lies between any bounds on the incomes |
| Eda.RunEda | lima/eda_script.py:55-105 | the script's statements in order compute the whole computation's result |
| FinalReport.AddedAreNew | lima/generate_final_report.py:48-52 | the added label and flag columns are none of the columns the preparation reads |
| FinalReport.Labels | lima/generate_final_report.py:48-49 | a KeyError names C366 or else C207 when absent; otherwise the row count and every column are kept |
| FinalReport.LabelsRow | lima/generate_final_report.py:48-49 | every row carries the labels of its education and sex codes, NaN for an unmapped code, and keeps every other cell |
| FinalReport.Derived | lima/generate_final_report.py:48-50 | a KeyError names an absent one of C366, C207, OCUP300 and C361_1; otherwise the row count and every column are kept |
| FinalReport.DerivedRow | lima/generate_final_report.py:48-50 | every row carries both labels and a flag that is 1 exactly when OCUP300 is 1 and C361_1 is 2, and keeps every other cell |
| FinalReport.ReportFrame | lima/generate_final_report.py:48-52 | a KeyError names an absent column the preparation reads; otherwise the row count is kept |
| FinalReport.ReportFrameRow | lima/generate_final_report.py:48-52 | on the prepared frame every row carries its labels and its flag |
| FinalReport.ReportFrameKept | lima/generate_final_report.py:51-52 | on the prepared frame income, age and weight are the coerced cells and every other original cell is kept |
| FinalReport.ReportFrameReady | lima/generate_final_report.py:50-52 | on the prepared frame income, age, weight and the flag are numeric and the flag is 0 or 1 |
| FinalReport.Employed | lima/generate_final_report.py:55 | a row is kept exactly when its OCUP300 is the number 1 |
| FinalReport.Percent | lima/generate_final_report.py:76 | a number times 100 is a number; NaN stays NaN |
| FinalReport.Indicators | lima/generate_final_report.py:74-77 | a period's row succeeds exactly when both means succeed, and holds the income mean and the informality mean in percent |
| FinalReport.RateIsPercentage | lima/generate_final_report.py:76 | with non-negative weights and a 0/1 flag the informality rate lies between 0 and 100 |
| FinalReport.Periods | lima/generate_final_report.py:73-78 | the periods are sorted and distinct, exactly the periodo labels some employed row carries |
| FinalReport.ByPeriod | lima/generate_final_report.py:73-78 | one entry per period in sorted order, each the indicators of that period's rows |
| FinalReport.IncomeGroups | lima/generate_final_report.py:88-89 | one income group per distinct key on the rows with income and key, and the groups together count every such row once |
| FinalReport.FlagTable | lima/generate_final_report.py:108-109 | every crosstab cell has a non-NaN key and counts the complete rows carrying its pair |
| FinalReport.Analysis | lima/generate_final_report.py:67-126 | the analysis succeeds exactly when the income mean, the age mean and every period's indicators over the employed rows succeed, and then holds them and the test inputs of the employed rows |
| FinalReport.FinalReportRun | lima/generate_final_report.py:38-126 | a load error or a missing column ends the script with it; a success is the analysis of the prepared frame, on which the needed columns are numeric |
| FinalReport.SubsetKeeps | lima/generate_final_report.py:73-78 | a subset of the rows keeps numeric columns, the 0/1 flag and non-negative weights |
| FinalReport.TemporalTable | lima/generate_final_report.py:73-78 | the temporal table has one row per period, in sorted order, each the indicators of that period's rows |
| FinalReport.TemporalRates | lima/generate_final_report.py:76 | with non-negative weights every informality rate of the temporal table lies between 0 and 100 |
| FinalReport.RunFinalReport | lima/generate_final_report.py:38-126 | the script's statements in order compute the whole script's result |
| FeatureSelection.Prepared | lima/feature_selection.py:44-58 | a KeyError without OCUP300; a success means the flag was set, every categorical predictor exists and the coercion of age, hours and income succeeded, and is that coercion |
| FeatureSelection.Prepare | lima/feature_selection.py:44-58 | the flag loop, the cast loop and the coercion loop compute the preparation |
| FeatureSelection.FirstAbsentAt | lima/feature_selection.py:54-55 | the cast loop stops at the first absent predictor, the one a KeyError names |
| FeatureSelection.Sets | lima/feature_selection.py:62-65 | a regression row is an employed row with income, hours, age and the three predictors present; a classification row is an employed row with the predictors and the flag present |
| FeatureSelection.RegressionIncome | lima/feature_selection.py:58-62 | on the prepared frame income is a number on every regression row |
| FeatureSelection.AnovaLine | lima/feature_selection.py:86-96 | not computable exactly when the kept rows have at most one predictor value; otherwise the test of the income groups of those values, significant exactly when p < 0.05 |
| FeatureSelection.ChiSquareLine | lima/feature_selection.py:106-116 | not computable exactly on an empty crosstab; otherwise the test of the flag against the predictor, significant exactly when p < 0.05 |
| FeatureSelection.ChiSquareSkipped | lima/feature_selection.py:106-108 | a chi-square line is skipped exactly when no kept row has both the flag and the predictor |
| FeatureSelection.Judged | lima/feature_selection.py:84-116 | one ANOVA line and one chi-square line per categorical predictor, in order, each computed on its own row set |
| FeatureSelection.JudgeAll | lima/feature_selection.py:84-116 | the two report loops compute the verdicts |
| FeatureSelection.Selection | lima/feature_selection.py:28-116 | a load error ends the script; the script succeeds exactly when the load and the preparation do, and then gives the verdicts on the prepared frame's row sets |
| FeatureSelection.RunSelection | lima/feature_selection.py:28-116 | the script's statements in order compute the whole script's result |
| Modeling.TrainingSet | lima/modeling_script.py:57-60 | a KeyError names an absent label of features, target and weight; otherwise X has exactly the five feature columns and X, y and the weights have one entry per employed row with none of those labels NaN, in row order, holding that row's cells |
| Modeling.TrainingRows | lima/modeling_script.py:57-60 | every training row comes from an employed person of the frame with every feature present, and neither its target nor its weight is NaN |
| Modeling.Trained | lima/modeling_script.py:44-95 | the two training sets exist exactly when the flag and both selections succeed, regression on INGTOT and classification on es_informal, each of the flagged frame |
| Modeling.ClassesAreFlags | lima/modeling_script.py:92-97 | every classification target is 0 or 1 |
| Modeling.ClassTargetMeaning | lima/modeling_script.py:44 | a classification target is 1 exactly when that employed row has C361_1 equal to 2 |
| Modeling.ModelingRun | lima/modeling_script.py:34-95 | a load error ends the script; otherwise the training sets of the master frame |
| Modeling.RunModeling | lima/modeling_script.py:34-95 | the script's statements in order compute the script's result |
| DashboardApp.DerivedNotCoerced | lima/06_dashboard/dashboard_app.py:53-58 | the flag and the activity label are not among the coerced columns |
| DashboardApp.SexLabel | lima/06_dashboard/dashboard_app.py:52 | code 1 becomes Hombre and code 2 Mujer, exactly; every other cell becomes NaN |
| DashboardApp.Recoded | lima/06_dashboard/dashboard_app.py:52-54 | a KeyError without C207, then without OCUP300; a success exactly when C207, OCUP300 and C361_1 exist, keeping the row count |
| DashboardApp.RecodedRow | lima/06_dashboard/dashboard_app.py:52-54 | every recoded row holds the sex label, the activity label and the informality flag of its codes and keeps every other cell |
| DashboardApp.Prepared | lima/06_dashboard/dashboard_app.py:51-60 | the frame is ready exactly when the recodes and the coercion succeed, and is the coercion of the recoded frame with the row count kept |
| DashboardApp.Loaded | lima/06_dashboard/dashboard_app.py:42-60 | no cleaned file reaches pd.concat with nothing and raises; a read error ends the app; otherwise the prepared master frame |
| DashboardApp.LoadData | lima/06_dashboard/dashboard_app.py:42-60 | the statements of load_data in order compute the loaded frame |
| DashboardApp.LoadedReady | lima/06_dashboard/dashboard_app.py:54-58 | on the loaded frame income, age, weight and the flag hold only numbers or NaN |
| DashboardApp.FlagAt | lima/06_dashboard/dashboard_app.py:54 | the loaded row's flag is the flag of its OCUP300 and C361_1 codes |
| DashboardApp.PeriodList | lima/06_dashboard/dashboard_app.py:81 | the selector starts with Todos, then lists the periods sorted and distinct, exactly the periodo labels some row carries |
| DashboardApp.Chosen | lima/06_dashboard/dashboard_app.py:84-89 | Todos keeps every row; another choice keeps exactly the rows of that period |
| DashboardApp.ChoicesNonEmpty | lima/06_dashboard/dashboard_app.py:81-89 | on a non-empty frame every entry of the selector selects at least one row |
| DashboardApp.Ocupados | lima/06_dashboard/dashboard_app.py:103 | a row is kept exactly when its activity label is Ocupado |
| DashboardApp.WeightedKpis | lima/06_dashboard/dashboard_app.py:93-106 | all zeros on no rows or a zero total weight; otherwise a success exactly when the three means succeed, holding the income mean, the age mean and the employed informality mean times 100; a failure is a zero-weight error |
| DashboardApp.MeanInRange | lima/06_dashboard/dashboard_app.py:97-101 | with non-negative weights a mean lies between any bounds on the values, or is the 0 of no qualifying row |
| DashboardApp.RateIsPercentage | lima/06_dashboard/dashboard_app.py:103-104 | with non-negative weights and a 0/1 flag the informality rate lies between 0 and 100 |
| DashboardApp.IncomeInRange | lima/06_dashboard/dashboard_app.py:97-98 | with non-negative weights the average income is 0 or lies between any bounds on the incomes |
| DashboardApp.Distribution | lima/06_dashboard/dashboard_app.py:120 | one weight total per label in sorted label order, each the total weight of that label's rows |
| DashboardApp.TotalOfGroups | lima/06_dashboard/dashboard_app.py:129 | totals listed against keys add up to the keys' group sums |
| DashboardApp.DistributionTotal | lima/06_dashboard/dashboard_app.py:120-129 | a chart's groups add up to the weight of the rows with a label; a row with a NaN label is in no group |
| DashboardApp.OcupadoIsCodeOne | lima/06_dashboard/dashboard_app.py:53 | exactly activity code 1 gets the label Ocupado |
| DashboardApp.OcupadosMeaning | lima/06_dashboard/dashboard_app.py:53-54 | on the loaded frame the Ocupado rows are exactly the rows with OCUP300 code 1, and on them the flag is 1 exactly when C361_1 is 2 |
| DashboardApp.PeriodPairs | lima/06_dashboard/dashboard_app.py:196-197 | one (INGTOT, factor_expansion) pair per row of the period's group |
| DashboardApp.PeriodMeans | lima/06_dashboard/dashboard_app.py:196-197 | one entry per period in sorted order, holding np.average of that period's pairs |
| DashboardApp.PeriodGroupsNonEmpty | lima/06_dashboard/dashboard_app.py:196 | every period groupby finds has at least one row |
| DashboardApp.CollectAverages | lima/06_dashboard/dashboard_app.py:196-197 | collecting named averages fails exactly when some group's weights sum to zero, with numpy's error, and otherwise keeps each name with its group's average |
| DashboardApp.PeriodSeries | lima/06_dashboard/dashboard_app.py:196-197 | the period averages fail exactly at a period of zero total weight, and otherwise give every period, in sorted order, its non-empty group's average |
| DashboardApp.IncomeSeries | lima/06_dashboard/dashboard_app.py:193-199 | no chart exactly when no row has both an income and a weight; otherwise a ZeroDivisionError exactly when some period's weights sum to zero, and else one point per period present, in sorted order, each np.average of that period's non-empty group |
| DashboardApp.IncomeSeriesInRange | lima/06_dashboard/dashboard_app.py:193-199 | with non-negative weights every point of the series lies between any bounds on the incomes |
| CsvToJson.Field | csv_to_json.py:13-22 | a field read succeeds exactly when the header has the label, giving its text; otherwise a KeyError naming it |
| CsvToJson.Keep | csv_to_json.py:13 | a row is kept exactly when periodo and INGTOT are present and neither is No Aplica; a KeyError arises exactly when periodo is absent, or when periodo is given and INGTOT is absent |
| CsvToJson.Amount | csv_to_json.py:18 | an empty text is 0; otherwise the parse succeeds exactly when the text is a decimal number, giving its value, and fails with a ValueError on that text |
| CsvToJson.Whole | csv_to_json.py:19 | int succeeds exactly on an integer text, giving its value, and fails with a ValueError on that text |
| CsvToJson.Hours | csv_to_json.py:22 | an empty text is 0; otherwise a decimal number truncated toward zero, within one of the number and on its side of zero |
| CsvToJson.Projected | csv_to_json.py:14-23 | the record exists exactly when every read label is present and the three numbers parse, and then copies the five texts and holds the three numbers; a failure is a KeyError at an absent label or a ValueError on one of the three fields |
| CsvToJson.Step | csv_to_json.py:13-24 | a pass skips exactly the rows the filter rejects, and appends exactly the projection of a kept row that projects |
| CsvToJson.KeptRows | csv_to_json.py:13 | the kept rows are at most the input rows, exactly those the filter keeps |
| CsvToJson.ConvertedFails | csv_to_json.py:10-24 | a conversion fails exactly when some row's pass raises, and carries the error of the first such row |
| CsvToJson.ConvertedProjects | csv_to_json.py:10-24 | a successful conversion holds one record per kept row, in order, each that row's projection |
| CsvToJson.ConvertedLast | csv_to_json.py:24 | one more row appends what its pass emits |
| CsvToJson.ConvertedAppend | csv_to_json.py:10-24 | converting two parts and appending the results is converting the whole |
| CsvToJson.ConvertedPrefixFails | csv_to_json.py:10-24 | a failing prefix decides the whole conversion |
| CsvToJson.Convert | csv_to_json.py:7-24 | the loop computes the conversion of the rows |
| CsvToJson.EmptyFlagFails | csv_to_json.py:19 | an empty flag field raises instead of giving 0 |
| CsvToJson.EmptyAmountsAreZero | csv_to_json.py:18-22 | empty income and hours fields become 0 |

## Left out

- File and directory I/O are inputs: `os.listdir`, `read_csv`, `to_csv`, `os.remove`, `makedirs` and report writes. A listing or a folder stands for the directory, and an unreadable file is an entry without content. `sys.exit` is a `Failure` or an empty result.
- A missing source directory (`FileNotFoundError` from `os.listdir`) is not modelled; the model starts from the listing.
- Plots, evidence images, Markdown and f-string report text, and `print` output are side effects and are not modelled. The counts and verdicts they show are modelled.
- The outlier profiling and the Welch t-test of `01_scripts/main_pipeline.py` (lines 187-191, 240-276) are floating-point quantile and test code feeding prose, and are not modelled.
- `generar_estadisticas` (`01_scripts/main_pipeline.py:31-48`) is not modelled: its mean and standard deviation only feed the report.
- `datetime.now()` timestamps are not modelled.
- `f_oneway`, `chi2_contingency` and `ttest_ind` are foreign numerics. They are function parameters returning (statistic, p). Only the guards around them and the p < 0.05 rule are modelled.
- `lima/generate_final_report.py` calls `f_oneway` without a group-count guard. Only the groups it passes are modelled (`LimaAnalysis.AnovaGroups`), not what scipy does with fewer than two.
- The correlation matrix at `lima/feature_selection.py:77` is floating-point statistics printed into the report, and is not modelled.
- The scikit-learn part of `lima/modeling_script.py` is library code and is not modelled: the train/test split, the random forests, their metrics and the saved models. The training sets it receives are modelled.
- The Streamlit widgets, the prediction tab and the pie-chart percentages of `lima/06_dashboard/dashboard_app.py` are UI code. The selection, the recodes, `get_weighted_kpis`, the distribution charts and the weighted income series by period are modelled.
- `astype('category')` (`lima/feature_selection.py:55`, `05_dashboard/data_prep.py:71`) changes a dtype and no value, so the model leaves cells unchanged.
- Strings.ParseReal: does not accept exponents, `inf`, `nan`, surrounding whitespace or digit-group underscores, which Python's float() and pandas' to_numeric accept. Such cells become NaN in the model.
- Strings.ParseInt: does not accept surrounding whitespace or underscores, which Python's int() accepts.
- Numbers are exact reals. IEEE rounding, overflow and the float/int distinction are not modelled. The JSON writer's `0` for an empty income versus `0.0` for a parsed one is the same real here.
- A csv.DictReader row with fewer fields than the header is not modelled faithfully. In Python its missing fields are `None`: the row passes the filter, `float(x) if x else 0` gives 0 for INGTOT and whoraT, and `int(None)` raises a TypeError. The model reads a missing field as an absent key, so the same row raises a KeyError instead.
- Frame.BlankToMissing: `^\s*$` is a Unicode pattern in Python, so it also matches text made only of characters such as U+00A0, U+2003 or U+0085. The model blanks only text made of the six ASCII whitespace characters.
- Strings.IsSpace: holds only for the six ASCII whitespace characters, not for the other characters Python's `\s` matches.
- Strings.IsDigit: holds only for `0` to `9`, while `\d` in the `Trim ([A-Za-z-]+)(\d{2})` file-name pattern also matches other Unicode decimal digits.
- Aggregate.Share: a zero total gives NaN. pandas gives NaN for 0 / 0 only, and ±inf for a non-zero part over a zero total. The model has no infinite cell. That case needs weights of both signs, which the survey weights are not.
- Duplicate column labels, which pandas allows, are not modelled: a row is a map from label to cell.

## Findings

| source | as written | input that shows it | evidently intended | confidence | as-written member | corrected member |
|---|---|---|---|---|---|---|
| 01_scripts/main_pipeline.py:102-109 | the sentinel codes are replaced before the columns are coerced, so a sentinel stored as text escapes the replacement and is then coerced into the number; cleaning twice is not cleaning once | the one-row frame whose C208 cell is the text "99": one pass gives the age 99, a second pass gives NaN | coerce first, then replace, as `lima/data_cleaning_script.py:59-63` does, which is idempotent; `MainPipeline.PipelineCorrected` runs the script with that order beside the as-written `MainPipeline.Pipeline` | not executed | Sanitize.SanitizeAsWrittenNotIdempotent | Sanitize.SanitizeTwiceIsOnce |
