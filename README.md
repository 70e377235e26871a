# Monthly migration and search-interest series: a verified model

This project models the computational core of a small time-series workflow.
The workflow builds a month-indexed table from two sources:
- long-term arrivals, from a Stats NZ export whose rows are labelled `YYYYMmm`;
- search interest in New Zealand work visas, from a Google Trends export.

It then explores that table.

The model has two halves.

- **Preparing the table** (`src/data/001_process_data.py`):
  - each raw label becomes the first day of its month;
  - the sources are combined by a left fold of outer joins on `Month`;
  - the search column is renamed;
  - the raw label column is dropped;
  - `Month` becomes the index.

  The merged frame is changed in place, so it is a Dafny class, `ProcessData.Frame`. Each of its methods is specified by a pure function on the frame's contents.
- **Exploring it** (`src/visualization/visualize.py`):
  - the index-name guard of the per-column plot;
  - the two traces of the dual-axis plot;
  - the missing-value report;
  - the choice of scatter pairs;
  - the lead-lag scan, which correlates one column with another shifted by every lag from `-max_lag` to `max_lag`.

  The toolkit object keeps its frame unchanged, so it is a class with a `const` field. The scan is a method with a loop. The rest are functions of the frame.

A series is a `seq<Option<real>>`, where `None` is pandas' NaN.

`Series.shift(k)` is computed as a block of missing values followed by the part of the series that stays in range (or the reverse for a negative `k`). Its contract gives the pointwise meaning: position `i` holds `s[i-k]` when that index exists and is missing otherwise.

`Series.corr` is an abstract Pearson correlation over exact reals. It works on the pairwise-complete observations and takes no square root. A defined result carries the co-moment and the two sums of squared deviations. Cauchy–Schwarz is proved for it, so the coefficient it stands for lies in [-1, 1]. The result is a number exactly when there are at least two pairs and neither side is constant; otherwise it is undefined (NaN).

Files:
- `common.dfy`: option, result and error types, plus small helpers.
- `series.dfy`: shift and the pairwise-complete mask.
- `correlation.dfy`: the correlation and Cauchy–Schwarz.
- `toolkit.dfy`: the exploratory toolkit.
- `month_label.dfy`: month labels.
- `merge.dfy`: month-keyed tables and the outer join.
- `process_data.dfy`: the in-place steps and the script as a whole.

Code and intent differ in two places:
- **Month labels.** The label conversion the script writes is modelled as `MonthLabel.ParseAsWritten`: pandas' regular expression for `%YM%m%d`, applied to the label followed by `01`, then Python's calendar check of the fields and the timestamp range. It agrees with the evident intent on every text except an unpadded label with month digit `1`, such as `2023M1`, which it reads as October (see Findings). The rest of the model uses the corrected `MonthLabel.ParseMonthLabel`, which reads that label as January.
- **Rename of an absent column.** One might expect the rename to fail when the column is missing. The code calls `rename(columns=…)` with pandas' default `errors='ignore'`, which silently leaves the frame unchanged. The model follows the code: `ProcessData.RenameColumn` is the identity when the header is absent.

## Model

| member | source | states |
|---|---|---|
| Series.Shift | src/visualization/visualize.py:60 | same length as the input; position `i` holds `s[i-k]` when that index exists and is missing otherwise |
| Series.ShiftIdentity | src/visualization/visualize.py:42-60 | a shift by the default 0 periods returns the series unchanged, missing positions included |
| Series.ShiftBoundary | src/visualization/visualize.py:51-60 | a lag `k>0` leaves the first `k` positions missing, a lead the last `|k|`; a present value always comes from an in-range source index |
| Series.ShiftRoundTrip | src/visualization/visualize.py:185 | shifting back by `-k` restores exactly the values that stayed in range and leaves the rest missing |
| Series.ShiftCompose | src/visualization/visualize.py:185 | two shifts in the same direction equal one shift by their sum |
| Series.PositionsFromSpec | src/visualization/visualize.py:186 | the paired positions from `from` on are strictly increasing and are exactly the positions where both series are present |
| Series.PairsAtPositions | src/visualization/visualize.py:186 | the `j`-th pair is the two values at the `j`-th paired position |
| Series.CompletePairsSpec | src/visualization/visualize.py:186 | `corr` pairs exactly the positions where both series are present, in index order, each once |
| Series.ShiftedOverlapBound | src/visualization/visualize.py:185-186 | after a shift by `k`, at most `n - |k|` positions can be paired |
| Correlation.Corr | src/visualization/visualize.py:186 | a defined correlation has at least two pairs, positive spread on both sides, and co-moment squared at most the product of the spreads (coefficient in [-1, 1]) |
| Correlation.CauchySchwarz | src/visualization/visualize.py:186 | `Dot(a,b)² ≤ Dot(a,a)·Dot(b,b)` for every pair of equal-length sequences |
| Correlation.DotSelfNonNegative | src/visualization/visualize.py:186 | a sum of squared deviations is never negative |
| Correlation.ConstantHasZeroVariance | src/visualization/visualize.py:186 | a constant side has zero spread |
| Correlation.CorrDefinedness | src/visualization/visualize.py:186 | the correlation is a number if and only if there are at least two pairs and neither side is constant; otherwise NaN |
| Correlation.CorrSymmetric | src/visualization/visualize.py:186 | swapping the two series keeps the co-moment and swaps the spreads; definedness is the same both ways |
| Toolkit.IndividualPlotColumns | src/visualization/visualize.py:20-26 | columns are plotted if and only if the index is named `Month`, and then every column in order |
| Toolkit.DualAxisTraces | src/visualization/visualize.py:55-60 | `KeyError` for an absent `column1` first, then for an absent `column2`; otherwise two traces of the frame's length |
| Toolkit.DualAxisShifted | src/visualization/visualize.py:42-60 | the first trace is `column1` itself; the second is `column2` moved by `shift_periods`; with no shift it is `column2` unchanged |
| Toolkit.CountMissing | src/visualization/visualize.py:91 | a missing count never exceeds the series length |
| Toolkit.CountMissingIsMultiplicity | src/visualization/visualize.py:91 | the missing count is the number of NaN entries, i.e. NaN's multiplicity in the series |
| Toolkit.MissingCounts | src/visualization/visualize.py:91-95 | one row per column, in column order, holding its missing count and count/rows×100 |
| Toolkit.KeepMissing | src/visualization/visualize.py:96 | keeps a row if and only if its count is above zero; nothing else is added |
| Toolkit.InsertByCount | src/visualization/visualize.py:96-98 | inserting into a count-descending report keeps it descending and adds exactly that row |
| Toolkit.SortByCount | src/visualization/visualize.py:96-98 | the result is ordered by non-increasing count and is a permutation of its input |
| Toolkit.MissingReport | src/visualization/visualize.py:91-98 | the report is ordered by non-increasing count and holds no row the count table does not |
| Toolkit.MissingCountsMembers | src/visualization/visualize.py:91-95 | a row is in the count table if and only if it names a column with that column's count and share |
| Toolkit.MissingReportSpec | src/visualization/visualize.py:91-98 | the report lists exactly the columns with a missing entry, with count `0 < count ≤ rows` and share count/rows×100, by non-increasing count, and is a permutation of the filtered rows |
| Toolkit.MissingReportColumnsDistinct | src/visualization/visualize.py:91-98 | no column appears twice in the report |
| Toolkit.Combinations | src/visualization/visualize.py:149 | `n` columns give `n(n-1)/2` pairs |
| Toolkit.CombinationsMembers | src/visualization/visualize.py:149 | a pair is produced if and only if it is `(c_i, c_j)` for positions `i < j` |
| Toolkit.CombinationsDistinct | src/visualization/visualize.py:149 | over distinct columns no pair repeats and no column is paired with itself |
| Toolkit.ScatterPairs | src/visualization/visualize.py:144-149 | with both names given: `ValueError` if and only if one is not a column, else exactly that pair; otherwise all `i<j` pairs |
| Toolkit.LagRange | src/visualization/visualize.py:189 | `2·max_lag+1` lags (none for a negative bound); entry `j` is `-max_lag + j`, strictly ascending |
| Toolkit.CorrAtLag | src/visualization/visualize.py:185-186 | a defined entry at lag `k` has at least two and at most `n-|k|` paired positions, and a coefficient in [-1, 1] |
| Toolkit.LagPairing | src/visualization/visualize.py:185-186 | at lag `k`, position `i` is paired if and only if `x[i]` and `y[i-k]` are both present, and the pair holds those two values |
| Toolkit.LagZeroEntry | src/visualization/visualize.py:184-186 | the middle entry belongs to lag 0 and equals the correlation of the unshifted columns |
| Toolkit.LagDefinedness | src/visualization/visualize.py:185-186 | an entry is a number if and only if at least two positions are paired at its lag and neither side is constant over them; every lag with `|k| ≥ n-1` is NaN |
| Toolkit.CrossCorrelations | src/visualization/visualize.py:183-187 | one entry per lag of the range; every defined entry has positive spreads and stands for a coefficient in [-1, 1] |
| Toolkit.ExploratoryDataAnalysis.constructor | src/visualization/visualize.py:10-11 | the toolkit keeps the frame it is given |
| Toolkit.ExploratoryDataAnalysis.FindLeadLagRelationship | src/visualization/visualize.py:168-189 | `ValueError` if and only if a column is absent; otherwise the lags from `-max_lag` to `max_lag` and, index for index, the correlation of `col1` with `col2` shifted by that lag |
| MonthLabel.MonthAlternatives | src/data/001_process_data.py:32 | the `%m` matches are the two-digit reading of the text when it names a month `01`..`12`, then the one-digit reading `1`..`9`; each value is the number its digits spell |
| MonthLabel.DayAlternatives | src/data/001_process_data.py:32 | the `%d` matches are the two-digit reading when it names a day `01`..`31`, then the one-digit reading `1`..`9`, then a space followed by a digit `1`..`9`; each value is the number its digits spell |
| MonthLabel.FirstMatch | src/data/001_process_data.py:32 | the match is the first `%m` alternative that some `%d` alternative follows, paired with the first such `%d` alternative; there is no match only when no `%m` alternative can be followed by a day |
| MonthLabel.FirstMatchMembers | src/data/001_process_data.py:32 | the match is one of the `%m` alternatives followed by one of its `%d` alternatives |
| MonthLabel.Timestamp | src/data/001_process_data.py:32 | a date is accepted if and only if it lies between 1677-09-22 and 2262-04-11 |
| MonthLabel.ParseAsWritten | src/data/001_process_data.py:32 | whatever the pattern accepts is day 1 of a month 1..12 within the timestamp range |
| MonthLabel.AsWrittenAgreesOnCanonical | src/data/001_process_data.py:32 | on a `YYYYMmm` label with month 01..12 the pattern and the intended conversion agree |
| MonthLabel.UnpaddedMatch | src/data/001_process_data.py:32 | on an unpadded label with month digit `2`..`9` the pattern takes that digit for the month and the appended `01` for the day |
| MonthLabel.AsWrittenOnUnpadded | src/data/001_process_data.py:32 | on an unpadded label with month digit `2`..`9` the pattern and the intended conversion agree |
| MonthLabel.AsWrittenOnMonthOne | src/data/001_process_data.py:32 | on an unpadded label with month digit `1` the pattern gives October 1 of the label's year (year 0 a calendar error, out of range an error) |
| MonthLabel.AsWrittenRejectsNonLabels | src/data/001_process_data.py:32 | text that is neither a padded nor an unpadded label is a format error for the pattern too |
| MonthLabel.AsWrittenAgreesExceptMonthOne | src/data/001_process_data.py:32 | on every text other than an unpadded label with month digit `1`, the pattern and the intended conversion give the same result, errors included |
| MonthLabel.ShortLabelBecomesOctober | src/data/001_process_data.py:32 | the pattern turns `2023M1` into 2023-10-01; the intended conversion gives 2023-01-01 |
| MonthLabel.LabelMonth | src/data/001_process_data.py:32 | a label names the month 1..12 its two digits, or its one digit, spell |
| MonthLabel.ParseMonthLabel | src/data/001_process_data.py:32 | a `YYYYMmm` label with month 01..12, or an unpadded `YYYYMm` with month 1..9, becomes day 1 of that month (year 0 is a calendar error, and a date out of the timestamp range an error); any other text is a format error |
| MonthLabel.FormatMonthLabel | src/data/001_process_data.py:31-32 | formatting yields a well-formed `YYYYMmm` label |
| MonthLabel.FormatThenParse | src/data/001_process_data.py:31-32 | parsing a formatted month gives back day 1 of that month |
| MonthLabel.ParseThenFormat | src/data/001_process_data.py:31-32 | a label that parses is the formatted label of its month, once an unpadded month is padded with `0` |
| MonthLabel.FormatLabel | src/data/001_process_data.py:31-32 | formatting the year and month a label names spells that label, with a one-digit month padded to two |
| Merge.DataColumns | src/data/001_process_data.py:44 | the non-key columns are all the columns except `Month` |
| Merge.Find | src/data/001_process_data.py:44 | the row found has the month searched for; nothing is found only if no row has it |
| Merge.FindUnique | src/data/001_process_data.py:44 | with unique months, the lookup of a row's month finds that row |
| Merge.ValueAt | src/data/001_process_data.py:44 | a cell exists only at a month of the table and a non-key column |
| Merge.InsertMonth | src/data/001_process_data.py:44 | inserting a month keeps the keys strictly ascending and adds exactly that month |
| Merge.SortedMonths | src/data/001_process_data.py:44 | the join keys are strictly ascending and are exactly the given months |
| Merge.JoinRow | src/data/001_process_data.py:44 | the joined row for a month carries that month and a cell for exactly the data columns of both sides |
| Merge.OuterJoin | src/data/001_process_data.py:44 | the left columns followed by the right's non-key columns; one row for each month of the union of both sides' months, in ascending order as pandas 2.2 and later produce for `how='outer'` |
| Merge.OuterJoinWellFormed | src/data/001_process_data.py:44 | joining two shaped tables with no shared data column gives a well-formed table (unique months) whose data columns are those of both sides |
| Merge.OuterJoinKeys | src/data/001_process_data.py:44 | the join's months are the union of both sides' months, ascending |
| Merge.OuterJoinValues | src/data/001_process_data.py:44 | each side's values are kept at its months; a month only the other side has is missing in its columns; nothing exists elsewhere |
| Merge.Merged | src/data/001_process_data.py:42-44 | with a single source the fold is that source unchanged |
| Merge.MergedSpec | src/data/001_process_data.py:42-44 | the merged months are the union over all sources, ascending once two are merged; every source value is kept, and a source's columns are missing at the months it lacks |
| Merge.MergeAll | src/data/001_process_data.py:42-44 | `IndexError` if and only if there are no sources; otherwise the left fold of outer joins in list order |
| ProcessData.LabelDate | src/data/001_process_data.py:32 | a row converts if and only if its label is text that parses, and to that date |
| ProcessData.ParseLabels | src/data/001_process_data.py:32 | all labels convert, each to its own date, or the conversion fails |
| ProcessData.KeyedColumns | src/data/001_process_data.py:32 | `Month` is added to the columns, and nothing else is |
| ProcessData.WithMonthKey | src/data/001_process_data.py:32 | `KeyError` without a `month` column, `TypeError` for a numeric label, success if and only if every label converts; each row keyed by its label's month with its other cells kept |
| ProcessData.WithMonthKeyShaped | src/data/001_process_data.py:32 | the keyed table has exactly the raw non-key columns as data columns, `month` among them |
| ProcessData.RenamedHeaders | src/data/001_process_data.py:48-51 | after renaming, the headers are the old ones with `from` replaced by `to` |
| ProcessData.RenameCellsSpec | src/data/001_process_data.py:51 | each row's cell under `from` moves to `to`; every other cell stays |
| ProcessData.RenameColumn | src/data/001_process_data.py:48-51 | as many headers and rows as before, each row keeping its month; a renamed header `from` is gone |
| ProcessData.RenameColumnShaped | src/data/001_process_data.py:51 | renaming to a fresh header keeps the table shaped |
| ProcessData.RenameColumnSpec | src/data/001_process_data.py:48-51 | only the `from` header changes; months and every value stay, under the new name; an absent `from` leaves the table unchanged |
| ProcessData.DropColumnShaped | src/data/001_process_data.py:53 | dropping a non-key column keeps the table shaped |
| ProcessData.DropColumn | src/data/001_process_data.py:53 | the headers are exactly the old ones other than the dropped name; each row keeps its month |
| ProcessData.DropColumnSpec | src/data/001_process_data.py:53 | exactly that column disappears; the headers become the old ones with that name removed, and every other value stays |
| Common.WithoutKeepsOrder | src/data/001_process_data.py:53-56 | removing a header commutes with concatenation and leaves any other single header in place, so the remaining headers keep their order |
| ProcessData.SetMonthIndexSpec | src/data/001_process_data.py:56 | `Month` is no longer a column and the headers are the data columns; the rows keep their months; every row has a cell for exactly the remaining columns; values unchanged |
| ProcessData.SetMonthIndex | src/data/001_process_data.py:56 | the columns are the old ones except `Month`, and the rows (with their months) are unchanged |
| ProcessData.Frame.constructor | src/data/001_process_data.py:42-44 | the frame holds the merged table with no index yet |
| ProcessData.Frame.Rename | src/data/001_process_data.py:51 | the new contents are the renamed table; the frame stays valid |
| ProcessData.Frame.Drop | src/data/001_process_data.py:53 | `KeyError` and no change if and only if the column is absent; otherwise the contents lose exactly that column |
| ProcessData.Frame.SetIndex | src/data/001_process_data.py:56 | `KeyError` and no change if and only if `Month` is not a column; otherwise `Month` becomes the index |
| ProcessData.Processed | src/data/001_process_data.py:32-56 | fails if and only if keying the arrivals by month fails, with that error; otherwise neither `Month`, `month` nor the old search header is a column |
| ProcessData.ProcessScript | src/data/001_process_data.py:32-56 | fails if and only if the label conversion fails, with its error; otherwise a valid frame indexed by `Month` holding exactly the processed table |
| ProcessData.ProcessedSpec | src/data/001_process_data.py:32-56 | the result is indexed by the ascending union of both sources' months; `Month`, `month` and the old search header are not columns; there is one cell per column and month; each value comes from its source under its new name, and is missing where that source lacks the month |

## Left out

- Rendering: Plotly and seaborn figures, `fig.show()`, and the histogram, boxplot and pair-grid plots. Each plotting operation is reduced to the data it would draw.
- `print` of the index-name hint in the per-column plot. The model returns no columns instead.
- CSV reading (`parse_dates`, `skiprows`, `reset_index`) and the pickle export. These are file I/O. The sources enter as `ProcessData.RawTable` and `Merge.Table` values.
- Correlation.Corr: floating-point arithmetic and the square root. The model is exact real arithmetic, and the coefficient is represented by its co-moment and spreads. A rounding-level non-zero variance that pandas would turn into a number is not captured.
- Toolkit.Percentage: computed over exact reals, not floats.
- Toolkit.SortByCount: pandas sorts with an unstable quicksort, so the order among equal counts is unspecified. The model fixes one order, and only the count order and the permutation are stated.
- Toolkit.Rectangular: frames with duplicate column names are excluded.
- Toolkit.ExploratoryDataAnalysis: the missing-value report, the scatter-pair choice, the dual-axis traces and the plot guard are functions of the toolkit's frame (`MissingReport(e.df)` and so on), not instance members.
- MonthLabel.ParseAsWritten: digits are ASCII only. Python's `\d` also matches other Unicode decimal digits. The error messages pandas attaches (with the row position) are reduced to the error kinds of `Common.Error`.
- ProcessData.LabelDate: it uses the corrected `MonthLabel.ParseMonthLabel`, not the conversion as written. The two differ only on an unpadded label with month digit `1`, such as `2023M1`: the script yields October 1 and the model January 1. On every other text they agree (`MonthLabel.AsWrittenAgreesExceptMonthOne`).
- ProcessData.ParseLabels: inherits the `LabelDate` difference on `YYYYM1` labels, which become January rather than October.
- ProcessData.WithMonthKey: inherits the `LabelDate` difference on `YYYYM1` labels, which are keyed by January rather than October.
- ProcessData.Processed: inherits the `LabelDate` difference on `YYYYM1` labels, which are keyed by January rather than October.
- ProcessData.ProcessScript: inherits the `LabelDate` difference on `YYYYM1` labels, which are keyed by January rather than October.
- ProcessData.LabelDate: a missing label is rejected with a format error. pandas turns it into a not-a-time key, and not-a-time keys in the merge are not modelled.
- Merge.OuterJoin: with a month repeated within one source, pandas emits the cartesian product of the matching rows. The model uses the first matching row. The lemmas on values assume no data column is shared by two sources. pandas would otherwise add `_x`/`_y` suffixes, which are not modelled. The ascending key order is that of pandas 2.2 and later; earlier releases did not always sort the keys of an outer merge.
- ProcessData.Frame.Rename: renaming to a header that is already a column would give pandas duplicate columns, and the model excludes it. The mapping is a single entry, as the script passes. Rename and drop are modelled on the frame before the index is set, and never on the key column.
- ProcessData.ScriptInputs: the script is specified for sources that share no data column and do not already contain `India_visa_search`.
- `src/visualization/002_visualize_data.py` is a driver that only calls the toolkit. `src/visualization/003_plot_figures.py` is unused code that calls undefined functions. Neither is part of this model.

## Findings

| source | as written | input that shows it | evidently intended | confidence | as-written member | corrected member |
|---|---|---|---|---|---|---|
| src/data/001_process_data.py:32 | appends `01` and parses with `%YM%m%d`. The regular expression tries the `%m` alternative `1[0-2]` first, so a one-digit month `1` swallows the `0` of the appended day | the label `2023M1` (text `2023M101`) becomes 2023-10-01 instead of 2023-01-01; `2023M2` to `2023M9` are read correctly | an unpadded label `YYYYM1` is January, as `%m` accepts one-digit months and as `YYYYM2` to `YYYYM9` are read | medium: only unpadded labels with month digit `1` trigger it; not executed | MonthLabel.ShortLabelBecomesOctober | MonthLabel.ParseMonthLabel |
