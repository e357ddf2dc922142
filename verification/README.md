# Geographies of transport modes: the per-MSOA contribution filter, the OD unfolding and the signature figures

This project models in Dafny the computational core of the `geographies_of_transport_modes` scripts.
The scripts work on commuting tables between MSOAs (Middle Layer Super Output Areas) of Great
Britain, one table per mode (car, bus, rail). The model has three parts.

1. **Contribution filter and cumulative curves.** A weight table has one column per origin MSOA and
   one row per destination MSOA. For each column the helpers do one of three things:
   - keep the destinations whose weight (`msoa_filter_absolute`) or share
     (`msoa_filter_percentage`) is above a threshold;
   - rank the destinations by weight or share and add a running sum, optionally cutting off the
     rows that do not contribute (`msoa_df_creator_cumsum_*`);
   - keep the top-ranked destinations whose running share stays below a bound
     (`msoa_filter_cumsum_percentage`).

   The plotting script draws these running sums as cumulative curves that start at 0. The signature
   preparation uses the 1% share filter:
   - it drops the Scottish MSOAs (codes containing `S0`);
   - it builds the minutes-spent table (trips × minutes, rounded);
   - it sums, averages and takes the maximum of every metric over each origin's retained
     destinations, under column names `'{agg}_{mode}_{metric}_{direction}_0.01'`.
2. **OD matrices and per-MSOA records.** A QUANT edge list (origin, destination, value) is unfolded
   into an MSOA × MSOA matrix in which unlisted pairs are missing. Every MSOA's home-to-work or
   work-to-home record gets a value column looked up from the edge list.
3. **Occupation and signature figures.** Essential-worker counts are summed per workplace and per
   home. The three mode tables are outer-merged and each mode's share of a group is computed.
   The mean commute lengths per occupation, mapped from the trip-length table, are capped at 50
   before their histograms are drawn. In the signature table, the home-to-work sums become
   whole-percent mode shares, are renamed and laid out as ternary-plot points. Each MSOA is labelled
   `'Ok'` when its `avg_rail_time_spent_home_to_work_0.01` is below 240 and `'Not ok'` otherwise.
   That column is the mean, over the destinations the 1% filter retains, of the rounded product of
   observed trips and shortest-route minutes. It is a number of trip-minutes per destination, not
   the duration of one journey, although the comment next to the check calls the bound a travel
   time of 4 hours.

Modelling conventions:
- A missing cell (pandas `NaN`) is `None` of `Missing.Value = Option<real>`:
  - sums skip missing cells, and an empty sum is 0;
  - comparisons with a missing cell are false;
  - a mean or maximum over no present cell is missing.
- `np.round` is round-half-to-even on exact reals (`Rounding`).
- `sort_values(ascending=False)` is not stable. Most contracts about a ranked frame state only
  that the ranking is a permutation of the column, ordered by the key with missing keys last, and
  any pandas run satisfies those. The exceptions, `CutOffIsPrefix`, `FilterCumSumPercentage` and
  the point clause of `PlotSeries`, are stated against the model's own order; the tie-order line
  under "Left out" says which order-free lemmas cover them.
- A frame is a list of index labels, a list of column names and one cell list per column.
- The modules follow the scripts:
  - `Column`, `Ranking`, `RunningSum`, `ContributionFilter` and `Tables`: the filter helpers;
  - `Preparation` and `SignatureTable`: the signature preparation;
  - `OdMatrix` and `BaselineStore`: the QUANT read-in;
  - `Occupation`: the occupation script;
  - `Signatures`: the signature reading script;
  - `RunConfig` and `Names`: the user switches and the name formats.

Behaviour of the scripts worth noting:
- `msoa_filter_cumsum_percentage` only prints a warning for a threshold outside [0, 1] and then
  filters anyway. It does not raise.
- `cumsum()` leaves a missing cell missing and carries the running sum on past it. It does not
  repeat the previous value.
- Ties between equal keys are not broken by destination code: the sort has no tie-break.

## Model

| member | source | states |
|---|---|---|
| Missing.Normalize | test_signatures_per_MSOA.py:527 | the 'percentage' column: a share is present exactly when the weight is present and the total is non-zero, and share × total gives back the weight |
| Missing.NormalizeSumsToOne | test_signatures_per_MSOA.py:527 | the shares of a column with a non-zero total add up to 1 |
| Missing.NormalizeNonNegative | test_signatures_per_MSOA.py:527 | shares of non-negative weights are non-negative |
| Missing.SumPermutation | test_signatures_per_MSOA.py:577-580 | reordering rows (as sorting does) does not change a column sum |
| Missing.SumDiv | test_signatures_per_MSOA.py:527 | the sum of weights each divided by d is the weight sum divided by d |
| Missing.MeanAtMostMax | signatures_preparation_for_old_files.py:546-547 | the mean of the present cells never exceeds their maximum |
| Rounding.RoundHalfEven | test_signatures_per_MSOA.py:490 | np.round: the result is within 1/2 of x, and an exact half goes to the even neighbour |
| Rounding.Round1 | test_signatures_per_MSOA.py:490 | rounding to one decimal moves a value by at most 0.05 |
| Rounding.Round1Within | signatures_preparation_for_old_files.py:417 | a percentage in [0, 100] stays in [0, 100] after rounding to one decimal |
| Ranking.Sort | test_signatures_per_MSOA.py:577 | sort_values descending: the result is a permutation of the rows, ordered by the key, missing keys last |
| Ranking.InsertSorted | test_signatures_per_MSOA.py:577 | inserting a row into a sorted frame keeps it sorted |
| RunningSum.CumSum | test_signatures_per_MSOA.py:580 | cumsum: each present cell holds the sum of all cells up to and including it, and a missing cell stays missing |
| RunningSum.CumSumMonotone | test_signatures_per_MSOA.py:580 | over non-negative cells the running sum never decreases |
| Column.WithShares | test_signatures_per_MSOA.py:527 | the frame with its 'percentage' column keeps every destination and weight; its shares are the weights over the column total |
| ContributionFilter.Summarize | test_signatures_per_MSOA.py:484-493 | the stored list, count and commuters describe exactly the kept rows; the retained percentage is within 0.05 of 100 × their share sum |
| ContributionFilter.SelectWhere | test_signatures_per_MSOA.py:530 | query keeps, in column order, exactly the rows that pass (sound and complete); each kept share is the weight over the column total |
| ContributionFilter.SelectionSummary | test_signatures_per_MSOA.py:481-493 | the destinations listed are ordered as in the column, include every passing row, and each belongs to a passing row; commuters is the passing weight; the percentage is within 0.05 of commuters over the total |
| ContributionFilter.FilterAbsolute | test_signatures_per_MSOA.py:452-495 | a destination is listed iff its weight is strictly above the threshold (missing never passes), in column order; commuters is the weight of those rows; the percentage is their share of the total, to one decimal |
| ContributionFilter.FilterPercentage | test_signatures_per_MSOA.py:498-544 | a threshold above 1 or below 0 raises (NameError on `absolute`) before anything is filtered; otherwise a destination is listed iff its share is strictly above the threshold, in column order; commuters is the weight of those rows; the retained percentage is within 0.05 of their share of the total in percent |
| ContributionFilter.ShareAboveIffWeightAbove | test_signatures_per_MSOA.py:527-530 | with a positive total, filtering on share > t is filtering on weight > t × total |
| ContributionFilter.RankedFrame | test_signatures_per_MSOA.py:573-580 | the sorted frame with its running-sum column is a ranking of the column's rows whose running sum is the cumsum of the key |
| ContributionFilter.Create | test_signatures_per_MSOA.py:547-678 | the creators: retained rows are sorted by the key and carry its running sum; without the cut-off they are all rows, with it exactly the rows with a strictly positive key; the count and commuters describe the retained rows |
| ContributionFilter.CreateKeepsAll | test_signatures_per_MSOA.py:596-606 | without the cut-off the retained count is the column length and the commuters the column total |
| ContributionFilter.CutOffIsPrefix | test_signatures_per_MSOA.py:586 | the cut-off keeps a prefix of the sorted frame |
| ContributionFilter.PositivePrefix | test_signatures_per_MSOA.py:586 | in every sorted frame the rows with a strictly positive key come first, so the `> 0` cut-off keeps a prefix of whatever order the sort produced |
| ContributionFilter.CutOffKeepsPositive | test_signatures_per_MSOA.py:586 | a destination whose key is strictly positive survives the cut-off, so the retained frame is not empty |
| ContributionFilter.CutOffEndsAtCommuters | test_signatures_per_MSOA.py:580-594 | with the cut-off on weights, a column with a positive weight keeps at least one row, and the last running sum equals the retained number of commuters |
| ContributionFilter.ZeroTotalRetainsNothing | test_signatures_per_MSOA.py:639-654 | a column summing to 0 has no positive share, so the share creator with the cut-off retains nothing |
| ContributionFilter.CumSumSelection | test_signatures_per_MSOA.py:714-723 | for non-negative weights and every ranking the unstable sort may produce, the kept rows are a prefix of that ranking, a row is kept iff its running share is below c, and the kept shares sum below c |
| ContributionFilter.CumSumSummary | test_signatures_per_MSOA.py:714-736 | for every ranking the sort may produce, the listed destinations are the top of that ranking, a row is listed iff its running share is below c, the commuters are exactly the listed rows' weights and the percentage is within 0.05 of 100 × their share sum, and both stay below c of the total |
| ContributionFilter.FilterCumSumPercentage | test_signatures_per_MSOA.py:681-738 | any threshold is accepted; the commuters are exactly the weights of the rows whose running share is below c, and the percentage is within 0.05 of 100 × their share sum; for non-negative weights the listed destinations are the top of the share ranking, exactly those rows, and they carry less than c of the trips |
| ContributionFilter.RunningSumIncreases | Dev_plotting_per_msoa.py:795-803 | when every key is positive, the running sum strictly increases down the frame |
| ContributionFilter.SeriesRises | Dev_plotting_per_msoa.py:795-807 | 0 followed by the plotted running sums rises strictly, and point k + 1 is the running sum of line k as plotted |
| ContributionFilter.PlotSeries | Dev_plotting_per_msoa.py:786-807 | the CDF series has one point per retained destination plus the origin 0; point k + 1 is the running sum of retained line k, times 100 for percentages; the series rises strictly |
| ContributionFilter.AbsoluteSeriesEnd | Dev_plotting_per_msoa.py:795-807 | the absolute curve ends at the retained number of commuters |
| ContributionFilter.PercentageSeriesEnd | Dev_plotting_per_msoa.py:799-807 | when some destination has a positive share, the percentage curve has a point past the origin and ends at 100 × retained commuters over the column total |
| Tables.PerColumn | test_signatures_per_MSOA.py:564-571 | the loop over columns stores one result per column name, computed from that column alone |
| Tables.FilterAbsoluteTable | test_signatures_per_MSOA.py:452-495 | every origin column has its absolute-filter entry |
| Tables.FilterPercentageTable | test_signatures_per_MSOA.py:498-544 | the table helper fails iff the threshold is outside [0, 1]; otherwise every origin has its share-filter entry |
| Tables.CreateCumSumAbsValueTable | Dev_plotting_per_msoa.py:417-482 | every origin column has its weight-ranked cumulative frame |
| Tables.CreateCumSumPercentageTable | Dev_plotting_per_msoa.py:485-548 | every origin column has its share-ranked cumulative frame |
| Tables.FilterCumSumPercentageTable | test_signatures_per_MSOA.py:681-738 | every origin column has its cumulative-share selection |
| RunConfig.ChooseOne | Dev_plotting_per_msoa.py:36-39 | a pair of exclusive switches succeeds iff exactly one is set, and raises a both/neither error otherwise |
| RunConfig.DirectionFlags | Dev_plotting_per_msoa.py:33-39 | home_to_work is chosen iff only it is set, work_to_home iff only it is set; otherwise an exception |
| RunConfig.SourceFlags | Dev_plotting_per_msoa.py:44-50 | observed is chosen iff only it is set, predicted iff only it is set; otherwise an exception |
| RunConfig.Selected | signatures_preparation_for_old_files.py:363-385 | the list holds, in flag order, exactly the names whose flag is on |
| RunConfig.SelectedIff | Visualise_Occupation_Essential_data.py:111-132 | with distinct names, a name is listed iff its flag is on |
| RunConfig.SelectedDistinct | Read_in_baseline_quant2.py:84-105 | a list built from distinct names has no repetitions |
| RunConfig.ModeListShape | Visualise_Occupation_Essential_data.py:111-120 | mode_list is an ordered, repetition-free selection of car, bus, rail holding exactly the switched-on modes |
| Names.ValueNameInjective | test_read_in_baseline_quant2.py:537 | different (input, mode) pairs give different value columns |
| Names.MatrixFileNameInjective | test_read_in_baseline_quant2.py:541 | different (input, mode) pairs are written to different matrix files |
| Names.RecordNameInjective | Read_in_baseline_quant2.py:646-714 | every (MSOA, direction) pair has its own record file |
| Names.OutputNameInjective | signatures_preparation_for_old_files.py:551-553 | different (aggregate, mode, metric, direction) choices give different column names |
| Names.RetainedPercentageNameDistinct | signatures_preparation_for_old_files.py:472 | the retained-percentage columns never clash with an aggregate column |
| Preparation.ContainsS0Iff | signatures_preparation_for_old_files.py:145 | str.contains('S0'): a code matches iff 'S' is directly followed by '0' somewhere |
| Preparation.NoLetterS | signatures_preparation_for_old_files.py:145 | a code without the letter 'S' (every English 'E0…' and Welsh 'W0…' code) never matches 'S0', so it is never dropped |
| Preparation.RemoveScotland | signatures_preparation_for_old_files.py:145 | the remaining codes keep their order, none contains 'S0', and every code without 'S0' remains |
| Preparation.SelectLabels | signatures_preparation_for_old_files.py:267-268 | filter(items) on both axes keeps the listed labels the table has, in list order, each cell taken from its original position; it raises pandas' reindex ValueError, rows first, exactly when an axis repeats a label and the selection on it is neither empty nor the axis itself; without repeated labels it always succeeds, and a selection keeping both axes returns the table unchanged |
| Preparation.SelectWithoutScotland | signatures_preparation_for_old_files.py:264-268 | a table without repeated labels admits the selection; a successful selection has no Scottish label on either axis and keeps every listed non-Scottish label the table had |
| Preparation.TimeSpent | signatures_preparation_for_old_files.py:332 | the product aligns by label: the result has every row and column label of either table; at each pair of labels the cell is present iff both tables have a present cell there, is whole, and is within 1/2 of trips × minutes |
| Preparation.TimeSpentSameLabels | signatures_preparation_for_old_files.py:332 | with identical distinct labels in the same order (the case the script relies on), the labels are kept and every cell is the rounded product of the cells at the same position |
| Preparation.TripFilter | signatures_preparation_for_old_files.py:409-417 | the 1% filter is the share filter at threshold 0.01; for non-negative trips its retained percentage lies in [0, 100] |
| Preparation.RetainedShareWithin | signatures_preparation_for_old_files.py:410-417 | with non-negative weights the kept shares add up to between 0 and 1 |
| Preparation.TripFilterMembership | signatures_preparation_for_old_files.py:410-415 | with distinct destination codes, a destination is retained iff its share exceeds 1% |
| Preparation.AggregateColumn | signatures_preparation_for_old_files.py:540-547 | sum over the retained destinations skips missing cells; mean and max are missing iff no retained cell is present; the mean is the sum of the retained cells over their number of present cells (`Missing.Mean`); the max bounds every retained cell and is one of them; mean ≤ max |
| Preparation.RetainedCells | signatures_preparation_for_old_files.py:541-547 | the retained cells are exactly the cells of the listed destinations |
| Preparation.TripSumIsRetainedCommuters | signatures_preparation_for_old_files.py:541-545 | summing the trip table over its 1% destinations gives the filter's retained commuters |
| SignatureTable.TripFilters | signatures_preparation_for_old_files.py:398-460 | the filter dictionaries have one entry per origin, holding that column's 1% destinations and retained percentage |
| SignatureTable.FirstMissing | signatures_preparation_for_old_files.py:541 | finds the first column without a filter entry, or reports that there is none |
| SignatureTable.AggregateMatrix | signatures_preparation_for_old_files.py:535-547 | dict_filter[col] raises KeyError iff some column lacks a filter entry; otherwise every column gets its aggregates over its own retained destinations |
| SignatureTable.TripAggregateIsRetained | signatures_preparation_for_old_files.py:520-547 | the trip sum column of a mode counts exactly the trips its 1% filter retained |
| SignatureTable.AggregateColumnKeysMembers | signatures_preparation_for_old_files.py:491-572 | a column is produced iff its mode and metric are selected, home_to_work is selected, and its direction is home_to_work (work_to_home only prints) |
| SignatureTable.AggregateColumnKeysDistinct | signatures_preparation_for_old_files.py:491-572 | distinct selections produce no column twice |
| SignatureTable.AggregateColumnNamesShape | signatures_preparation_for_old_files.py:551-553 | a name appears among the table's columns iff its key is produced, and distinct selections give distinct names |
| OdMatrix.Lookup | test_read_in_baseline_quant2.py:433-441 | the reference meaning of the edge list: an unlisted pair is missing |
| OdMatrix.LookupListed | test_read_in_baseline_quant2.py:433-441 | with unique pairs, a listed pair looks up its own value |
| OdMatrix.FirstValue | test_read_in_baseline_quant2.py:484 | a left merge on a key yields missing when no row has the key, and otherwise the value of a row with that key |
| OdMatrix.OriginColumn | test_read_in_baseline_quant2.py:462-509 | an origin's column holds the looked-up value of every destination, whether or not the origin occurs in the input |
| OdMatrix.Unfold | test_read_in_baseline_quant2.py:433-518 | the matrix has the MSOA list on both axes; the cell of origin o and destination d is the looked-up value; an origin absent from the input gets an all-missing column |
| OdMatrix.UnfoldListed | test_read_in_baseline_quant2.py:433-518 | every listed pair between two listed MSOAs lands in its own cell |
| BaselineStore.DirectionalColumn | Read_in_baseline_quant2.py:653-669 | home_to_work looks up (work, home) for each key of the home's record; work_to_home looks up (workplace, home) for each key of the workplace's record |
| BaselineStore.Fill | Read_in_baseline_quant2.py:659-669 | filling sets the value column to the looked-up values and leaves the keys and all other columns unchanged |
| BaselineStore.FillIdempotent | Read_in_baseline_quant2.py:664-669 | filling the same column twice is filling it once |
| BaselineStore.FillCommutes | Read_in_baseline_quant2.py:624-625 | columns of different inputs or modes are filled independently of order |
| BaselineStore.FillAll | Read_in_baseline_quant2.py:621-753 | after the loop every listed MSOA's record is filled once and every other record is unchanged |
| Occupation.GroupSum | Visualise_Occupation_Essential_data.py:752-786 | groupby(...).agg('sum'): one entry per key that occurs, holding for each count column the total over that key's rows |
| Occupation.GroupOccupationTotals | Visualise_Occupation_Essential_data.py:755-756 | sum_occ and sum_occ_ess of a group equal the totals of each row's nine occupation and nine essential counts |
| Occupation.ExchangeSums | Visualise_Occupation_Essential_data.py:755-756 | adding column totals equals adding row totals |
| Occupation.MergedColumnNamesSuffixed | Visualise_Occupation_Essential_data.py:803-804 | the two-step merge names every column `{col}_{mode}` for the three modes |
| Occupation.OuterMerge | Visualise_Occupation_Essential_data.py:803-807 | the outer merge keeps every key of any mode; a mode with the key contributes its values, a mode without it contributes missing cells |
| Occupation.ModeShares | Visualise_Occupation_Essential_data.py:1222-1243 | each mode's share is its value over the skip-missing sum of the three modes |
| Occupation.ModeSharesSumToOne | Visualise_Occupation_Essential_data.py:1222-1243 | the present shares add up to 1; a mode missing from the merge has a missing share and the others share the whole |
| Occupation.Clamp | Visualise_Occupation_Essential_data.py:1786 | values strictly above the limit become the limit; all other cells, missing ones included, stay as they are |
| Occupation.ClampIdempotent | Visualise_Occupation_Essential_data.py:1814 | capping twice is capping once |
| Signatures.Percent | test_signatures.py:184 | np.round(share × 100) is whole, within 1/2 of share × 100, and missing iff the share is missing |
| Signatures.PercentShares | test_signatures.py:170-184 | a mode's share is present iff its value is present and the row sum is non-zero |
| Signatures.PercentSharesAddUp | test_signatures.py:176-184 | whenever the row does not sum to 0, the whole-percent shares add up to 99, 100 or 101 |
| Signatures.PercentSharesWithin | test_signatures.py:176-184 | with non-negative values every share lies in [0, 100] |
| Signatures.ShareNameInjective | test_signatures.py:178-182 | the renaming sends different columns to different names |
| Signatures.TernaryPoints | test_signatures.py:187-196 | one point per row, in row order, laid out as (rail, bus, car) |
| Signatures.TernaryPointsNearSimplex | test_signatures.py:187-196 | the point of an MSOA whose three modes are present and do not sum to 0 has coordinates adding up to between 99 and 101 |
| Signatures.RailSelection | test_signatures.py:285 | 'Ok' iff the average rail time-spent cell (trips × minutes) is present and below 240; 'Not ok' otherwise, missing averages included |

## Left out

- Reading and writing files (CSV, pickle, feather, shapefiles), printing, timing and all plotting
  calls. The model works on the tables after they are read and ends before they are written or
  drawn. Figure layout, colour maps and London insets are not modelled.
- Floating point. All arithmetic is on exact reals, so rounding error of sums and shares is not
  modelled.
- Division of a non-zero value by a zero total. pandas gives ±infinity there. The model gives a
  missing value, as for 0/0. This case needs negative weights, which commuting counts do not have.
- Tie order of `sort_values`. pandas' default sort is not stable. The model fixes one insertion
  order, `ContributionFilter.RankedFrame`. The contracts of `Ranking.Sort`, `Create`, `RankedFrame`
  and the curve lemmas state only that the frame is a sorted permutation with running sums, so
  they hold for every order. `CutOffIsPrefix` and `FilterCumSumPercentage` are stated against
  `RankedFrame` itself, and `PlotSeries` names its points through the model's cut-off frame.
  Among destinations with equal shares at the bound, which of them `FilterCumSumPercentage` lists
  depends on the tie order. `CumSumSelection` and `CumSumSummary`
  state the same facts for every ranking that satisfies `IsCumulativeFrame`, and `PositivePrefix`
  states the cut-off prefix for every sorted frame.
- `Preparation.SelectLabels`: follows pandas 1.x, where `filter(items=...)` reindexes to
  `[r for r in items if r in labels]`, so an item listed twice is selected twice. pandas 2.x
  reindexes to `Index(items).intersection(labels)` instead, which drops repeated items. The items
  and both axes come from the MSOA names file, which lists each code once, so the two agree there.
- Duplicate (origin, destination) pairs in an edge list. `Unfold` and the record columns take the
  first matching row. pandas would add a row per duplicate and misalign the column. `LookupListed`
  and `UnfoldListed` assume unique pairs.
- `OdMatrix.Unfold`: requires a list of distinct MSOAs. The scripts take it from
  `df_MSOA_unique_values`, and a repeated label would make pandas assign the same column twice.
- `BaselineStore.FillAll`: requires every listed MSOA to have a stored record. The script opens
  each pickle file and crashes when one is missing. The block that creates the records is disabled
  code.
- `Tables.PerColumn` and the table methods require distinct column names. A repeated name would
  make `df[[col]]` return several columns.
- The work-to-home branch of the signature aggregation only prints a message, so it produces no
  columns.
- The joins that attach each block to `df_output` (`join(how='right', on='MSOA')`) and the
  final column order of the signature table are not modelled. The aggregates are modelled per
  origin column, in column order.
- `Signatures.PercentShares`: states only when each share is present. The closeness of each share
  to value / total × 100 is stated separately, by `PercentSharesNearest`.
- `ContributionFilter.PlotSeries`, `SeriesRises`, `AbsoluteSeriesEnd` and `PercentageSeriesEnd`
  model curve code the script as written never reaches. The live per-MSOA loop formats `metric` at
  Dev_plotting_per_msoa.py:778, but `metric` is bound only at line 618, inside the triple-quoted
  block 554-701. So the loop raises NameError before it reaches the curve code at 786-807. The model
  describes the curves that code would draw.
- `Preparation.TimeSpent`: models the label alignment of `df_Tobs * df_dij` by label membership
  only. When the two label lists differ, pandas sorts the union; the model lists the labels of
  the trip table first. A repeated label is looked up at its first position.
- The boxplots, histograms and descriptive statistics (`describe()`, `hist()`) of the reading
  scripts.
- Code in triple-quoted blocks and commented-out alternatives, such as the slower join variant of
  the unfolding, is not modelled.
