# Oxygen-tank installation dashboard: metrics pipeline

This project models the metrics pipeline of the oxygen-tank installation
dashboard and proves properties about it. The dashboard takes an uploaded CSV
of per-hospital tank counts and computes everything the page then displays:

1. **Cleaning.** Each `# Tanks MoH` (required) and `# Installed` cell is
   coerced to a number. A blank or non-numeric cell becomes 0.
2. **Per-row fields.** Each hospital row gets `Remaining`, `% Completed` and,
   in the updated dashboard, `Status Type`.
3. **Totals.** The page shows four headline metrics: total required, total
   installed, total remaining and the overall completion percentage.
4. **Cluster summary.** Rows are grouped by `Cluster` and their counts summed.
   Each cluster gets a percentage. The updated dashboard also sorts the
   clusters by required count, largest first.
5. **Pie data.** The pie has two slices: installed and remaining.

Two versions of the dashboard exist. The model treats them as one pipeline
with a `Variant` flag:

- `Original` is `app.py`. Its per-row percentage is an unguarded division.
  It has no status column and does not sort the clusters.
- `Updated` is `updated_installation_dashboard_app.py`. It guards the per-row
  percentage, adds `Status Type`, sorts the clusters and labels the second
  pie slice `Not Installed`.

Modules, one per file:

- `Options` (`options.dfy`): an optional value that stands for a pandas NaN.
- `Cells` (`cells.dfy`): raw cells and `to_numeric(errors='coerce').fillna(0)`.
- `Ratio` (`ratio.dfy`): column division as pandas performs it. A nonzero
  denominator gives an exact quotient. A zero denominator gives +inf, -inf or
  NaN. The operation never raises.
- `Records` (`records.dfy`): raw and cleaned rows and the per-row derived
  fields.
- `Aggregates` (`totals.dfy`): column sums, headline metrics and the pie.
- `Clusters` (`clusters.dfy`): group-by-sum, the descending sort and the
  per-cluster percentage.
- `Dashboard` (`dashboard.dfy`): the whole pipeline for one variant.

Percentages are exact `real`s, with no floating point and no rounding. Tank
counts are integers.

Points where the code behaves differently from what a reader might expect, which the model follows:

- The per-cluster percentage is an unguarded division in both files, so a
  cluster whose summed required count is 0 gets a non-finite percentage, not 0.
- The cluster sort is pandas' default `sort_values`, which is not stable. The
  model claims only non-increasing order and permutation, not stability.
- Neither file removes duplicate hospitals, so the model has no dedupe option.
- A blank `Cluster` cell is NaN. pandas' `groupby` drops such rows by default.
  Those rows therefore count in the totals but in no cluster. The model says so
  (`Clusters.GroupBySums`). The cluster sums equal the totals exactly when every
  row has a cluster (`Clusters.ClusterSumsMatchTotals`).
- The guards are `> 0`, not `!= 0`. Coercion lets a negative count through, and
  a negative requirement then gives a guarded percentage of 0. The overall
  completion is also 0 when the total requirement is not positive
  (`Records.GuardedRefinesUnguarded`, `Aggregates.OverallCompletion`).

## Model

| member | source | states |
|---|---|---|
| Cells.ToNumeric | updated_installation_dashboard_app.py:17-18 | `to_numeric(errors='coerce')`: a number cell keeps its value, a blank cell is NaN, and a text cell is a number exactly when it is integer text |
| Cells.ParseInt | app.py:16-17 | a text cell parses exactly when it is an optional minus followed by digits, and only a minus-signed text parses negative |
| Cells.Coerce | updated_installation_dashboard_app.py:17-18 | coercion is total: a number cell keeps its value, and a blank or non-numeric cell becomes 0 |
| Cells.LeadingZerosIgnored | app.py:16-17 | leading zeros do not change the parsed value, with or without a minus sign, so "007" is 7 and "-0" is 0 |
| Cells.ParseShowRoundTrip | app.py:16-17 | parsing inverts printing: the decimal text of every integer parses back to that integer |
| Cells.NumericCellKeepsValue | updated_installation_dashboard_app.py:17-18 | a numeric cell coerces to its own value, whether it was read as a number or as its decimal text |
| Records.CleanRows | app.py:16-17 | cleaning keeps the row count, order, cluster and hospital, and replaces both counts by their coercions |
| Records.Remaining | updated_installation_dashboard_app.py:29 | remaining plus installed is required; it is not clamped, so it is negative exactly when over-installed and zero exactly when installed equals required |
| Records.GuardedPercent | updated_installation_dashboard_app.py:21-23 | where required is positive, the percent times required is 100 times installed; otherwise it is exactly 0 and no division happens |
| Records.UnguardedPercent | app.py:18 | the unguarded percentage is finite exactly when required is nonzero, and then satisfies percent times required = 100 times installed; 0/0 is NaN |
| Records.StatusOf | updated_installation_dashboard_app.py:26-28 | Completed iff installed >= required and required > 0; a row requiring nothing is never Completed |
| Records.StatusMatchesPercent | updated_installation_dashboard_app.py:21-29 | the status agrees with the other derived columns: Completed iff required > 0 and the guarded percent reaches 100, and iff required > 0 and remaining <= 0 |
| Records.GuardedPercentBounds | updated_installation_dashboard_app.py:21-23 | for 0 <= installed <= required the guarded percent lies in [0, 100], and it is 100 exactly when the row is fully installed |
| Records.GuardedRefinesUnguarded | updated_installation_dashboard_app.py:21-23 | the guarded and unguarded percentages agree when required > 0; for required == 0 the guarded one is 0 and the unguarded one is not finite; for a negative required they agree only when nothing is installed |
| Ratio.Divide | app.py:18 | column division never raises: finite with quotient times denominator = numerator when the denominator is nonzero, and otherwise +inf, -inf or NaN by the numerator's sign |
| Ratio.Percent | app.py:37 | the ratio times 100 is finite exactly when the denominator is nonzero, and then value times denominator = 100 times numerator |
| Aggregates.OverallCompletion | updated_installation_dashboard_app.py:35 | the overall completion is 0 when total required is not positive, and otherwise satisfies completion times total required = 100 times total installed |
| Aggregates.ComputeTotals | app.py:21-24 | the totals are the column sums, total remaining is total required minus total installed, and completion is the guarded ratio |
| Aggregates.RemainingSumsToDifference | updated_installation_dashboard_app.py:29-34 | the sum of the per-row Remaining column equals total required minus total installed, which is the total remaining |
| Aggregates.Pie | app.py:50-53 | the pie has two slices, `Installed` with total installed and the second with total remaining, and they add up to total required |
| Clusters.GroupBy | app.py:36 | the group-by has at most one row per input row, and a table whose first row has a cluster opens with that cluster's group, holding its two column sums |
| Clusters.GroupByOnePerCluster | updated_installation_dashboard_app.py:47 | the group-by has exactly one row for each cluster occurring in the table and none for any other |
| Clusters.GroupByMeaning | app.py:36 | every group row is for a cluster of the table and holds the sums of required and installed over exactly that cluster's rows |
| Clusters.GroupBySums | updated_installation_dashboard_app.py:47 | the group rows' column sums plus the rows without a cluster, which the group-by drops, make up the dataset's column sums |
| Clusters.Insert | updated_installation_dashboard_app.py:48 | inserting a row into a descending sequence keeps it descending and adds exactly that row |
| Clusters.SortByRequired | updated_installation_dashboard_app.py:48 | the sorted summary is non-increasing in summed required and is a permutation of its input |
| Clusters.InsertKeepsColumns | updated_installation_dashboard_app.py:48 | inserting a row adds its counts to the column sums |
| Clusters.InsertKeepsOccurrences | updated_installation_dashboard_app.py:48 | inserting a row adds one occurrence to its cluster and none to any other |
| Clusters.SortKeepsColumns | updated_installation_dashboard_app.py:48 | sorting does not change the column sums |
| Clusters.SortKeepsOccurrences | updated_installation_dashboard_app.py:48 | sorting does not change how often each cluster occurs |
| Clusters.Summary | updated_installation_dashboard_app.py:47-48 | the original variant's summary is the plain group-by; the updated one is a non-increasing permutation of it, of the same length |
| Clusters.SummaryFaithful | updated_installation_dashboard_app.py:47-48 | in both variants the summary has one row per cluster with that cluster's sums, and its columns plus unclustered rows equal the totals; the updated summary is non-increasing and a permutation of the unsorted group-by |
| Clusters.ClusterSumsMatchTotals | app.py:36 | when every row has a cluster, the summary's required and installed columns sum to total required and total installed |
| Clusters.WithPercent | updated_installation_dashboard_app.py:49 | the per-cluster percentage is unguarded: finite exactly where the summed required is nonzero, and then percent times required = 100 times installed |
| Clusters.Report | app.py:36-37 | the cluster chart data is the variant's summary, row for row, each row with its unguarded percentage |
| Dashboard.DeriveDetail | updated_installation_dashboard_app.py:21-29 | the detail row keeps the record, its remaining plus installed is required, and its percentage and status follow the variant |
| Dashboard.Run | updated_installation_dashboard_app.py:17-65 | the pipeline keeps one detail row per uploaded row derived from its cleaned record; its totals are the cleaned table's totals and consistent; its cluster chart is the variant's report on the cleaned table, whether or not every row has a cluster; and its pie adds up to total required |
| Dashboard.RunTotals | app.py:21-23 | the page's totals are the cleaned rows' column sums, and total remaining equals the sum of the Remaining column |
| Dashboard.RunDetails | app.py:16-19 | each detail row comes from its cleaned row, and its remaining is required minus installed; the updated variant's percentage is always finite and its status is Completed iff installed >= required > 0; the original variant's percentage is non-finite exactly where nothing is required |
| Dashboard.RunClustersMatchTotals | updated_installation_dashboard_app.py:32-49 | when every row has a cluster, the cluster chart has one row per cluster, its columns add up to the headline totals, and in the updated variant it is ordered by required count, largest first |

## Left out

- The Streamlit page has a title, a file uploader, metric widgets, markdown
  and a dataframe display. These are presentation and are not modelled. The
  "no file uploaded" prompt is also presentation.
- The Plotly charts and the unused matplotlib import are not modelled.
  Only the data handed to the charts is.
- CSV reading (`pd.read_csv`) is not modelled. The model starts from rows of
  abstract raw cells.
- Cells.ParseInt: text cells are numeric only in the form "optional minus,
  then digits". pandas accepts more, such as a leading plus, decimals,
  exponents and surrounding spaces, but the model turns those into 0.
  Fractional counts are outside the model.
- Rounding of the overall completion to 2 decimals is not modelled, and
  neither is float arithmetic. Every percentage is stated exactly, before
  rounding.
- Integer width is not modelled: counts and sums are unbounded integers.
  pandas sums an int64 column with wrap-around, and a column holding any
  blank or coerced cell is float64, exact only up to 2^53. The model's sums
  agree with pandas' only within those ranges.
- The `int()` truncation of the column sums is not modelled. Tank counts are
  integers, so the truncation never changes anything.
- Clusters.GroupBy: groups come out in the order clusters first appear.
  pandas sorts the group keys instead. That order decides the bar order of
  the original dashboard's cluster chart and the tie order of the updated
  dashboard's sort. The model claims neither.
- Clusters.SortByRequired: tie order among equal requirements is not claimed.
  pandas' default sort is not stable. The model's insertion sort happens to
  be stable.
- A missing required column raises a KeyError in both files. No error
  handling exists to model.
- Hospital deduplication is not modelled. Neither file does it.
- A blank `Hospital` cell is modelled as an ordinary string, because the
  hospital name is only displayed.
