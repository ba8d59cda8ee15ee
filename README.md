# Keboola table-import statistics — verified model of the core

The script is a single Streamlit page. For one Storage table it lists the
table's `storage.tableImportDone` events from the Keboola Storage API,
turns them into a table, and charts row counts, import durations, sizes,
row increments, schema changes and anomalies. Under the HTTP, pandas and
plotting calls sit a small amount of integer and sequence logic. This
project models that logic in Dafny and proves what it guarantees:

* `events.dfy` (module `Events`): the event record, reduced to the fields
  the pipeline reads, and row-wise concatenation of frames.
* `fetcher.dfy` (module `Fetcher`): the paging loop of `grab_events`. The
  module-level `params` dictionary is the class `Params`, whose `offset`
  field the loop rewrites in place. The API is a caller-supplied sequence
  of pages. A request at offset `o` gets page `o / 100`, and any request
  past the end of the sequence gets an empty page.
* `table.dfy` (module `Table`): the whole-column steps of `main`. These
  are the event filter, the ascending sort by `created`, `rows_delta`
  (shift, subtract, `fillna(0)`) and `schema_evolution`. `BuildTable`
  chains them as the script does. This includes the key errors it raises
  when there is nothing to tabulate. It also includes the failure when the
  filter drops a record ahead of a kept one, since the flattened columns
  are then joined to the wrong rows. `BuildTableIntended` is the same
  pipeline with the columns joined to their own rows and a per-row schema
  flag in place of the script's single comparison (see Findings).
* `anomaly.dfy` (module `Anomaly`): the relabelling of the outlier model's
  `+1`/`-1` predictions into the `anomaly` column.

Timestamps are integers that order like the ISO timestamps, and
`rowsCount` is an integer, as the script's `astype(int)` makes it.

Two places where the code does less than its evident purpose; the model
follows the code in both:

* The sort by `created` (app.py:108) uses the default algorithm of
  `sort_values`, which does not promise to keep records with equal
  timestamps in arrival order. The model sorts with a stable insertion
  sort, but its contract promises only what the code promises: ascending
  order and the same records.
* The schema-evolution chart (app.py:170-179) plots one flag per import
  against time, which only makes sense with a per-row comparison against
  the previous import. The code computes one `Series.equals` over the
  whole column and assigns that single value to every row (app.py:116).
  `BuildTable` carries that value; the per-row flag lives only in
  `BuildTableIntended` (see Findings).

## Model

| member | source | states |
|---|---|---|
| `Fetcher.Params.constructor` | app.py:34-38 | a new parameter set starts at offset 0; its `q` and `limit` are the class's fixed query and page size 100 |
| `Fetcher.Params.GrabEvents` | app.py:40-64 | the loop requests exactly the offsets 0, 100, … of `RequestCount(pages)` requests; the collected records are the concatenation of the pages answered, in request order; the offset is left at `FinalOffset(pages)` |
| `Fetcher.FirstEmpty` | app.py:57-58 | the index of the first empty page: that page is empty, every earlier page is non-empty, and it lies within the listing |
| `Fetcher.RequestCount` | app.py:47-59 | between 1 and 1000 requests are issued: up to and including the first empty page, or exactly 1000 when no page before the ceiling is empty |
| `Fetcher.FinalOffset` | app.py:57-59 | the loop always leaves the offset at or above the ceiling 100000 |
| `Fetcher.OffsetsInRange` | app.py:47-59 | every requested offset is a multiple of 100 in [0, 100000), and at most 1000 are requested |
| `Fetcher.StopsAtFirstEmpty` | app.py:49-59 | every request but the last gets a non-empty page; the last gets an empty page exactly when the listing runs out before the ceiling, so nothing is requested after the first empty page |
| `Fetcher.CollectedPrefix` | app.py:45-59 | the collected records are the first pages of the listing concatenated in order, up to the first empty page or the 1000th page |
| `Fetcher.CollectedRecords` | app.py:45-59 | a record is collected exactly when it is on one of those pages: nothing is dropped or invented |
| `Events.Concat` | app.py:55 | `pd.concat(axis=0)` of the pages: the result has as many rows as all the pages together, none for no pages; `ConcatAppend` and `ConcatMembers` state its order and its rows |
| `Events.ConcatMembers` | app.py:55 | a row is in a concatenation of frames exactly when it is in one of the frames |
| `Table.ImportsOnly` | app.py:71 | a record is in the filtered table exactly when it is in the input and its `event` is `storage.tableImportDone` |
| `Table.ImportsOnlyCounts` | app.py:71 | the filter keeps each finished-import record as often as it occurs in the input and drops every other record |
| `Table.ImportsOnlyAppend` | app.py:71 | filtering commutes with concatenation, so the kept records keep their relative order |
| `Table.ImportsOnlyIdempotent` | app.py:71 | filtering an already filtered table changes nothing |
| `Table.ImportsOnlyKeepsAll` | app.py:71 | a table of finished imports passes the filter unchanged |
| `Table.ImportsLeadPrefix` | app.py:71-96 | when no dropped record precedes a kept one, the kept rows are the first rows, labelled 0, 1, …, as the flattened columns are |
| `Table.AlignedImportsLead` | app.py:71-96 | when the kept rows are the first rows, no dropped record precedes a kept one |
| `Table.ImportsLeadAligned` | app.py:71-96 | the labels the filter keeps coincide with the flattened columns' labels 0, 1, … exactly when no dropped record precedes a kept one |
| `Table.Insert` | app.py:108 | inserting a record into a table sorted by `created` keeps it sorted and adds exactly that record |
| `Table.SortByCreated` | app.py:108 | the sorted table is ascending by `created` and is a permutation of its input |
| `Table.Shift` | app.py:110-111 | `shift()` moves every value one row down: the first row is missing and every later row holds its predecessor's value |
| `Table.Subtract` | app.py:117 | row-wise subtraction of two columns, missing wherever either operand is missing |
| `Table.FillNa` | app.py:128 | `fillna(v)` replaces exactly the missing values by `v` and keeps every present value |
| `Table.RowsDelta` | app.py:111-128 | `rows_delta` has one value per row; the first row's is 0 and every later row's is its `rowsCount` minus the previous row's |
| `Table.DeltasRebuildCounts` | app.py:111-128 | each row's count is the first row's count plus the deltas up to that row, so the deltas invert to the counts |
| `Table.DeltasSumToChange` | app.py:111-128 | the deltas of a non-empty table sum to its last count minus its first |
| `Table.SeriesEquals` | app.py:116 | `Series.equals` holds exactly when both columns have the same length and agree row by row, a missing value matching only a missing value |
| `Table.SchemaEvolutionAsWritten` | app.py:110-116 | as written, `schema_evolution` is one whole-column comparison, so every row carries the same value |
| `Table.SchemaEvolutionAsWrittenAlwaysFalse` | app.py:110-116 | as written, that value is false on every row of every non-empty table |
| `Table.SchemaEvolution` | app.py:110-116 | corrected per-row flag: unknown on the first row; on every later row, whether it imported the same columns as the row before |
| `Table.SchemaNeverChanged` | app.py:110-116 | every per-row flag says "same" exactly when all rows imported the same columns as the first |
| `Table.SchemaEvolutionExample` | app.py:110-116 | for imported columns [a,b], [a,b], [a,c] the per-row flag is unknown, same, changed, while the column as written is false, false, false |
| `Table.Enrich` | app.py:110-128 | as the script computes it: the rows keep their order, every row carries its delta with respect to its predecessor, and every row's schema flag is False |
| `Table.EnrichIntended` | app.py:110-128 | the same rows and deltas, with the per-row schema flag: unknown on the first row, then whether the row imported its predecessor's columns |
| `Table.SortedImports` | app.py:71-108 | the filtered and sorted table holds exactly the finished-import records, ascending by `created` |
| `Table.SortedKeepsEvent` | app.py:71-108 | sorting a table of finished imports yields finished imports only |
| `Table.MissingColumns` | app.py:69-107 | with the flattened columns joined to their own rows, building the table fails exactly when no finished import was collected: with no records at all the event columns are missing (app.py:69), otherwise the `rowsCount` column is (app.py:107) |
| `Table.ShapeError` | app.py:69-107 | as the script joins the flattened columns by label (app.py:79, app.py:95), building fails on those missing columns, and also exactly when there is a finished import but a dropped record precedes a kept one, which leaves a row without a `rowsCount` |
| `Table.BuildTable` | app.py:69-128 | fails exactly when there is no finished import or a dropped record precedes a kept one, with the error `ShapeError` names; otherwise the table is a permutation of the finished-import records, ascending by `created`, with the delta of each row against its predecessor and a schema flag that is False on every row, as app.py:116 assigns it |
| `Table.BuildTableIntended` | app.py:69-128 | fails exactly when there is no finished import; otherwise the same rows, order and deltas, with the per-row schema flag instead of the broadcast one |
| `Table.MisalignedExample` | app.py:71-107 | a non-import followed by a finished import makes the script fail although there is an import to tabulate, while the intended pipeline tabulates it; the same two records the other way round succeed |
| `Anomaly.Replace` | app.py:190-191 | `replace(from, to)` rewrites exactly the cells equal to `from` and keeps all others |
| `Anomaly.Relabel` | app.py:190-191 | a row shows `1` exactly when the model predicted -1 (outlier) and the "NaN" marker exactly when it predicted 1 (inlier); two rows show the same cell exactly when their predictions agree |
| `Anomaly.ReplaceOrderMatters` | app.py:190-191 | the opposite order of the two replacements would turn both classes into the marker; the script's order keeps them apart |

## Left out

- HTTP requests, JSON decoding, the request headers and the authentication token (app.py:24-33, app.py:50-52): network I/O. The responses are the `pages` parameter. Transport and authentication failures are not modelled.
- The per-request status line and the other `st.write`/`st.success`/`st.warning` output, the sidebar, the expander and the charts (app.py:20-26, app.py:41-43, app.py:51, app.py:62, app.py:130-179, app.py:193-218): presentation only. The offsets the status line shows are returned as `requested`.
- Column projection, `pd.json_normalize` flattening and the try/except column drops (app.py:69-70, app.py:73-104, app.py:119-126): they depend on the payload's shape. The record type already holds the flattened fields the later steps read. How the flattened columns' labels line up with the kept rows is modelled, by `Table.ShapeError`. The warning at app.py:97 prints a stale loop variable. The one at app.py:81 names `a` before the loop at app.py:83 binds it, so a normalisation failure there raises `UnboundLocalError` and stops the page; that failure path depends on the payload's shape and is not modelled.
- `pd.to_datetime` and `astype(int)` (app.py:106-107): library parsing. Timestamps and counts are integers in the model.
- `Table.RowsDelta`: the deltas are unbounded integers. In the script `rowsCount` is int64 after `astype(int)` (app.py:107). `shift()` inserts NaN, so `lag_rows` (app.py:111), the difference (app.py:117) and the filled column (app.py:128) are float64. The model agrees with them exactly while every count and every difference stays below 2^53 in magnitude.
- `Table.DeltasSumToChange` and `Table.DeltasRebuildCounts`: the same float64 representation and 2^53 bound apply. A float64 sum of the deltas can also round where the integer sum does not.
- `Table.ShapeError`: the failure on a dropped record ahead of a kept one depends on the pandas version. It assumes `pd.json_normalize` of a column labels its rows afresh from 0, as pandas before 3.0 does. The exception it raises (a missing value at app.py:107, or earlier, within the flattening at app.py:77-80) is not distinguished.
- `scipy.stats.zscore` (app.py:181-182): floating-point numerics.
- The `IsolationForest` fit, `decision_function` and `predict` (app.py:184-188): a randomised floating-point model. Its predictions are the input of `Relabel`.
- `Series.equals` on object columns is modelled as equality of sequences of optional values. pandas' NaN and dtype rules are not modelled beyond "a missing value equals only a missing value".
- Key errors are modelled as an error value of `BuildTable`, not as an exception that ends the page; nothing after them (charts, scoring) runs in the script either.
- `Table.SortByCreated`: the order of records with equal `created` is not specified, because the source's default sort does not fix it.

## Findings

| source | as written | input that shows it | evidently intended | confidence | as-written member | corrected member |
|---|---|---|---|---|---|---|
| app.py:110-116 | `schema_evolution` is `importedColumns.equals(lag_columns)`. This is one boolean for the whole column, assigned to every row. Row 0 compares a list with the NaN the shift inserted, so the result is False for every non-empty table. | three imports with `importedColumns` [a,b], [a,b], [a,c] give False, False, False; the same holds for any non-empty table, even one whose schema never changes | per row, whether a row imported the same columns as the previous row, unknown on the first row: unknown, True, False | likely; not executed | `Table.SchemaEvolutionAsWrittenAlwaysFalse` | `Table.BuildTableIntended` |
| app.py:71-96 | the filter keeps the row labels of the collected records, but the columns flattened out of the kept rows are labelled 0, 1, … and `pd.concat(axis=1)` joins them by label | a non-import event followed by a finished import: the import's label is 1, its flattened `rowsCount` lands on a new row 0, row 1 has none, and the page fails | the flattened fields joined to the rows they came from, so the table fails only when there is no finished import | likely for pandas before 3.0; not executed | `Table.MisalignedExample` | `Table.BuildTableIntended` |
