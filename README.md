# Sheet change tracking: a Dafny model of the key-based sheet diff

The repository compares two versions of an Excel workbook, one sheet at a time,
and writes a report of what changed. This project models the two utilities at
its core and proves what they promise.

`diff_dataframe` (utilities/differences.py) compares an old and a new version
of a sheet on a list of key columns. It works in six steps:

1. It turns the key cells into text.
2. It builds the unified column order: the old sheet's columns, then the new
   sheet's other columns.
3. It aligns both sheets on the union of keys, like an outer join.
4. It classifies each row as new, deleted or on both sides, judged by whether
   each side has any value.
5. It renders the cells. Where the two sides of a cell differ, the cell shows
   `old → new`.
6. It resolves each row on both sides to CHANGED or UNCHANGED by scanning the
   row's joined text for the marker `" → "`.

`highlight_rows`, `highlight_changes` and `display_progress_list`
(utilities/formatting.py) style the report and build the progress text.

The project has seven modules:

- `Seqs` (seqs.dfy) holds sequence helpers:
  - no duplicates;
  - the first index of an element;
  - `AppendNew`, the "append what is not listed yet" rule used both for the
    column order and for the key union;
  - substring search.
- `Outcomes` (outcomes.dfy) holds the `Option` and `Result` types.
- `Cells` (cells.dfy) holds the cell value (`Missing | Text | Int`), Python's
  `str()` of a cell, `fillna("")`, the marker text, and cutting a text at the
  marker.
- `Differences` (differences.dfy) holds the data model (`Table`, `Status`,
  `DiffRow`, `DiffTable`, `DiffError`).
  - It defines the comparison step by step as specification functions, ending
    in `Diff`.
  - It holds the imperative procedure `DiffDataframe`. Its loops follow the
    source: the key-to-text loop, the column-order loop, the per-column render
    loop and the per-row status loop. It is proved to return exactly `Diff`.
- `DiffProperties` (diff_properties.dfy) proves what `Diff` guarantees:
  - the status rules and cell rendering of a single row;
  - the failure cases;
  - the column order;
  - one row per key;
  - the outer join;
  - comparing a sheet with itself.
- `Formatting` (formatting.dfy) holds the two highlighters, tied to the diff's
  rows, and the progress text built by a loop.
- `DiffScenarios` (scenarios.dfy) works three small comparisons through to
  their whole result.

Failures are modelled as `Result` errors rather than exceptions:

- `MissingKeyColumn`: a key column is missing from a sheet. This is the KeyError
  at lines 29-30. For each key column in order, the old sheet is checked before
  the new one.
- `DuplicateLabels`: two rows of one sheet share a key. `reindex` at lines 48-49
  refuses to reindex a frame with duplicate labels. The model reports this
  failure for every repeated key; see "## Left out" for the case pandas lets
  through.
- `ColumnExists("RowStatus")`: a sheet already has a RowStatus column. `insert`
  at line 94 refuses this for a value column, and `reset_index` at line 106
  for a key column.

The checks come in the order of the lines that would raise: 29-30, then 48-49,
then 94 and 106.

Three points of the code decide the result's shape:

- The comment at line 93 says RowStatus goes first, after the index keys.
  `insert` at line 94 puts it at position 0 among the value columns, and
  `reset_index` at line 106 then puts the key columns in front of it. So the
  returned frame lists the key columns, then RowStatus, then the unified
  columns.
- Lines 99-100 join the `str()` of every rendered cell into one text and look
  for the marker in it. They do not look cell by cell. So two equal cells
  `"a "` and `"→ b"` make a row CHANGED, because their joined text is
  `"a → b"`. `DiffProperties.MarkerAcrossCells` shows this. Any differing cell
  does force CHANGED (`DiffProperties.DifferenceMakesChanged`).
- Line 78 compares the cells of rows on both sides as values after
  `fillna("")`, not as text. An integer 10 against the text "10" counts as a
  difference and renders as `10 → 10`. Key cells, by contrast, are compared as
  text (line 29).

Some lemmas in the table only unfold a definition: NewRowShowsNewSide,
DeletedRowShowsOldSide, DiffColumnOrder, DiffRowKeys and DiffRowsFromSides.
They connect the whole result to the row-level definitions, and the lemmas
that build on them carry the properties.

## Model

| member | source | states |
|---|---|---|
| Differences.DiffDataframe | utilities/differences.py:6-108 | The procedure returns exactly the comparison `Diff`: the same error in the same order of checks, or the same header and the same rows. Every property proved of `Diff` below holds of its result. |
| Differences.FirstMissingKey | utilities/differences.py:28-30 | Reports no column exactly when every key column is in both sheets. Otherwise it reports a key column that a sheet lacks, all of whose predecessors are in both sheets. |
| Differences.NormaliseKeys | utilities/differences.py:28-30 | The loop over the key columns either fails with the first key column a sheet lacks, or returns both sheets with every key cell replaced by its `str()` text. |
| Differences.StringifyKeepsKeys | utilities/differences.py:28-34 | Turning key cells into text keeps the sheet well formed and gives the same row keys: a row's key is the text of its key cells. |
| Differences.StringifyKeepsAligned | utilities/differences.py:28-49 | Turning key cells into text leaves every reindexed row unchanged. |
| Differences.BuildColumnOrder | utilities/differences.py:36-40 | The loop yields the old columns followed by each new column not yet listed, in order (`AppendNew`). |
| Seqs.KeepsOrderTrans | utilities/differences.py:36-44 | Keeping the relative order is transitive, so the new-only columns keep the new sheet's order through the step that drops its key columns. |
| Seqs.AppendNewProperties | utilities/differences.py:36-40 | The appended order keeps the first list as a prefix and has no duplicates. It holds exactly the elements of either list. The appended tail keeps the second list's relative order. |
| Differences.RenderGrid | utilities/differences.py:52-84 | The grid starts as absent cells, new and deleted rows are filled whole, and each row on both sides is filled column by column. Every row then equals its rendered row. |
| Differences.ResolveStatuses | utilities/differences.py:88-103 | The per-row pass turns each provisional BOTH into CHANGED when the row's joined text holds the marker, and into UNCHANGED otherwise. It leaves other statuses alone. |
| Differences.Classify | utilities/differences.py:55-57 | The provisional status is always one of NEW, DELETED, BOTH. |
| Differences.Flatten | utilities/differences.py:106 | A returned row holds each key text in key order, then the RowStatus text at the position after the keys, then its rendered cells; its length is the sum of the three. |
| DiffProperties.RowStatusRules | utilities/differences.py:55-103 | A row is NEW iff its old side is all absent and its new side has a value. It is DELETED iff the mirror case holds. It is CHANGED iff it is on both sides and its joined text holds the marker, and UNCHANGED iff it is on both sides and its joined text does not. No row keeps BOTH. |
| DiffProperties.NewRowShowsNewSide | utilities/differences.py:59-62 | Unfolding. A new row shows `str()` of each new cell, with an absent cell shown as "". |
| DiffProperties.DeletedRowShowsOldSide | utilities/differences.py:64-67 | Unfolding. A deleted row shows `str()` of each old cell, with an absent cell shown as "". |
| DiffProperties.BothRowCell | utilities/differences.py:69-101 | On a row on both sides, a cell whose filled values agree shows the filled new value. A cell whose values differ shows `str(old) + " → " + str(new)` and makes the row CHANGED. Cutting that text at its first marker gives both sides back when the old text holds no arrow. |
| DiffProperties.JoinedHoldsCellText | utilities/differences.py:99-100 | Any text that one cell holds is also held by the row's joined text. |
| DiffProperties.DifferenceMakesChanged | utilities/differences.py:77-101 | Any cell whose filled values differ forces a row on both sides to CHANGED. |
| DiffProperties.NewColumnValueIsChange | utilities/differences.py:42-84 | A column only the new sheet has is absent on the old side. So a non-empty value x there renders as " → x" and makes a row on both sides CHANGED. |
| DiffProperties.SameSidesUnchanged | utilities/differences.py:73-103 | A row compared with itself shows its filled values and is UNCHANGED, when its joined text holds no marker. |
| DiffProperties.ShortNotContains | utilities/differences.py:100 | A text shorter than the marker does not contain it. |
| DiffProperties.MarkerAcrossCells | utilities/differences.py:97-101 | Two equal cells "a " and "→ b" hold no marker each, yet the row is CHANGED: the marker is searched in the joined text. |
| DiffProperties.DiffFailures | utilities/differences.py:28-106 | The comparison fails with MissingKeyColumn iff a key column is missing from a sheet. Otherwise it fails with DuplicateLabels iff a sheet repeats a key. Otherwise it fails with ColumnExists("RowStatus") iff a sheet has a RowStatus column. |
| DiffProperties.UnifiedColumnsOrder | utilities/differences.py:36-44 | The unified columns are the old value columns in their own order, followed by the new sheet's other value columns in their order. Each is listed once, and the list is exactly the non-key columns of either sheet. |
| DiffProperties.DiffColumnOrder | utilities/differences.py:93-106 | Unfolding. The returned header is the key columns, then RowStatus, then the unified columns, and every row has one cell per unified column. |
| DiffProperties.DiffRowKeys | utilities/differences.py:46-52 | Unfolding. The result rows follow the key union, one per entry: the old keys in order, then the new keys the old sheet lacks. Both sheets' keys are distinct. |
| DiffProperties.RowsFollowKeyUnion | utilities/differences.py:46-52 | Rows keyed one by one along the key union hold each key of either sheet exactly once. |
| DiffProperties.DiffOneRowPerKey | utilities/differences.py:46-106 | No key appears twice among the result rows, and a key appears iff it is a key of either sheet. |
| DiffProperties.DiffRowsFromSides | utilities/differences.py:42-103 | Unfolding. Each result row is its key's row of the old and the new sheet, both reindexed to the unified columns, compared. |
| DiffProperties.AlignedOuterJoin | utilities/differences.py:42-49 | Reindexing is an outer join. A key the sheet lacks gives an all-absent row. A sheet row's key gives that row's cells, absent in the columns the sheet lacks. |
| DiffProperties.NewKeyRow | utilities/differences.py:55-62 | A key only the new sheet has, whose row has a non-key value, gives a NEW row showing `str()` of that row's cells, with "" where a cell is absent or the column is the old sheet's only. |
| DiffProperties.DeletedKeyRow | utilities/differences.py:56-67 | A key only the old sheet has, whose row has a non-key value, gives a DELETED row showing `str()` of that row's cells, with "" where a cell is absent or the column is the new sheet's only. |
| DiffProperties.KeyOnlyInNew | utilities/differences.py:55-62 | A key only the new sheet has, whose row has a non-key value, gives a NEW row showing the text of that row's cells. |
| DiffProperties.KeyOnlyInOld | utilities/differences.py:56-67 | A key only the old sheet has, whose row has a non-key value, gives a DELETED row showing the text of that row's cells. |
| DiffProperties.DiffAgainstItself | utilities/differences.py:69-103 | Comparing a sheet with itself, none of whose rows' texts holds the marker, succeeds. It keeps the value columns and the rows in order, each UNCHANGED and showing its own filled values. |
| Cells.NatText | utilities/differences.py:29-30 | The `str()` text of a whole number is a non-empty run of decimal digits with no leading zero, denoting exactly that number. |
| Cells.Fill | utilities/differences.py:70-71 | `fillna("")` never leaves a cell absent and keeps every present cell. |
| Cells.SplitAtMarker | utilities/differences.py:80-84 | Cutting a text at its first marker gives two parts that rejoin around the marker into the text. No marker starts inside the first part, so the cut is at the first occurrence. It fails iff the text holds no marker. |
| Cells.SplitMarkerText | utilities/differences.py:80-84 | A marker text whose old side holds no arrow is cut back into exactly its two sides. |
| DiffScenarios.IntegerAndTextKeysMatch | utilities/differences.py:28-34 | An integer key 2024 in the old sheet and the text "2024" in the new one name the same row, which is UNCHANGED. |
| DiffScenarios.ChangedAndNewRows | utilities/differences.py:55-103 | One row changes quantity from 10 to 12 and one row is added. The first is CHANGED with "10 → 12", the second NEW with its own values. Pandas itself prints "10.0 → 12" here, because the column gains an absent cell and becomes floating point; see "## Left out". |
| DiffScenarios.NewColumnMakesChanged | utilities/differences.py:42-103 | A column only the new sheet has, holding "x", makes an otherwise equal row CHANGED, showing " → x". |
| DiffScenarios.EmptyKeyListRepeats | utilities/differences.py:32-49 | With no key columns, a sheet of two rows compared with itself gives every row the empty key, so the comparison fails with duplicate labels. |
| Formatting.HighlightRows | utilities/formatting.py:3-17 | There is one style per entry of the row. The lookup fails iff the header has no RowStatus. |
| Formatting.HighlightDiffRow | utilities/formatting.py:3-17 | On any returned row, every entry is lightgreen for NEW, salmon for DELETED, and unstyled for CHANGED or UNCHANGED. |
| Formatting.HighlightFlatRow | utilities/formatting.py:11-17 | Under the result's header, the styles of a returned row depend on its RowStatus entry: lightgreen for NEW, salmon for DELETED, none otherwise, one per entry. |
| Formatting.HighlightChanges | utilities/formatting.py:20-28 | A cell is yellow iff its text holds the marker, and unstyled otherwise. |
| Formatting.ChangedCellHighlighted | utilities/formatting.py:20-28 | Every cell the comparison renders as "old → new" is highlighted yellow. |
| Formatting.DisplayProgressList | utilities/formatting.py:30-47 | The loop produces the header, then one line per sheet in the order given. |
| Formatting.ProgressLinesAppend | utilities/formatting.py:43-45 | The lines of two runs of sheets are the lines of the first run followed by those of the second. |
| Formatting.ProgressLineFormat | utilities/formatting.py:37-45 | A line is the status emoji, " **", the sheet name and "**  \n". Pending maps to the red circle, Processing to the orange circle, Completed to the green circle. |

## Left out

- Float formatting and dtype promotion are not modelled.
  - A column that gains absent cells becomes floating point in pandas, so 10 prints as "10.0".
  - Cells here are text, whole numbers or absent.
- NaN and `None` are both the one absent cell, whose `str()` is "nan".
- The order of the key union is replaced by a fixed order.
  - `Index.union` at line 47 sorts the keys unless the two indexes are equal or one is empty.
  - The model lists the old sheet's keys, then the new sheet's other keys, each once.
  - DiffProperties.DiffRowKeys holds for this order only. The membership and one-row-per-key facts hold for any order, and comparing a sheet with itself keeps its own key order in both.
- Some key lists pandas rejects are not modelled as failures.
  - A key list that is empty, or that names a column twice, fails in pandas while setting or resetting the index.
  - `Diff` returns a table for these when the resulting keys are distinct.
  - An empty key list over a sheet with two or more rows gives `DuplicateLabels`, because every row's key is then empty; pandas fails in `set_index` instead (DiffScenarios.EmptyKeyListRepeats).
- DiffProperties.DiffFailures: reports DuplicateLabels for every sheet that repeats a key, which pandas does not always do.
  - `reindex` skips its duplicate-label check when the target index equals the frame's own index.
  - Example: old keys "1", "1" and new key "1". The union keeps both "1"s, so the old frame already has exactly the target index and line 48 does not raise. The new index is unique, so line 49 does not raise either.
  - The program then goes on with duplicate labels. That path is not modelled; the model treats every repeated key as a failure.
- Differences.WellFormed: assumes each sheet's column names are distinct, and BuildColumnOrder requires it of the new columns. A pandas frame may repeat a name, which the loop at lines 38-40 would list once; `read_excel` renames repeated headers, so the frames the program compares meet this.
- The copies at lines 24-25 are implicit: sheets are values, so the caller's sheets are never changed.
- Arrays and in-place frame updates are not modelled. The frames are sequences of rows and the render grid is a sequence reassigned per column, so aliasing between frames does not arise.
- Cell values that are not scalars, such as nested structures, are out of contract.
- Formatting.DisplayProgressList: takes the status dictionary as a sequence of (sheet, status) pairs in its iteration order. It requires every status to be Pending, Processing or Completed; another status is a failed lookup in the source.
- Formatting.HighlightRows: takes the row as its header and its cells. It compares the status cell with the texts "NEW" and "DELETED".
- track_changes.py is not part of this model. It is the web page, the credential check, the file uploads, the Excel reading and the download button. Its column filter, which drops columns whose name contains "Days Since Upload as of", happens before the diff.
- utilities/generate_report.py is not part of this model. It writes the Excel workbook and its styles, sleeps, and updates the page's session state. Its one rule, skipping a sheet missing from either workbook, precedes the diff.
- utilities/download_image_from_github.py is not part of this model. It is a network request and image decoding.
- utilities/static_vars.py is not part of this model. It is constant configuration: the sheet names and their key columns.
