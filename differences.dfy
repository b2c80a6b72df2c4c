/** Key-based comparison of two versions of one sheet (utilities/differences.py).

    The specification functions below say, step by step, what the comparison
    produces; `DiffDataframe` is the imperative procedure, proved to produce
    exactly `Diff(oldSheet, newSheet, keyCols)`. Properties of `Diff` are
    proved in module DiffProperties. */
module Differences {
  import opened Seqs
  import opened Cells
  import opened Outcomes

  /** A sheet: its header and its rows, one cell per column. */
  datatype Table = Table(columns: seq<string>, rows: seq<seq<Scalar>>)

  /** Column names are distinct and every row is as wide as the header. */
  predicate WellFormed(t: Table) {
    NoDup(t.columns) && forall r :: 0 <= r < |t.rows| ==> |t.rows[r]| == |t.columns|
  }

  /** The identity of a row: the text of its key cells, in key-column order. */
  type Key = seq<string>

  /** `Both` is the provisional status of a row found on both sides; the
      final pass replaces it by `Changed` or `Unchanged`. */
  datatype Status = New | Deleted | Both | Changed | Unchanged

  /** The text written in the RowStatus column. */
  function StatusName(s: Status): (name: string)
  {
    match s
    case New => "NEW"
    case Deleted => "DELETED"
    case Both => "BOTH"
    case Changed => "CHANGED"
    case Unchanged => "UNCHANGED"
  }

  /** One row of the result: its key, its status and one rendered cell per unified column. */
  datatype DiffRow = DiffRow(key: Key, status: Status, cells: seq<Scalar>)

  /** The result: its header (key columns, RowStatus, unified columns) and its rows. */
  datatype DiffTable = DiffTable(columns: seq<string>, rows: seq<DiffRow>)

  /** The ways the comparison fails: a key column lacking from a sheet (a
      KeyError), a key given to two rows of one sheet (reindexing refuses
      duplicate labels), or a column already called RowStatus (inserting the
      status column, or moving the keys back, refuses a duplicate name). */
  datatype DiffError = MissingKeyColumn(column: string) | DuplicateLabels | ColumnExists(column: string)

  const StatusColumn: string := "RowStatus"

  // ---------------------------------------------------------------------
  // Step 1: key columns as text (lines 28-30)

  /** The first key column, in key order, that either sheet lacks; for each
      key column the old sheet is consulted before the new one. */
  function FirstMissingKey(oldCols: seq<string>, newCols: seq<string>, keyCols: seq<string>): (r: Option<string>)
    ensures r.None? <==> forall k :: k in keyCols ==> k in oldCols && k in newCols
    ensures r.Some? ==>
      exists i :: 0 <= i < |keyCols| && keyCols[i] == r.value &&
                  (r.value !in oldCols || r.value !in newCols) &&
                  forall j :: 0 <= j < i ==> keyCols[j] in oldCols && keyCols[j] in newCols
  {
    if keyCols == [] then None
    else if keyCols[0] !in oldCols || keyCols[0] !in newCols then Some(keyCols[0])
    else
      var r := FirstMissingKey(oldCols, newCols, keyCols[1..]);
      if r.Some? then
        var i :| 0 <= i < |keyCols[1..]| && keyCols[1..][i] == r.value
          && (r.value !in oldCols || r.value !in newCols)
          && forall j :: 0 <= j < i ==> keyCols[1..][j] in oldCols && keyCols[1..][j] in newCols;
        assert keyCols[i + 1] == r.value;
        assert forall j :: 0 <= j < i + 1 ==> keyCols[j] in oldCols && keyCols[j] in newCols by {
          forall j | 0 <= j < i + 1 ensures keyCols[j] in oldCols && keyCols[j] in newCols {
            if j > 0 { assert keyCols[j] == keyCols[1..][j - 1]; }
          }
        }
        r
      else
        assert forall k :: k in keyCols ==> k == keyCols[0] || k in keyCols[1..];
        r
  }

  /** The sheet with every cell of the given columns replaced by its text. */
  function Stringify(t: Table, cols: seq<string>): (r: Table)
    ensures r.columns == t.columns && |r.rows| == |t.rows|
    ensures forall i :: 0 <= i < |t.rows| ==> |r.rows[i]| == |t.rows[i]|
  {
    Table(t.columns, seq(|t.rows|, i requires 0 <= i < |t.rows| =>
      seq(|t.rows[i]|, c requires 0 <= c < |t.rows[i]| =>
        if c < |t.columns| && t.columns[c] in cols then Text(Str(t.rows[i][c])) else t.rows[i][c])))
  }

  // ---------------------------------------------------------------------
  // Steps 2 and 3: the unified columns and the union of keys (lines 33-49)

  /** The columns left once the keys become the index, in sheet order. */
  function ValueColumns(t: Table, keyCols: seq<string>): (cols: seq<string>)
  {
    Absent(keyCols, t.columns)
  }

  /** The old sheet's value columns, then the new sheet's value columns the old one lacks. */
  function UnifiedColumns(oldSheet: Table, newSheet: Table, keyCols: seq<string>): (cols: seq<string>)
  {
    AppendNew(ValueColumns(oldSheet, keyCols), ValueColumns(newSheet, keyCols))
  }

  predicate HasKeyColumns(t: Table, keyCols: seq<string>) {
    forall k :: k in keyCols ==> k in t.columns
  }

  /** The key of a row: `str()` of each key cell (line 29), so an integer
      key cell and a text key cell with the same digits give the same key. */
  function KeyOf(t: Table, keyCols: seq<string>, row: seq<Scalar>): (k: Key)
    requires HasKeyColumns(t, keyCols) && |row| == |t.columns|
    ensures |k| == |keyCols|
  {
    seq(|keyCols|, j requires 0 <= j < |keyCols| => Str(row[IndexOf(t.columns, keyCols[j])]))
  }

  /** The keys of a sheet's rows, in row order (the index set at line 33). */
  function Keys(t: Table, keyCols: seq<string>): (ks: seq<Key>)
    requires WellFormed(t) && HasKeyColumns(t, keyCols)
    ensures |ks| == |t.rows|
  {
    seq(|t.rows|, i requires 0 <= i < |t.rows| => KeyOf(t, keyCols, t.rows[i]))
  }

  /** The row of key `k` reindexed to the given columns (lines 43-49): the
      sheet's cell where the sheet has that key and that value column, and
      an absent cell everywhere else. */
  function Aligned(t: Table, keyCols: seq<string>, cols: seq<string>, k: Key): (cells: seq<Scalar>)
    requires WellFormed(t) && HasKeyColumns(t, keyCols)
    ensures |cells| == |cols|
  {
    var ks := Keys(t, keyCols);
    if k in ks then
      var row := t.rows[IndexOf(ks, k)];
      seq(|cols|, c requires 0 <= c < |cols| =>
        if cols[c] in t.columns && cols[c] !in keyCols then row[IndexOf(t.columns, cols[c])] else Missing)
    else
      seq(|cols|, c => Missing)
  }

  // ---------------------------------------------------------------------
  // Step 4: which side a row is on (lines 55-57, 88-91)

  predicate AllMissing(cells: seq<Scalar>) {
    forall c :: 0 <= c < |cells| ==> cells[c] == Missing
  }

  predicate AnyPresent(cells: seq<Scalar>) {
    exists c :: 0 <= c < |cells| && cells[c] != Missing
  }

  /** A row is new when the old side is all absent and the new side has a
      value, deleted in the mirror case, and provisionally `Both` otherwise. */
  function Classify(before: seq<Scalar>, after: seq<Scalar>): (s: Status)
    ensures s in {New, Deleted, Both}
  {
    if AllMissing(before) && AnyPresent(after) then New
    else if AllMissing(after) && AnyPresent(before) then Deleted
    else Both
  }

  // ---------------------------------------------------------------------
  // Step 5: rendering (lines 59-84)

  /** A new row shows the text of its new cell, a deleted row the text of its
      old cell; a row on both sides shows the filled new value where the
      filled values agree and the marker text where they differ. */
  function RenderCell(s: Status, before: Scalar, after: Scalar): (r: Scalar)
  {
    match s
    case New => Text(Str(Fill(after)))
    case Deleted => Text(Str(Fill(before)))
    case _ => if Fill(before) == Fill(after) then Fill(after) else Text(MarkerText(before, after))
  }

  function RenderRow(s: Status, before: seq<Scalar>, after: seq<Scalar>): (cells: seq<Scalar>)
    requires |before| == |after|
    ensures |cells| == |before|
  {
    seq(|before|, c requires 0 <= c < |before| => RenderCell(s, before[c], after[c]))
  }

  // ---------------------------------------------------------------------
  // Step 6: the final status (lines 97-103)

  /** `"".join(str(x) for x in cells)`. */
  function Joined(cells: seq<Scalar>): (s: string)
  {
    if cells == [] then "" else Str(cells[0]) + Joined(cells[1..])
  }

  /** A `Both` row is `Changed` when its joined text holds the marker and
      `Unchanged` otherwise; other statuses stay. */
  function FinalStatus(s: Status, cells: seq<Scalar>): (r: Status)
  {
    if s == Both then (if Contains(Joined(cells), Marker) then Changed else Unchanged) else s
  }

  /** The result row for key `k` with old side `before` and new side `after`. */
  function DiffRowOf(k: Key, before: seq<Scalar>, after: seq<Scalar>): (d: DiffRow)
    requires |before| == |after|
  {
    var s := Classify(before, after);
    var cells := RenderRow(s, before, after);
    DiffRow(k, FinalStatus(s, cells), cells)
  }

  /** The whole comparison of the old and the new sheet. */
  function Diff(oldSheet: Table, newSheet: Table, keyCols: seq<string>): (r: Result<DiffTable, DiffError>)
    requires WellFormed(oldSheet) && WellFormed(newSheet)
  {
    match FirstMissingKey(oldSheet.columns, newSheet.columns, keyCols)
    case Some(c) => Err(MissingKeyColumn(c))
    case None =>
      var oldKeys := Keys(oldSheet, keyCols);
      var newKeys := Keys(newSheet, keyCols);
      if !NoDup(oldKeys) || !NoDup(newKeys) then Err(DuplicateLabels)
      else
        var cols := UnifiedColumns(oldSheet, newSheet, keyCols);
        if StatusColumn in cols || StatusColumn in keyCols then Err(ColumnExists(StatusColumn))
        else
          var index := AppendNew(oldKeys, newKeys);
          Ok(DiffTable(keyCols + [StatusColumn] + cols,
            seq(|index|, i requires 0 <= i < |index| =>
              DiffRowOf(index[i], Aligned(oldSheet, keyCols, cols, index[i]), Aligned(newSheet, keyCols, cols, index[i])))))
  }

  /** A result row as it stands in the returned frame once the keys are
      moved back into columns (line 106): key texts, status name, cells. */
  function Flatten(d: DiffRow): (row: seq<Scalar>)
    ensures |row| == |d.key| + 1 + |d.cells|
    ensures forall j :: 0 <= j < |d.key| ==> row[j] == Text(d.key[j])
    ensures row[|d.key|] == Text(StatusName(d.status))
    ensures row[|d.key| + 1..] == d.cells
  {
    seq(|d.key|, j requires 0 <= j < |d.key| => Text(d.key[j])) + [Text(StatusName(d.status))] + d.cells
  }

  // =====================================================================
  // The procedure

  /** Lines 28-30: turns each key column of both sheets into text, in key
      order, failing on the first key column a sheet lacks. */
  method NormaliseKeys(oldSheet: Table, newSheet: Table, keyCols: seq<string>) returns (r: Result<(Table, Table), DiffError>)
    ensures r == match FirstMissingKey(oldSheet.columns, newSheet.columns, keyCols)
      case Some(c) => Err(MissingKeyColumn(c))
      case None => Ok((Stringify(oldSheet, keyCols), Stringify(newSheet, keyCols)))
  {
    var o, n := oldSheet, newSheet;
    StringifyNothing(oldSheet);
    StringifyNothing(newSheet);
    for i := 0 to |keyCols|
      invariant o == Stringify(oldSheet, keyCols[..i]) && n == Stringify(newSheet, keyCols[..i])
      invariant forall j :: 0 <= j < i ==> keyCols[j] in oldSheet.columns && keyCols[j] in newSheet.columns
    {
      var col := keyCols[i];
      assert keyCols[..i + 1] == keyCols[..i] + [col];
      if col !in o.columns {
        FirstMissingKeyAt(oldSheet.columns, newSheet.columns, keyCols, i);
        return Err(MissingKeyColumn(col));
      }
      StringifyStep(oldSheet, keyCols[..i], col);
      o := Stringify(o, [col]);
      if col !in n.columns {
        FirstMissingKeyAt(oldSheet.columns, newSheet.columns, keyCols, i);
        return Err(MissingKeyColumn(col));
      }
      StringifyStep(newSheet, keyCols[..i], col);
      n := Stringify(n, [col]);
    }
    assert keyCols[..|keyCols|] == keyCols;
    r := Ok((o, n));
  }

  lemma StringifyNothing(t: Table)
    ensures Stringify(t, []) == t
  {
    var s := Stringify(t, []);
    forall i | 0 <= i < |t.rows| ensures s.rows[i] == t.rows[i] { }
  }

  /** Turning one more column into text extends the set of converted columns. */
  lemma StringifyStep(t: Table, cols: seq<string>, col: string)
    ensures Stringify(Stringify(t, cols), [col]) == Stringify(t, cols + [col])
  {
    var a := Stringify(Stringify(t, cols), [col]);
    var b := Stringify(t, cols + [col]);
    forall i | 0 <= i < |t.rows| ensures a.rows[i] == b.rows[i] {
      forall c | 0 <= c < |t.rows[i]| ensures a.rows[i][c] == b.rows[i][c] { }
    }
  }

  /** When every earlier key column is in both sheets and key column `i`
      is not, that column is the first missing one. */
  lemma FirstMissingKeyAt(oldCols: seq<string>, newCols: seq<string>, keyCols: seq<string>, i: nat)
    requires i < |keyCols| && (keyCols[i] !in oldCols || keyCols[i] !in newCols)
    requires forall j :: 0 <= j < i ==> keyCols[j] in oldCols && keyCols[j] in newCols
    ensures FirstMissingKey(oldCols, newCols, keyCols) == Some(keyCols[i])
  {
    if i > 0 {
      FirstMissingKeyAt(oldCols, newCols, keyCols[1..], i - 1);
    }
  }

  /** Lines 37-40: the old columns, then each new column not yet listed. */
  method BuildColumnOrder(oldCols: seq<string>, newCols: seq<string>) returns (order: seq<string>)
    requires NoDup(newCols)
    ensures order == AppendNew(oldCols, newCols)
  {
    order := oldCols;
    for i := 0 to |newCols|
      invariant order == oldCols + Absent(oldCols, newCols[..i])
    {
      var c := newCols[i];
      assert newCols[..i + 1] == newCols[..i] + [c];
      AbsentSnoc(oldCols, newCols[..i], c);
      AbsentMembers(oldCols, newCols[..i], c);
      assert c !in newCols[..i] by {
        forall j | 0 <= j < i ensures newCols[j] != c { }
      }
      if c !in order {
        order := order + [c];
      }
    }
    assert newCols[..|newCols|] == newCols;
  }

  /** Lines 52-84: the grid of rendered cells. It starts as a frame of absent
      cells with the new-only and deleted rows filled whole; then, column by
      column, each row on both sides takes the filled new value and, where
      the filled values differ, the marker text. */
  method RenderGrid(classes: seq<Status>, olds: seq<seq<Scalar>>, news: seq<seq<Scalar>>, width: nat)
    returns (grid: seq<seq<Scalar>>)
    requires |olds| == |classes| && |news| == |classes|
    requires forall r :: 0 <= r < |classes| ==> |olds[r]| == width && |news[r]| == width
    ensures |grid| == |classes|
    ensures forall r :: 0 <= r < |classes| ==> grid[r] == RenderRow(classes[r], olds[r], news[r])
  {
    grid := seq(|classes|, r requires 0 <= r < |classes| =>
      if classes[r] == Both then seq(width, c => Missing) else RenderRow(classes[r], olds[r], news[r]));
    for col := 0 to width
      invariant |grid| == |classes|
      invariant forall r :: 0 <= r < |grid| ==> |grid[r]| == width
      invariant forall r, c :: 0 <= r < |grid| && 0 <= c < width ==>
        grid[r][c] == if classes[r] == Both && c >= col then Missing else RenderCell(classes[r], olds[r][c], news[r][c])
    {
      grid := seq(|grid|, r requires 0 <= r < |grid| =>
        if classes[r] == Both then grid[r][col := Fill(news[r][col])] else grid[r]);
      grid := seq(|grid|, r requires 0 <= r < |grid| =>
        if classes[r] == Both && Fill(olds[r][col]) != Fill(news[r][col])
        then grid[r][col := Text(MarkerText(olds[r][col], news[r][col]))] else grid[r]);
    }
    forall r | 0 <= r < |classes| ensures grid[r] == RenderRow(classes[r], olds[r], news[r]) {
      assert forall c :: 0 <= c < width ==> grid[r][c] == RenderRow(classes[r], olds[r], news[r])[c];
    }
  }

  /** Lines 88-103: every row starts with its provisional status; a second
      pass turns each `Both` row into `Changed` or `Unchanged` by looking for
      the marker in the row's joined text. */
  method ResolveStatuses(classes: seq<Status>, grid: seq<seq<Scalar>>) returns (statuses: seq<Status>)
    requires |grid| == |classes|
    ensures |statuses| == |classes|
    ensures forall r :: 0 <= r < |classes| ==> statuses[r] == FinalStatus(classes[r], grid[r])
  {
    statuses := classes;
    for r := 0 to |statuses|
      invariant |statuses| == |classes|
      invariant forall i :: 0 <= i < r ==> statuses[i] == FinalStatus(classes[i], grid[i])
      invariant forall i :: r <= i < |classes| ==> statuses[i] == classes[i]
    {
      if statuses[r] == Both {
        var rowText := Joined(grid[r]);
        if Contains(rowText, Marker) {
          statuses := statuses[r := Changed];
        } else {
          statuses := statuses[r := Unchanged];
        }
      }
    }
  }

  /** `diff_dataframe`: compares the old and the new sheet on the key columns. */
  method DiffDataframe(oldSheet: Table, newSheet: Table, keyCols: seq<string>) returns (r: Result<DiffTable, DiffError>)
    requires WellFormed(oldSheet) && WellFormed(newSheet)
    ensures r == Diff(oldSheet, newSheet, keyCols)
  {
    var normalised := NormaliseKeys(oldSheet, newSheet, keyCols);
    if normalised.Err? {
      return Err(normalised.error);
    }
    var (o, n) := normalised.value;
    assert FirstMissingKey(oldSheet.columns, newSheet.columns, keyCols).None?;
    assert o == Stringify(oldSheet, keyCols) && n == Stringify(newSheet, keyCols);
    StringifyKeepsKeys(oldSheet, keyCols);
    StringifyKeepsKeys(newSheet, keyCols);
    var oldKeys := Keys(o, keyCols);
    var newKeys := Keys(n, keyCols);
    AbsentNoDup(keyCols, oldSheet.columns);
    AbsentNoDup(keyCols, newSheet.columns);
    var cols := BuildColumnOrder(ValueColumns(o, keyCols), ValueColumns(n, keyCols));
    assert cols == UnifiedColumns(oldSheet, newSheet, keyCols);
    if !NoDup(oldKeys) || !NoDup(newKeys) {
      return Err(DuplicateLabels);
    }
    var index := AppendNew(oldKeys, newKeys);
    var olds := seq(|index|, i requires 0 <= i < |index| => Aligned(o, keyCols, cols, index[i]));
    var news := seq(|index|, i requires 0 <= i < |index| => Aligned(n, keyCols, cols, index[i]));
    var classes := seq(|index|, i requires 0 <= i < |index| => Classify(olds[i], news[i]));
    var grid := RenderGrid(classes, olds, news, |cols|);
    if StatusColumn in cols || StatusColumn in keyCols {
      return Err(ColumnExists(StatusColumn));
    }
    var statuses := ResolveStatuses(classes, grid);
    var rows := seq(|index|, i requires 0 <= i < |index| => DiffRow(index[i], statuses[i], grid[i]));
    forall i | 0 <= i < |index|
      ensures rows[i] == DiffRowOf(index[i], Aligned(oldSheet, keyCols, cols, index[i]), Aligned(newSheet, keyCols, cols, index[i]))
    {
      UnifiedNotKeys(oldSheet, newSheet, keyCols);
      StringifyKeepsAligned(oldSheet, keyCols, cols, index[i]);
      StringifyKeepsAligned(newSheet, keyCols, cols, index[i]);
    }
    r := Ok(DiffTable(keyCols + [StatusColumn] + cols, rows));
    assert Diff(oldSheet, newSheet, keyCols).Ok?;
    assert Diff(oldSheet, newSheet, keyCols).value.rows == rows;
  }

  /** Key cells turned into text give the same keys: `str` of a text is itself. */
  lemma StringifyKeepsKeys(t: Table, keyCols: seq<string>)
    requires WellFormed(t) && HasKeyColumns(t, keyCols)
    ensures WellFormed(Stringify(t, keyCols))
    ensures Keys(Stringify(t, keyCols), keyCols) == Keys(t, keyCols)
  {
    var s := Stringify(t, keyCols);
    forall i | 0 <= i < |t.rows| ensures KeyOf(s, keyCols, s.rows[i]) == KeyOf(t, keyCols, t.rows[i]) {
      forall j | 0 <= j < |keyCols| ensures s.rows[i][IndexOf(t.columns, keyCols[j])] == Text(Str(t.rows[i][IndexOf(t.columns, keyCols[j])])) { }
    }
  }

  /** No unified column is a key column. */
  lemma UnifiedNotKeys(oldSheet: Table, newSheet: Table, keyCols: seq<string>)
    ensures forall c :: c in UnifiedColumns(oldSheet, newSheet, keyCols) ==> c !in keyCols
  {
    forall c | c in UnifiedColumns(oldSheet, newSheet, keyCols) ensures c !in keyCols {
      AbsentMembers(ValueColumns(oldSheet, keyCols), ValueColumns(newSheet, keyCols), c);
      AbsentMembers(keyCols, oldSheet.columns, c);
      AbsentMembers(keyCols, newSheet.columns, c);
    }
  }

  /** Turning key cells into text leaves the value cells untouched. */
  lemma StringifyKeepsAligned(t: Table, keyCols: seq<string>, cols: seq<string>, k: Key)
    requires WellFormed(t) && HasKeyColumns(t, keyCols)
    ensures WellFormed(Stringify(t, keyCols))
    ensures Aligned(Stringify(t, keyCols), keyCols, cols, k) == Aligned(t, keyCols, cols, k)
  {
    StringifyKeepsKeys(t, keyCols);
  }
}
