/** What the comparison of module Differences guarantees: first about a single
    row (status rules and cell rendering), then about the whole result
    (failures, column order, one row per key, outer join, self-comparison). */
module DiffProperties {
  import opened Seqs
  import opened Cells
  import opened Outcomes
  import opened Differences

  // =====================================================================
  // One row

  /** The joined text of a row holds every text that one of its cells holds. */
  lemma {:induction false} JoinedHoldsCellText(cells: seq<Scalar>, i: nat, p: string)
    requires i < |cells| && Contains(Str(cells[i]), p)
    ensures Contains(Joined(cells), p)
  {
    if i == 0 {
      ContainsExtend([], Str(cells[0]), Joined(cells[1..]), p);
      assert [] + Str(cells[0]) + Joined(cells[1..]) == Joined(cells);
    } else {
      JoinedHoldsCellText(cells[1..], i - 1, p);
      ContainsExtend(Str(cells[0]), Joined(cells[1..]), [], p);
      assert Str(cells[0]) + Joined(cells[1..]) + [] == Joined(cells);
    }
  }

  /** Status rules: a row is NEW exactly when its old side is all absent and
      its new side has a value, DELETED in the mirror case, and otherwise
      CHANGED or UNCHANGED according to whether its joined rendered text holds
      the marker; no row keeps the provisional status BOTH. */
  lemma RowStatusRules(k: Key, before: seq<Scalar>, after: seq<Scalar>)
    requires |before| == |after|
    ensures var d := DiffRowOf(k, before, after);
      && d.key == k && |d.cells| == |before|
      && d.status != Both
      && (d.status == New <==> AllMissing(before) && AnyPresent(after))
      && (d.status == Deleted <==> AllMissing(after) && AnyPresent(before))
      && (d.status == Changed <==> Classify(before, after) == Both && Contains(Joined(d.cells), Marker))
      && (d.status == Unchanged <==> Classify(before, after) == Both && !Contains(Joined(d.cells), Marker))
  {
  }

  /** A new row shows the text of every new cell, an absent one as "". */
  lemma NewRowShowsNewSide(k: Key, before: seq<Scalar>, after: seq<Scalar>)
    requires |before| == |after| && AllMissing(before) && AnyPresent(after)
    ensures DiffRowOf(k, before, after) == DiffRow(k, New, seq(|after|, c requires 0 <= c < |after| => Text(Str(Fill(after[c])))))
  {
  }

  /** A deleted row shows the text of every old cell, an absent one as "". */
  lemma DeletedRowShowsOldSide(k: Key, before: seq<Scalar>, after: seq<Scalar>)
    requires |before| == |after| && AllMissing(after) && AnyPresent(before)
    ensures DiffRowOf(k, before, after) == DiffRow(k, Deleted, seq(|before|, c requires 0 <= c < |before| => Text(Str(Fill(before[c])))))
  {
  }

  /** A row on both sides: a cell whose filled values agree shows the new
      value; a cell whose filled values differ shows "old → new", makes the
      row CHANGED, and cutting its text at the marker gives both sides back
      when the old text holds no arrow. */
  lemma BothRowCell(k: Key, before: seq<Scalar>, after: seq<Scalar>, c: nat)
    requires |before| == |after| && c < |before| && Classify(before, after) == Both
    ensures var d := DiffRowOf(k, before, after);
      && (Fill(before[c]) == Fill(after[c]) ==> d.cells[c] == Fill(after[c]))
      && (Fill(before[c]) != Fill(after[c]) ==>
            && d.cells[c] == Text(Str(Fill(before[c])) + Marker + Str(Fill(after[c])))
            && d.status == Changed)
      && (Fill(before[c]) != Fill(after[c]) && Arrow !in Str(Fill(before[c])) ==>
            SplitAtMarker(Str(d.cells[c])) == Some((Str(Fill(before[c])), Str(Fill(after[c])))))
  {
    var d := DiffRowOf(k, before, after);
    if Fill(before[c]) != Fill(after[c]) {
      ContainsInfix(Str(Fill(before[c])), Marker, Str(Fill(after[c])));
      JoinedHoldsCellText(d.cells, c, Marker);
      if Arrow !in Str(Fill(before[c])) {
        SplitMarkerText(Str(Fill(before[c])), Str(Fill(after[c])));
      }
    }
  }

  /** Any cell that differs after filling makes a row on both sides CHANGED. */
  lemma DifferenceMakesChanged(k: Key, before: seq<Scalar>, after: seq<Scalar>)
    requires |before| == |after| && Classify(before, after) == Both
    requires exists c :: 0 <= c < |before| && Fill(before[c]) != Fill(after[c])
    ensures DiffRowOf(k, before, after).status == Changed
  {
    var c :| 0 <= c < |before| && Fill(before[c]) != Fill(after[c]);
    BothRowCell(k, before, after, c);
  }

  /** A column only the new sheet has is absent on the old side: a row on both
      sides with a non-empty value `x` there shows " → x" and is CHANGED. */
  lemma NewColumnValueIsChange(k: Key, before: seq<Scalar>, after: seq<Scalar>, c: nat)
    requires |before| == |after| && c < |before| && Classify(before, after) == Both
    requires before[c] == Missing && Fill(after[c]) != Text("")
    ensures DiffRowOf(k, before, after).cells[c] == Text(Marker + Str(after[c]))
    ensures DiffRowOf(k, before, after).status == Changed
  {
    BothRowCell(k, before, after, c);
  }

  /** The filled form of a row's cells. */
  function Filled(cells: seq<Scalar>): (r: seq<Scalar>)
    ensures |r| == |cells|
  {
    seq(|cells|, c requires 0 <= c < |cells| => Fill(cells[c]))
  }

  /** A row compared with itself keeps its filled values and is UNCHANGED,
      provided its joined text holds no marker. */
  lemma SameSidesUnchanged(k: Key, cells: seq<Scalar>)
    requires !Contains(Joined(Filled(cells)), Marker)
    ensures DiffRowOf(k, cells, cells) == DiffRow(k, Unchanged, Filled(cells))
  {
    assert !(AllMissing(cells) && AnyPresent(cells));
    assert RenderRow(Both, cells, cells) == Filled(cells);
  }

  lemma {:induction false} ShortNotContains(s: string, p: string)
    requires |s| < |p|
    ensures !Contains(s, p)
  {
    if s != [] {
      ShortNotContains(s[1..], p);
    }
  }

  /** The marker is looked for in the joined text, not cell by cell: two
      equal cells "a " and "→ b", neither holding the marker, still make an
      unchanged row CHANGED. */
  lemma MarkerAcrossCells()
    ensures var cells := [Text("a "), Text([Arrow] + " b")];
      && !Contains(Str(cells[0]), Marker) && !Contains(Str(cells[1]), Marker)
      && DiffRowOf(["1"], cells, cells).status == Changed
  {
    var cells := [Text("a "), Text([Arrow] + " b")];
    var d := DiffRowOf(["1"], cells, cells);
    assert d.cells == cells;
    assert !Contains("a ", Marker) by {
      assert "a "[0] != Marker[0];
      ShortNotContains("a "[1..], Marker);
    }
    assert !Contains([Arrow] + " b", Marker) by {
      assert ([Arrow] + " b")[0] != Marker[0];
      ShortNotContains(([Arrow] + " b")[1..], Marker);
    }
    assert cells[1..] == [cells[1]];
    assert Joined([cells[1]]) == Str(cells[1]) + Joined([]);
    assert Joined(cells) == Str(cells[0]) + Joined([cells[1]]);
    assert Joined(cells) == "a " + ([Arrow] + " b");
    assert Joined(cells) == "a" + Marker + "b";
    ContainsInfix("a", Marker, "b");
  }

  // =====================================================================
  // The whole result

  /** When the comparison fails: a key column missing from either sheet; else
      a key given to two rows of one sheet; else a sheet that already has a
      RowStatus column. */
  lemma DiffFailures(oldSheet: Table, newSheet: Table, keyCols: seq<string>)
    requires WellFormed(oldSheet) && WellFormed(newSheet)
    ensures var r := Diff(oldSheet, newSheet, keyCols);
      && ((r.Err? && r.error.MissingKeyColumn?) <==> !(HasKeyColumns(oldSheet, keyCols) && HasKeyColumns(newSheet, keyCols)))
      && (r == Err(DuplicateLabels) <==>
            HasKeyColumns(oldSheet, keyCols) && HasKeyColumns(newSheet, keyCols) &&
            !(NoDup(Keys(oldSheet, keyCols)) && NoDup(Keys(newSheet, keyCols))))
      && (r == Err(ColumnExists(StatusColumn)) <==>
            HasKeyColumns(oldSheet, keyCols) && HasKeyColumns(newSheet, keyCols) &&
            NoDup(Keys(oldSheet, keyCols)) && NoDup(Keys(newSheet, keyCols)) &&
            (StatusColumn in oldSheet.columns || StatusColumn in newSheet.columns))
  {
    if HasKeyColumns(oldSheet, keyCols) && HasKeyColumns(newSheet, keyCols) {
      var vo := ValueColumns(oldSheet, keyCols);
      var vn := ValueColumns(newSheet, keyCols);
      AbsentMembers(vo, vn, StatusColumn);
      AbsentMembers(keyCols, oldSheet.columns, StatusColumn);
      AbsentMembers(keyCols, newSheet.columns, StatusColumn);
    }
  }

  /** The unified columns are the old sheet's value columns in their own
      order, followed by the new sheet's other value columns in their order,
      each listed once; they are exactly the non-key columns of either sheet. */
  lemma UnifiedColumnsOrder(oldSheet: Table, newSheet: Table, keyCols: seq<string>)
    requires WellFormed(oldSheet) && WellFormed(newSheet)
    ensures var u := UnifiedColumns(oldSheet, newSheet, keyCols);
      var vo := ValueColumns(oldSheet, keyCols);
      && u[..|vo|] == vo
      && KeepsOrder(vo, oldSheet.columns)
      && KeepsOrder(u[|vo|..], newSheet.columns)
      && NoDup(u)
      && (forall c :: c in u <==> (c in oldSheet.columns || c in newSheet.columns) && c !in keyCols)
  {
    var u := UnifiedColumns(oldSheet, newSheet, keyCols);
    var vo := ValueColumns(oldSheet, keyCols);
    var vn := ValueColumns(newSheet, keyCols);
    AbsentNoDup(keyCols, oldSheet.columns);
    AbsentNoDup(keyCols, newSheet.columns);
    AppendNewProperties(vo, vn);
    AbsentKeepsOrder(keyCols, oldSheet.columns);
    AbsentKeepsOrder(keyCols, newSheet.columns);
    KeepsOrderTrans(u[|vo|..], vn, newSheet.columns);
    forall c ensures c in u <==> (c in oldSheet.columns || c in newSheet.columns) && c !in keyCols {
      AbsentMembers(keyCols, oldSheet.columns, c);
      AbsentMembers(keyCols, newSheet.columns, c);
    }
  }

  /** Column order: the header is the key columns, then RowStatus, then the
      unified columns, and every row has one cell per unified column. */
  lemma DiffColumnOrder(oldSheet: Table, newSheet: Table, keyCols: seq<string>)
    requires WellFormed(oldSheet) && WellFormed(newSheet)
    requires Diff(oldSheet, newSheet, keyCols).Ok?
    ensures var t := Diff(oldSheet, newSheet, keyCols).value;
      var u := UnifiedColumns(oldSheet, newSheet, keyCols);
      && t.columns == keyCols + [StatusColumn] + u
      && (forall i :: 0 <= i < |t.rows| ==> |t.rows[i].cells| == |u|)
  {
  }

  /** The result rows follow the union of keys: the old sheet's keys, then the new sheet's other keys. */
  lemma DiffRowKeys(oldSheet: Table, newSheet: Table, keyCols: seq<string>)
    requires WellFormed(oldSheet) && WellFormed(newSheet)
    requires HasKeyColumns(oldSheet, keyCols) && HasKeyColumns(newSheet, keyCols)
    requires Diff(oldSheet, newSheet, keyCols).Ok?
    ensures var t := Diff(oldSheet, newSheet, keyCols).value;
      var index := AppendNew(Keys(oldSheet, keyCols), Keys(newSheet, keyCols));
      && NoDup(Keys(oldSheet, keyCols)) && NoDup(Keys(newSheet, keyCols))
      && |t.rows| == |index| && forall i :: 0 <= i < |t.rows| ==> t.rows[i].key == index[i]
  {
  }

  /** Completeness: one result row per key of either sheet and no key twice. */
  lemma DiffOneRowPerKey(oldSheet: Table, newSheet: Table, keyCols: seq<string>)
    requires WellFormed(oldSheet) && WellFormed(newSheet)
    requires HasKeyColumns(oldSheet, keyCols) && HasKeyColumns(newSheet, keyCols)
    requires Diff(oldSheet, newSheet, keyCols).Ok?
    ensures var t := Diff(oldSheet, newSheet, keyCols).value;
      && (forall i, j :: 0 <= i < j < |t.rows| ==> t.rows[i].key != t.rows[j].key)
      && (forall k :: (exists i :: 0 <= i < |t.rows| && t.rows[i].key == k) <==>
                      k in Keys(oldSheet, keyCols) || k in Keys(newSheet, keyCols))
  {
    DiffRowKeys(oldSheet, newSheet, keyCols);
    RowsFollowKeyUnion(Diff(oldSheet, newSheet, keyCols).value.rows, Keys(oldSheet, keyCols), Keys(newSheet, keyCols));
  }

  /** Rows keyed one by one along the key union hold each key of either side exactly once. */
  lemma RowsFollowKeyUnion(rows: seq<DiffRow>, a: seq<Key>, b: seq<Key>)
    requires NoDup(a) && NoDup(b)
    requires |rows| == |AppendNew(a, b)| && forall i :: 0 <= i < |rows| ==> rows[i].key == AppendNew(a, b)[i]
    ensures forall i, j :: 0 <= i < j < |rows| ==> rows[i].key != rows[j].key
    ensures forall k :: (exists i :: 0 <= i < |rows| && rows[i].key == k) <==> k in a || k in b
  {
    var index := AppendNew(a, b);
    AppendNewProperties(a, b);
    forall k ensures (exists i :: 0 <= i < |rows| && rows[i].key == k) <==> k in index {
      if k in index {
        var i := IndexOf(index, k);
        assert rows[i].key == k;
      }
    }
  }

  /** Each result row is the row of its key compared across the two sheets
      reindexed to the unified columns. */
  lemma DiffRowsFromSides(oldSheet: Table, newSheet: Table, keyCols: seq<string>, i: nat)
    requires WellFormed(oldSheet) && WellFormed(newSheet)
    requires HasKeyColumns(oldSheet, keyCols) && HasKeyColumns(newSheet, keyCols)
    requires Diff(oldSheet, newSheet, keyCols).Ok? && i < |Diff(oldSheet, newSheet, keyCols).value.rows|
    ensures var d := Diff(oldSheet, newSheet, keyCols).value.rows[i];
      var u := UnifiedColumns(oldSheet, newSheet, keyCols);
      d == DiffRowOf(d.key, Aligned(oldSheet, keyCols, u, d.key), Aligned(newSheet, keyCols, u, d.key))
  {
  }

  /** Reindexing is an outer join: a key the sheet lacks gives an all-absent
      row, and the key of sheet row `j` gives that row's cells in the given
      value columns, absent where the sheet has no such column. */
  lemma AlignedOuterJoin(t: Table, keyCols: seq<string>, cols: seq<string>, k: Key)
    requires WellFormed(t) && HasKeyColumns(t, keyCols) && NoDup(Keys(t, keyCols))
    requires forall c :: c in cols ==> c !in keyCols
    ensures k !in Keys(t, keyCols) ==> AllMissing(Aligned(t, keyCols, cols, k))
    ensures forall j, c :: 0 <= j < |t.rows| && Keys(t, keyCols)[j] == k && 0 <= c < |cols| ==>
      Aligned(t, keyCols, cols, k)[c] == if cols[c] in t.columns then t.rows[j][IndexOf(t.columns, cols[c])] else Missing
  {
    forall j | 0 <= j < |t.rows| && Keys(t, keyCols)[j] == k ensures IndexOf(Keys(t, keyCols), k) == j {
      var p := IndexOf(Keys(t, keyCols), k);
      assert Keys(t, keyCols)[p] == Keys(t, keyCols)[j];
    }
  }

  /** The row of a key only the new sheet has, whose new row has a value, is
      NEW and shows the text of that row's cells ("" where absent). */
  lemma NewKeyRow(oldSheet: Table, newSheet: Table, keyCols: seq<string>, j: nat)
    requires WellFormed(oldSheet) && WellFormed(newSheet)
    requires HasKeyColumns(oldSheet, keyCols) && HasKeyColumns(newSheet, keyCols)
    requires NoDup(Keys(oldSheet, keyCols)) && NoDup(Keys(newSheet, keyCols))
    requires j < |newSheet.rows| && Keys(newSheet, keyCols)[j] !in Keys(oldSheet, keyCols)
    requires exists c :: 0 <= c < |newSheet.columns| && newSheet.columns[c] !in keyCols && newSheet.rows[j][c] != Missing
    ensures var u := UnifiedColumns(oldSheet, newSheet, keyCols);
      var k := Keys(newSheet, keyCols)[j];
      var d := DiffRowOf(k, Aligned(oldSheet, keyCols, u, k), Aligned(newSheet, keyCols, u, k));
      && d.status == New
      && forall c :: 0 <= c < |u| ==>
           d.cells[c] == Text(Str(Fill(if u[c] in newSheet.columns then newSheet.rows[j][IndexOf(newSheet.columns, u[c])] else Missing)))
  {
    var u := UnifiedColumns(oldSheet, newSheet, keyCols);
    var k := Keys(newSheet, keyCols)[j];
    var before := Aligned(oldSheet, keyCols, u, k);
    var after := Aligned(newSheet, keyCols, u, k);
    UnifiedNotKeys(oldSheet, newSheet, keyCols);
    AlignedOuterJoin(oldSheet, keyCols, u, k);
    AlignedOuterJoin(newSheet, keyCols, u, k);
    var c :| 0 <= c < |newSheet.columns| && newSheet.columns[c] !in keyCols && newSheet.rows[j][c] != Missing;
    var name := newSheet.columns[c];
    UnifiedColumnsOrder(oldSheet, newSheet, keyCols);
    assert name in u;
    var p := IndexOf(u, name);
    assert IndexOf(newSheet.columns, name) == c by {
      var q := IndexOf(newSheet.columns, name);
      assert newSheet.columns[q] == newSheet.columns[c];
    }
    assert after[p] != Missing;
    NewRowShowsNewSide(k, before, after);
  }

  /** The row of a key only the old sheet has, whose old row has a value, is
      DELETED and shows the text of that row's cells ("" where absent). */
  lemma DeletedKeyRow(oldSheet: Table, newSheet: Table, keyCols: seq<string>, j: nat)
    requires WellFormed(oldSheet) && WellFormed(newSheet)
    requires HasKeyColumns(oldSheet, keyCols) && HasKeyColumns(newSheet, keyCols)
    requires NoDup(Keys(oldSheet, keyCols)) && NoDup(Keys(newSheet, keyCols))
    requires j < |oldSheet.rows| && Keys(oldSheet, keyCols)[j] !in Keys(newSheet, keyCols)
    requires exists c :: 0 <= c < |oldSheet.columns| && oldSheet.columns[c] !in keyCols && oldSheet.rows[j][c] != Missing
    ensures var u := UnifiedColumns(oldSheet, newSheet, keyCols);
      var k := Keys(oldSheet, keyCols)[j];
      var d := DiffRowOf(k, Aligned(oldSheet, keyCols, u, k), Aligned(newSheet, keyCols, u, k));
      && d.status == Deleted
      && forall c :: 0 <= c < |u| ==>
           d.cells[c] == Text(Str(Fill(if u[c] in oldSheet.columns then oldSheet.rows[j][IndexOf(oldSheet.columns, u[c])] else Missing)))
  {
    var u := UnifiedColumns(oldSheet, newSheet, keyCols);
    var k := Keys(oldSheet, keyCols)[j];
    var before := Aligned(oldSheet, keyCols, u, k);
    var after := Aligned(newSheet, keyCols, u, k);
    UnifiedNotKeys(oldSheet, newSheet, keyCols);
    AlignedOuterJoin(oldSheet, keyCols, u, k);
    AlignedOuterJoin(newSheet, keyCols, u, k);
    var c :| 0 <= c < |oldSheet.columns| && oldSheet.columns[c] !in keyCols && oldSheet.rows[j][c] != Missing;
    var name := oldSheet.columns[c];
    UnifiedColumnsOrder(oldSheet, newSheet, keyCols);
    assert name in u;
    var p := IndexOf(u, name);
    assert IndexOf(oldSheet.columns, name) == c by {
      var q := IndexOf(oldSheet.columns, name);
      assert oldSheet.columns[q] == oldSheet.columns[c];
    }
    assert before[p] != Missing;
    DeletedRowShowsOldSide(k, before, after);
  }

  /** In the result, a key only the new sheet has, whose new row has a value,
      gives a NEW row showing the text of that row's cells ("" where absent). */
  lemma KeyOnlyInNew(oldSheet: Table, newSheet: Table, keyCols: seq<string>, i: nat, j: nat)
    requires WellFormed(oldSheet) && WellFormed(newSheet)
    requires HasKeyColumns(oldSheet, keyCols) && HasKeyColumns(newSheet, keyCols)
    requires Diff(oldSheet, newSheet, keyCols).Ok? && i < |Diff(oldSheet, newSheet, keyCols).value.rows|
    requires j < |newSheet.rows|
    requires Diff(oldSheet, newSheet, keyCols).value.rows[i].key == Keys(newSheet, keyCols)[j]
    requires Keys(newSheet, keyCols)[j] !in Keys(oldSheet, keyCols)
    requires exists c :: 0 <= c < |newSheet.columns| && newSheet.columns[c] !in keyCols && newSheet.rows[j][c] != Missing
    ensures var d := Diff(oldSheet, newSheet, keyCols).value.rows[i];
      var u := UnifiedColumns(oldSheet, newSheet, keyCols);
      && d.status == New
      && forall c :: 0 <= c < |u| ==>
           d.cells[c] == Text(Str(Fill(if u[c] in newSheet.columns then newSheet.rows[j][IndexOf(newSheet.columns, u[c])] else Missing)))
  {
    DiffRowKeys(oldSheet, newSheet, keyCols);
    DiffRowsFromSides(oldSheet, newSheet, keyCols, i);
    NewKeyRow(oldSheet, newSheet, keyCols, j);
  }

  /** In the result, a key only the old sheet has, whose old row has a value,
      gives a DELETED row showing the text of that row's cells ("" where absent). */
  lemma KeyOnlyInOld(oldSheet: Table, newSheet: Table, keyCols: seq<string>, i: nat, j: nat)
    requires WellFormed(oldSheet) && WellFormed(newSheet)
    requires HasKeyColumns(oldSheet, keyCols) && HasKeyColumns(newSheet, keyCols)
    requires Diff(oldSheet, newSheet, keyCols).Ok? && i < |Diff(oldSheet, newSheet, keyCols).value.rows|
    requires j < |oldSheet.rows|
    requires Diff(oldSheet, newSheet, keyCols).value.rows[i].key == Keys(oldSheet, keyCols)[j]
    requires Keys(oldSheet, keyCols)[j] !in Keys(newSheet, keyCols)
    requires exists c :: 0 <= c < |oldSheet.columns| && oldSheet.columns[c] !in keyCols && oldSheet.rows[j][c] != Missing
    ensures var d := Diff(oldSheet, newSheet, keyCols).value.rows[i];
      var u := UnifiedColumns(oldSheet, newSheet, keyCols);
      && d.status == Deleted
      && forall c :: 0 <= c < |u| ==>
           d.cells[c] == Text(Str(Fill(if u[c] in oldSheet.columns then oldSheet.rows[j][IndexOf(oldSheet.columns, u[c])] else Missing)))
  {
    DiffRowKeys(oldSheet, newSheet, keyCols);
    DiffRowsFromSides(oldSheet, newSheet, keyCols, i);
    DeletedKeyRow(oldSheet, newSheet, keyCols, j);
  }

  /** The filled value cells of a sheet row, in value-column order. */
  function FilledValues(t: Table, keyCols: seq<string>, row: seq<Scalar>): (r: seq<Scalar>)
    requires |row| == |t.columns|
    ensures |r| == |ValueColumns(t, keyCols)|
  {
    var vc := ValueColumns(t, keyCols);
    seq(|vc|, c requires 0 <= c < |vc| =>
      assert vc[c] in t.columns by { AbsentMembers(keyCols, t.columns, vc[c]); }
      Fill(row[IndexOf(t.columns, vc[c])]))
  }

  /** Comparing a sheet with itself keeps its rows in order, each UNCHANGED
      and showing its filled value cells, provided no row's joined text holds
      the marker. */
  lemma DiffAgainstItself(t: Table, keyCols: seq<string>)
    requires WellFormed(t) && HasKeyColumns(t, keyCols) && NoDup(Keys(t, keyCols))
    requires StatusColumn !in t.columns
    requires forall j :: 0 <= j < |t.rows| ==> !Contains(Joined(FilledValues(t, keyCols, t.rows[j])), Marker)
    ensures Diff(t, t, keyCols).Ok?
    ensures var d := Diff(t, t, keyCols).value;
      && d.columns == keyCols + [StatusColumn] + ValueColumns(t, keyCols)
      && |d.rows| == |t.rows|
      && forall j :: 0 <= j < |t.rows| ==>
           d.rows[j] == DiffRow(Keys(t, keyCols)[j], Unchanged, FilledValues(t, keyCols, t.rows[j]))
  {
    var ks := Keys(t, keyCols);
    var vc := ValueColumns(t, keyCols);
    AbsentAllIn(vc, vc);
    AbsentAllIn(ks, ks);
    assert UnifiedColumns(t, t, keyCols) == vc;
    assert AppendNew(ks, ks) == ks;
    assert FirstMissingKey(t.columns, t.columns, keyCols).None?;
    AbsentMembers(keyCols, t.columns, StatusColumn);
    assert StatusColumn !in vc;
    assert StatusColumn !in keyCols;
    var d := Diff(t, t, keyCols).value;
    forall j | 0 <= j < |t.rows|
      ensures d.rows[j] == DiffRow(ks[j], Unchanged, FilledValues(t, keyCols, t.rows[j]))
    {
      var k := ks[j];
      var cells := Aligned(t, keyCols, vc, k);
      forall c | c in vc ensures c !in keyCols { AbsentMembers(keyCols, t.columns, c); }
      AlignedOuterJoin(t, keyCols, vc, k);
      forall c | 0 <= c < |vc| ensures Filled(cells)[c] == FilledValues(t, keyCols, t.rows[j])[c] {
        AbsentMembers(keyCols, t.columns, vc[c]);
      }
      assert Filled(cells) == FilledValues(t, keyCols, t.rows[j]);
      SameSidesUnchanged(k, cells);
    }
  }
}
