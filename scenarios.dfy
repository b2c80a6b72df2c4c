/** Worked examples of the comparison on small sheets. */
module DiffScenarios {
  import opened Seqs
  import opened Cells
  import opened Outcomes
  import opened Differences
  import opened DiffProperties

  const YearOld: Table := Table(["Year", "Name"], [[Int(2024), Text("A")]])
  const YearNew: Table := Table(["Year", "Name"], [[Text("2024"), Text("A")]])

  lemma YearSheetsShape()
    ensures WellFormed(YearOld) && WellFormed(YearNew)
    ensures HasKeyColumns(YearOld, ["Year"]) && HasKeyColumns(YearNew, ["Year"])
    ensures FirstMissingKey(YearOld.columns, YearNew.columns, ["Year"]) == None
    ensures UnifiedColumns(YearOld, YearNew, ["Year"]) == ["Name"]
  {
    assert ValueColumns(YearOld, ["Year"]) == ["Name"];
    assert ValueColumns(YearNew, ["Year"]) == ["Name"];
  }

  lemma YearText(v: Scalar)
    requires v == Int(2024)
    ensures Str(v) == "2024"
  {
    assert NatText(2) == "2";
    assert NatText(20) == NatText(2) + "0";
    assert NatText(202) == NatText(20) + "2";
    assert NatText(2024) == NatText(202) + "4";
  }

  lemma YearSheetsKeys()
    requires WellFormed(YearOld) && WellFormed(YearNew)
    requires HasKeyColumns(YearOld, ["Year"]) && HasKeyColumns(YearNew, ["Year"])
    ensures Keys(YearOld, ["Year"]) == [["2024"]] && Keys(YearNew, ["Year"]) == [["2024"]]
  {
    YearText(YearOld.rows[0][0]);
    assert IndexOf(YearOld.columns, "Year") == 0;
    assert KeyOf(YearOld, ["Year"], YearOld.rows[0]) == ["2024"];
    assert KeyOf(YearNew, ["Year"], YearNew.rows[0]) == ["2024"];
  }

  lemma YearSheetsAligned()
    requires WellFormed(YearOld) && WellFormed(YearNew)
    requires HasKeyColumns(YearOld, ["Year"]) && HasKeyColumns(YearNew, ["Year"])
    requires Keys(YearOld, ["Year"]) == [["2024"]] && Keys(YearNew, ["Year"]) == [["2024"]]
    ensures Aligned(YearOld, ["Year"], ["Name"], ["2024"]) == [Text("A")]
    ensures Aligned(YearNew, ["Year"], ["Name"], ["2024"]) == [Text("A")]
  {
    assert IndexOf(YearOld.columns, "Name") == 1;
  }

  lemma YearUnchangedRow()
    ensures DiffRowOf(["2024"], [Text("A")], [Text("A")]) == DiffRow(["2024"], Unchanged, [Text("A")])
  {
    assert Joined([Text("A")]) == "A";
    ShortNotContains("A", Marker);
    assert Filled([Text("A")]) == [Text("A")];
    SameSidesUnchanged(["2024"], [Text("A")]);
  }

  lemma YearDiffOk(o: Table, n: Table, keyCols: seq<string>)
    requires o == YearOld && n == YearNew && keyCols == ["Year"]
    ensures WellFormed(o) && WellFormed(n)
    ensures Diff(o, n, keyCols).Ok?
  {
    YearSheetsShape();
    YearSheetsKeys();
    assert StatusColumn !in o.columns && StatusColumn !in n.columns;
    DiffFailures(o, n, keyCols);
  }

  lemma YearDiffColumns(o: Table, n: Table, keyCols: seq<string>)
    requires o == YearOld && n == YearNew && keyCols == ["Year"]
    ensures WellFormed(o) && WellFormed(n) && Diff(o, n, keyCols).Ok?
    ensures Diff(o, n, keyCols).value.columns == ["Year", "RowStatus", "Name"]
  {
    YearDiffOk(o, n, keyCols);
    YearSheetsShape();
    DiffColumnOrder(o, n, keyCols);
  }

  lemma YearDiffKeys(o: Table, n: Table, keyCols: seq<string>)
    requires o == YearOld && n == YearNew && keyCols == ["Year"]
    ensures WellFormed(o) && WellFormed(n) && Diff(o, n, keyCols).Ok?
    ensures |Diff(o, n, keyCols).value.rows| == 1
    ensures Diff(o, n, keyCols).value.rows[0].key == ["2024"]
  {
    YearDiffOk(o, n, keyCols);
    YearSheetsShape();
    YearSheetsKeys();
    AbsentAllIn([["2024"]], [["2024"]]);
    assert AppendNew([["2024"]], [["2024"]]) == [["2024"]];
    DiffRowKeys(o, n, keyCols);
  }

  lemma YearDiffRow(o: Table, n: Table, keyCols: seq<string>)
    requires o == YearOld && n == YearNew && keyCols == ["Year"]
    ensures WellFormed(o) && WellFormed(n) && Diff(o, n, keyCols).Ok?
    ensures |Diff(o, n, keyCols).value.rows| == 1
    ensures Diff(o, n, keyCols).value.rows[0] == DiffRow(["2024"], Unchanged, [Text("A")])
  {
    YearDiffKeys(o, n, keyCols);
    YearSheetsShape();
    YearSheetsKeys();
    YearSheetsAligned();
    YearUnchangedRow();
    DiffRowsFromSides(o, n, keyCols, 0);
  }

  lemma YearDiff(o: Table, n: Table, keyCols: seq<string>)
    requires o == YearOld && n == YearNew && keyCols == ["Year"]
    ensures WellFormed(o) && WellFormed(n)
    ensures Diff(o, n, keyCols) ==
      Ok(DiffTable(["Year", "RowStatus", "Name"], [DiffRow(["2024"], Unchanged, [Text("A")])]))
  {
    YearDiffColumns(o, n, keyCols);
    YearDiffRow(o, n, keyCols);
    ResultOfParts(Diff(o, n, keyCols), ["Year", "RowStatus", "Name"], [DiffRow(["2024"], Unchanged, [Text("A")])]);
  }

  /** A key stored as the integer 2024 in the old sheet and as the text
      "2024" in the new one names the same row, which is UNCHANGED. */
  lemma IntegerAndTextKeysMatch()
    ensures WellFormed(YearOld) && WellFormed(YearNew)
    ensures Diff(YearOld, YearNew, ["Year"]) ==
      Ok(DiffTable(["Year", "RowStatus", "Name"], [DiffRow(["2024"], Unchanged, [Text("A")])]))
  {
    YearDiff(YearOld, YearNew, ["Year"]);
  }

  const QtyOld: Table := Table(["ID", "Name", "Qty"], [[Int(1), Text("A"), Int(10)]])
  const QtyNew: Table := Table(["ID", "Name", "Qty"], [[Int(1), Text("A"), Int(12)], [Int(2), Text("B"), Int(5)]])

  lemma QtyWellFormed()
    ensures WellFormed(QtyOld) && WellFormed(QtyNew)
    ensures HasKeyColumns(QtyOld, ["ID"]) && HasKeyColumns(QtyNew, ["ID"])
    ensures StatusColumn !in QtyOld.columns && StatusColumn !in QtyNew.columns
  {
  }

  lemma QtyColumns()
    ensures UnifiedColumns(QtyOld, QtyNew, ["ID"]) == ["Name", "Qty"]
  {
    assert ValueColumns(QtyOld, ["ID"]) == ["Name", "Qty"];
    assert ValueColumns(QtyNew, ["ID"]) == ["Name", "Qty"];
    AbsentAllIn(["Name", "Qty"], ["Name", "Qty"]);
  }

  lemma QtyKeys()
    requires WellFormed(QtyOld) && WellFormed(QtyNew)
    requires HasKeyColumns(QtyOld, ["ID"]) && HasKeyColumns(QtyNew, ["ID"])
    ensures Keys(QtyOld, ["ID"]) == [["1"]] && Keys(QtyNew, ["ID"]) == [["1"], ["2"]]
  {
    assert IndexOf(QtyOld.columns, "ID") == 0;
    assert KeyOf(QtyOld, ["ID"], QtyOld.rows[0]) == ["1"];
    assert KeyOf(QtyNew, ["ID"], QtyNew.rows[0]) == ["1"];
    assert KeyOf(QtyNew, ["ID"], QtyNew.rows[1]) == ["2"];
  }

  lemma QtyKeyUnion()
    ensures NoDup([["1"]]) && NoDup([["1"], ["2"]])
    ensures AppendNew([["1"]], [["1"], ["2"]]) == [["1"], ["2"]]
  {
    assert Absent([["1"]], [["1"], ["2"]]) == [["2"]];
  }

  lemma QtyAligned()
    requires WellFormed(QtyOld) && WellFormed(QtyNew)
    requires HasKeyColumns(QtyOld, ["ID"]) && HasKeyColumns(QtyNew, ["ID"])
    requires Keys(QtyOld, ["ID"]) == [["1"]] && Keys(QtyNew, ["ID"]) == [["1"], ["2"]]
    ensures Aligned(QtyOld, ["ID"], ["Name", "Qty"], ["1"]) == [Text("A"), Int(10)]
    ensures Aligned(QtyNew, ["ID"], ["Name", "Qty"], ["1"]) == [Text("A"), Int(12)]
    ensures Aligned(QtyOld, ["ID"], ["Name", "Qty"], ["2"]) == [Missing, Missing]
    ensures Aligned(QtyNew, ["ID"], ["Name", "Qty"], ["2"]) == [Text("B"), Int(5)]
  {
    assert IndexOf(QtyOld.columns, "Name") == 1;
    assert IndexOf(QtyOld.columns, "Qty") == 2;
    assert IndexOf(Keys(QtyNew, ["ID"]), ["2"]) == 1;
  }

  lemma QtyChangedRow()
    ensures DiffRowOf(["1"], [Text("A"), Int(10)], [Text("A"), Int(12)])
         == DiffRow(["1"], Changed, [Text("A"), Text("10" + Marker + "12")])
  {
    var before, after := [Text("A"), Int(10)], [Text("A"), Int(12)];
    assert before[0] != Missing && after[0] != Missing;
    assert Classify(before, after) == Both;
    assert Str(Int(10)) == "10" && Str(Int(12)) == "12";
    BothRowCell(["1"], before, after, 0);
    BothRowCell(["1"], before, after, 1);
  }

  lemma QtyNewRow()
    ensures DiffRowOf(["2"], [Missing, Missing], [Text("B"), Int(5)])
         == DiffRow(["2"], New, [Text("B"), Text("5")])
  {
    assert Str(Int(5)) == "5";
    assert [Text("B"), Int(5)][0] != Missing;
    NewRowShowsNewSide(["2"], [Missing, Missing], [Text("B"), Int(5)]);
  }

  lemma QtyDiffOk(o: Table, n: Table, keyCols: seq<string>)
    requires o == QtyOld && n == QtyNew && keyCols == ["ID"]
    ensures WellFormed(o) && WellFormed(n)
    ensures Diff(o, n, keyCols).Ok?
  {
    QtyWellFormed();
    QtyKeys();
    QtyKeyUnion();
    DiffFailures(o, n, keyCols);
  }

  lemma QtyDiffColumns(o: Table, n: Table, keyCols: seq<string>)
    requires o == QtyOld && n == QtyNew && keyCols == ["ID"]
    ensures WellFormed(o) && WellFormed(n) && Diff(o, n, keyCols).Ok?
    ensures Diff(o, n, keyCols).value.columns == ["ID", "RowStatus", "Name", "Qty"]
  {
    QtyDiffOk(o, n, keyCols);
    QtyColumns();
    DiffColumnOrder(o, n, keyCols);
  }

  lemma QtyDiffKeys(o: Table, n: Table, keyCols: seq<string>)
    requires o == QtyOld && n == QtyNew && keyCols == ["ID"]
    ensures WellFormed(o) && WellFormed(n) && Diff(o, n, keyCols).Ok?
    ensures |Diff(o, n, keyCols).value.rows| == 2
    ensures Diff(o, n, keyCols).value.rows[0].key == ["1"]
    ensures Diff(o, n, keyCols).value.rows[1].key == ["2"]
  {
    QtyDiffOk(o, n, keyCols);
    QtyWellFormed();
    QtyKeys();
    QtyKeyUnion();
    DiffRowKeys(o, n, keyCols);
  }

  lemma QtyDiffChangedRow(o: Table, n: Table, keyCols: seq<string>)
    requires o == QtyOld && n == QtyNew && keyCols == ["ID"]
    ensures WellFormed(o) && WellFormed(n) && Diff(o, n, keyCols).Ok?
    ensures |Diff(o, n, keyCols).value.rows| == 2
    ensures Diff(o, n, keyCols).value.rows[0] == DiffRow(["1"], Changed, [Text("A"), Text("10" + Marker + "12")])
  {
    QtyDiffKeys(o, n, keyCols);
    QtyColumns();
    QtyKeys();
    QtyAligned();
    QtyChangedRow();
    DiffRowsFromSides(o, n, keyCols, 0);
  }

  lemma QtyDiffNewRow(o: Table, n: Table, keyCols: seq<string>)
    requires o == QtyOld && n == QtyNew && keyCols == ["ID"]
    ensures WellFormed(o) && WellFormed(n) && Diff(o, n, keyCols).Ok?
    ensures |Diff(o, n, keyCols).value.rows| == 2
    ensures Diff(o, n, keyCols).value.rows[1] == DiffRow(["2"], New, [Text("B"), Text("5")])
  {
    QtyDiffKeys(o, n, keyCols);
    QtyColumns();
    QtyKeys();
    QtyAligned();
    QtyNewRow();
    DiffRowsFromSides(o, n, keyCols, 1);
  }

  /** A successful comparison is known once its header and each of its rows are. */
  lemma ResultOfParts(r: Result<DiffTable, DiffError>, columns: seq<string>, rows: seq<DiffRow>)
    requires r.Ok? && r.value.columns == columns && |r.value.rows| == |rows|
    requires forall i :: 0 <= i < |rows| ==> r.value.rows[i] == rows[i]
    ensures r == Ok(DiffTable(columns, rows))
  {
    assert r.value.rows == rows;
  }

  /** The comparison of the two sheets, the sheets given by name. */
  lemma QtyDiff(o: Table, n: Table, keyCols: seq<string>)
    requires o == QtyOld && n == QtyNew && keyCols == ["ID"]
    ensures WellFormed(o) && WellFormed(n)
    ensures Diff(o, n, keyCols) ==
      Ok(DiffTable(["ID", "RowStatus", "Name", "Qty"],
        [DiffRow(["1"], Changed, [Text("A"), Text("10" + Marker + "12")]),
         DiffRow(["2"], New, [Text("B"), Text("5")])]))
  {
    QtyDiffColumns(o, n, keyCols);
    QtyDiffChangedRow(o, n, keyCols);
    QtyDiffNewRow(o, n, keyCols);
    ResultOfParts(Diff(o, n, keyCols), ["ID", "RowStatus", "Name", "Qty"],
      [DiffRow(["1"], Changed, [Text("A"), Text("10" + Marker + "12")]),
       DiffRow(["2"], New, [Text("B"), Text("5")])]);
  }

  /** One row changed in a value and one row added: the first is CHANGED with
      "10 → 12" in Qty and "A" in Name, the second NEW showing its own values.
      Cells here are whole numbers; pandas turns the reindexed old Qty column
      into floats, so the program itself shows "10.0 → 12". */
  lemma ChangedAndNewRows()
    ensures Diff(QtyOld, QtyNew, ["ID"]) ==
      Ok(DiffTable(["ID", "RowStatus", "Name", "Qty"],
        [DiffRow(["1"], Changed, [Text("A"), Text("10" + Marker + "12")]),
         DiffRow(["2"], New, [Text("B"), Text("5")])]))
  {
    QtyDiff(QtyOld, QtyNew, ["ID"]);
  }

  const NotesOld: Table := Table(["ID", "Name"], [[Int(1), Text("A")]])
  const NotesNew: Table := Table(["ID", "Name", "Notes"], [[Int(1), Text("A"), Text("x")]])

  lemma NotesWellFormed()
    ensures WellFormed(NotesOld) && WellFormed(NotesNew)
    ensures HasKeyColumns(NotesOld, ["ID"]) && HasKeyColumns(NotesNew, ["ID"])
    ensures StatusColumn !in NotesOld.columns && StatusColumn !in NotesNew.columns
  {
  }

  lemma NotesColumns()
    ensures UnifiedColumns(NotesOld, NotesNew, ["ID"]) == ["Name", "Notes"]
  {
    assert ValueColumns(NotesOld, ["ID"]) == ["Name"];
    assert ValueColumns(NotesNew, ["ID"]) == ["Name", "Notes"];
    assert Absent(["Name"], ["Name", "Notes"]) == ["Notes"];
  }

  lemma NotesKeys()
    requires WellFormed(NotesOld) && WellFormed(NotesNew)
    requires HasKeyColumns(NotesOld, ["ID"]) && HasKeyColumns(NotesNew, ["ID"])
    ensures Keys(NotesOld, ["ID"]) == [["1"]] && Keys(NotesNew, ["ID"]) == [["1"]]
  {
    assert KeyOf(NotesOld, ["ID"], NotesOld.rows[0]) == ["1"];
    assert KeyOf(NotesNew, ["ID"], NotesNew.rows[0]) == ["1"];
  }

  lemma NotesAligned()
    requires WellFormed(NotesOld) && WellFormed(NotesNew)
    requires HasKeyColumns(NotesOld, ["ID"]) && HasKeyColumns(NotesNew, ["ID"])
    requires Keys(NotesOld, ["ID"]) == [["1"]] && Keys(NotesNew, ["ID"]) == [["1"]]
    ensures Aligned(NotesOld, ["ID"], ["Name", "Notes"], ["1"]) == [Text("A"), Missing]
    ensures Aligned(NotesNew, ["ID"], ["Name", "Notes"], ["1"]) == [Text("A"), Text("x")]
  {
    assert IndexOf(NotesOld.columns, "Name") == 1;
    assert IndexOf(NotesNew.columns, "Notes") == 2;
  }

  lemma NotesChangedRow()
    ensures DiffRowOf(["1"], [Text("A"), Missing], [Text("A"), Text("x")])
         == DiffRow(["1"], Changed, [Text("A"), Text(Marker + "x")])
  {
    var before, after := [Text("A"), Missing], [Text("A"), Text("x")];
    assert before[0] != Missing && after[0] != Missing;
    assert Classify(before, after) == Both;
    BothRowCell(["1"], before, after, 0);
    NewColumnValueIsChange(["1"], before, after, 1);
  }

  lemma NotesDiffOk(o: Table, n: Table, keyCols: seq<string>)
    requires o == NotesOld && n == NotesNew && keyCols == ["ID"]
    ensures WellFormed(o) && WellFormed(n)
    ensures Diff(o, n, keyCols).Ok?
  {
    NotesWellFormed();
    NotesKeys();
    DiffFailures(o, n, keyCols);
  }

  lemma NotesDiffColumns(o: Table, n: Table, keyCols: seq<string>)
    requires o == NotesOld && n == NotesNew && keyCols == ["ID"]
    ensures WellFormed(o) && WellFormed(n) && Diff(o, n, keyCols).Ok?
    ensures Diff(o, n, keyCols).value.columns == ["ID", "RowStatus", "Name", "Notes"]
  {
    NotesDiffOk(o, n, keyCols);
    NotesColumns();
    DiffColumnOrder(o, n, keyCols);
  }

  lemma NotesDiffKeys(o: Table, n: Table, keyCols: seq<string>)
    requires o == NotesOld && n == NotesNew && keyCols == ["ID"]
    ensures WellFormed(o) && WellFormed(n) && Diff(o, n, keyCols).Ok?
    ensures |Diff(o, n, keyCols).value.rows| == 1
    ensures Diff(o, n, keyCols).value.rows[0].key == ["1"]
  {
    NotesDiffOk(o, n, keyCols);
    NotesWellFormed();
    NotesKeys();
    AbsentAllIn([["1"]], [["1"]]);
    assert AppendNew([["1"]], [["1"]]) == [["1"]];
    DiffRowKeys(o, n, keyCols);
  }

  lemma NotesDiffRow(o: Table, n: Table, keyCols: seq<string>)
    requires o == NotesOld && n == NotesNew && keyCols == ["ID"]
    ensures WellFormed(o) && WellFormed(n) && Diff(o, n, keyCols).Ok?
    ensures |Diff(o, n, keyCols).value.rows| == 1
    ensures Diff(o, n, keyCols).value.rows[0] == DiffRow(["1"], Changed, [Text("A"), Text(Marker + "x")])
  {
    NotesDiffKeys(o, n, keyCols);
    NotesColumns();
    NotesKeys();
    NotesAligned();
    NotesChangedRow();
    DiffRowsFromSides(o, n, keyCols, 0);
  }

  lemma NotesDiff(o: Table, n: Table, keyCols: seq<string>)
    requires o == NotesOld && n == NotesNew && keyCols == ["ID"]
    ensures WellFormed(o) && WellFormed(n)
    ensures Diff(o, n, keyCols) ==
      Ok(DiffTable(["ID", "RowStatus", "Name", "Notes"], [DiffRow(["1"], Changed, [Text("A"), Text(Marker + "x")])]))
  {
    NotesDiffColumns(o, n, keyCols);
    NotesDiffRow(o, n, keyCols);
    ResultOfParts(Diff(o, n, keyCols), ["ID", "RowStatus", "Name", "Notes"],
      [DiffRow(["1"], Changed, [Text("A"), Text(Marker + "x")])]);
  }

  /** A column only the new sheet has, holding "x" for a row that is otherwise
      the same, makes that row CHANGED, with " → x" in the new column. */
  lemma NewColumnMakesChanged()
    ensures WellFormed(NotesOld) && WellFormed(NotesNew)
    ensures Diff(NotesOld, NotesNew, ["ID"]) ==
      Ok(DiffTable(["ID", "RowStatus", "Name", "Notes"], [DiffRow(["1"], Changed, [Text("A"), Text(" \U{2192} x")])]))
  {
    assert Marker + "x" == " \U{2192} x";
    NotesDiff(NotesOld, NotesNew, ["ID"]);
  }

  const TwoRows: Table := Table(["A"], [[Int(1)], [Int(2)]])

  /** With no key columns every row's key is empty, so a sheet of two rows
      repeats its key and the comparison reports duplicate labels. */
  lemma EmptyKeyListRepeats(t: Table, keyCols: seq<string>)
    requires t == TwoRows && keyCols == []
    ensures WellFormed(t)
    ensures Diff(t, t, keyCols) == Err(DuplicateLabels)
  {
    assert FirstMissingKey(t.columns, t.columns, keyCols) == None;
    var ks := Keys(t, keyCols);
    assert ks[0] == [] == ks[1];
    assert !NoDup(ks);
  }
}
