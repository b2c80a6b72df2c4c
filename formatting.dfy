/** Row and cell styling of the comparison report and the progress text
    (utilities/formatting.py). */
module Formatting {
  import opened Seqs
  import opened Cells
  import opened Outcomes
  import opened Differences
  import opened DiffProperties

  const NewRowStyle: string := "background-color: lightgreen;"
  const DeletedRowStyle: string := "background-color: salmon;"
  const ChangedCellStyle: string := "background-color: yellow;"

  /** `highlight_rows`: one style per entry of the row, chosen by the row's
      RowStatus entry. Looking up a header without RowStatus fails (None). */
  function HighlightRows(header: seq<string>, row: seq<Scalar>): (styles: Option<seq<string>>)
    requires |header| == |row|
    ensures styles.None? <==> StatusColumn !in header
    ensures styles.Some? ==> |styles.value| == |row|
  {
    if StatusColumn !in header then None
    else
      var status := row[IndexOf(header, StatusColumn)];
      var style := if status == Text("NEW") then NewRowStyle
                   else if status == Text("DELETED") then DeletedRowStyle
                   else "";
      Some(seq(|row|, _ => style))
  }

  /** `highlight_changes`: yellow exactly for a cell whose text holds the marker. */
  function HighlightChanges(v: Scalar): (style: string)
    ensures style == ChangedCellStyle <==> Contains(Str(v), Marker)
    ensures style == "" <==> !Contains(Str(v), Marker)
  {
    if Contains(Str(v), Marker) then ChangedCellStyle else ""
  }

  /** On a row of the comparison, as written to the report, the row styles
      are lightgreen for NEW rows, salmon for DELETED rows and empty for
      CHANGED and UNCHANGED rows, one per entry. */
  lemma HighlightDiffRow(oldSheet: Table, newSheet: Table, keyCols: seq<string>, i: nat)
    requires WellFormed(oldSheet) && WellFormed(newSheet)
    requires HasKeyColumns(oldSheet, keyCols) && HasKeyColumns(newSheet, keyCols)
    requires Diff(oldSheet, newSheet, keyCols).Ok? && i < |Diff(oldSheet, newSheet, keyCols).value.rows|
    ensures var t := Diff(oldSheet, newSheet, keyCols).value;
      var d := t.rows[i];
      var row := Flatten(d);
      && |t.columns| == |row|
      && HighlightRows(t.columns, row) == Some(seq(|row|, _ =>
           if d.status == New then NewRowStyle
           else if d.status == Deleted then DeletedRowStyle
           else ""))
  {
    var t := Diff(oldSheet, newSheet, keyCols).value;
    var d := t.rows[i];
    DiffRowKeys(oldSheet, newSheet, keyCols);
    DiffColumnOrder(oldSheet, newSheet, keyCols);
    var index := AppendNew(Keys(oldSheet, keyCols), Keys(newSheet, keyCols));
    assert d.key in Keys(oldSheet, keyCols) + Keys(newSheet, keyCols) by {
      AbsentMembers(Keys(oldSheet, keyCols), Keys(newSheet, keyCols), index[i]);
    }
    assert StatusColumn !in keyCols;
    HighlightFlatRow(keyCols, UnifiedColumns(oldSheet, newSheet, keyCols), d);
  }

  /** The row styles of a flattened result row under the result's header. */
  lemma HighlightFlatRow(keyCols: seq<string>, cols: seq<string>, d: DiffRow)
    requires StatusColumn !in keyCols && |d.key| == |keyCols| && |d.cells| == |cols|
    ensures var header := keyCols + [StatusColumn] + cols;
      var row := Flatten(d);
      && |header| == |row|
      && HighlightRows(header, row) == Some(seq(|row|, _ =>
           if d.status == New then NewRowStyle
           else if d.status == Deleted then DeletedRowStyle
           else ""))
  {
    var header := keyCols + [StatusColumn] + cols;
    assert header[|keyCols|] == StatusColumn;
    assert forall p :: 0 <= p < |keyCols| ==> header[p] == keyCols[p];
    assert IndexOf(header, StatusColumn) == |keyCols|;
  }

  /** Every cell the comparison renders as "old → new" is highlighted yellow. */
  lemma ChangedCellHighlighted(k: Key, before: seq<Scalar>, after: seq<Scalar>, c: nat)
    requires |before| == |after| && c < |before| && Classify(before, after) == Both
    requires Fill(before[c]) != Fill(after[c])
    ensures HighlightChanges(DiffRowOf(k, before, after).cells[c]) == ChangedCellStyle
  {
    BothRowCell(k, before, after, c);
    ContainsInfix(Str(Fill(before[c])), Marker, Str(Fill(after[c])));
  }

  // ---------------------------------------------------------------------
  // Progress text

  /** The emoji shown for each processing status. */
  const StatusColors: map<string, char> :=
    map["Pending" := '\U{1F534}', "Processing" := '\U{1F7E0}', "Completed" := '\U{1F7E2}']

  const ProgressHeader: string := "### Processing Status:\n"

  predicate KnownStatuses(sheetStatus: seq<(string, string)>) {
    forall i :: 0 <= i < |sheetStatus| ==> sheetStatus[i].1 in StatusColors
  }

  /** The progress line of one sheet. */
  function ProgressLine(entry: (string, string)): (line: string)
    requires entry.1 in StatusColors
  {
    [StatusColors[entry.1]] + " **" + entry.0 + "**  \n"
  }

  /** The progress lines of all sheets, in order. */
  function ProgressLines(sheetStatus: seq<(string, string)>): (text: string)
    requires KnownStatuses(sheetStatus)
  {
    if sheetStatus == [] then "" else ProgressLine(sheetStatus[0]) + ProgressLines(sheetStatus[1..])
  }

  /** The lines of two runs of sheets are the lines of each, one after the other. */
  lemma {:induction false} ProgressLinesAppend(a: seq<(string, string)>, b: seq<(string, string)>)
    requires KnownStatuses(a) && KnownStatuses(b)
    ensures KnownStatuses(a + b)
    ensures ProgressLines(a + b) == ProgressLines(a) + ProgressLines(b)
  {
    if a == [] {
      assert a + b == b;
    } else {
      assert (a + b)[0] == a[0];
      assert (a + b)[1..] == a[1..] + b;
      ProgressLinesAppend(a[1..], b);
    }
  }

  /** `display_progress_list`: the header, then one line per sheet, in the
      order of the status dictionary. */
  method DisplayProgressList(sheetStatus: seq<(string, string)>) returns (progressText: string)
    requires KnownStatuses(sheetStatus)
    ensures progressText == ProgressHeader + ProgressLines(sheetStatus)
  {
    progressText := ProgressHeader;
    for i := 0 to |sheetStatus|
      invariant progressText == ProgressHeader + ProgressLines(sheetStatus[..i])
    {
      var (sheet, status) := sheetStatus[i];
      assert sheetStatus[..i + 1] == sheetStatus[..i] + [sheetStatus[i]];
      ProgressLinesAppend(sheetStatus[..i], [sheetStatus[i]]);
      progressText := progressText + [StatusColors[status]] + " **" + sheet + "**  \n";
    }
    assert sheetStatus[..|sheetStatus|] == sheetStatus;
  }

  /** Each line is the emoji of its status, " **", the sheet name and "**  \n";
      the three statuses map to red, orange and green circles. */
  lemma ProgressLineFormat(sheet: string)
    ensures ProgressLine((sheet, "Pending")) == ['\U{1F534}'] + " **" + sheet + "**  \n"
    ensures ProgressLine((sheet, "Processing")) == ['\U{1F7E0}'] + " **" + sheet + "**  \n"
    ensures ProgressLine((sheet, "Completed")) == ['\U{1F7E2}'] + " **" + sheet + "**  \n"
  {
  }
}
