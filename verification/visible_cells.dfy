/**
 * `filterVisibleCells` and its matrix helpers (lmr-pivot-state.ts): the rows of a rendered pivot
 * table that remain once collapsed groups are folded into one line and hidden rows are dropped.
 */
module VisibleCells {
  import opened Options
  import opened TableCells
  import opened PivotState

  // ---------------------------------------------------------------------------------------------
  // sliceMatrix
  // ---------------------------------------------------------------------------------------------

  /** A `slice` bound: a negative one counts from the end; both are clamped to the length. */
  function ClampIndex(k: int, length: nat): (r: nat)
    ensures r <= length
    ensures 0 <= k <= length ==> r == k
    ensures k > length ==> r == length
  {
    if k < 0 then (if length + k < 0 then 0 else length + k)
    else if k > length then length
    else k
  }

  /** `s.slice(begin, end)`. */
  function JsSlice<T>(s: seq<T>, begin: int, end: int): (r: seq<T>)
    ensures var b, e := ClampIndex(begin, |s|), ClampIndex(end, |s|);
      |r| == (if b < e then e - b else 0) && forall k :: 0 <= k < |r| ==> r[k] == s[b + k]
  {
    var b, e := ClampIndex(begin, |s|), ClampIndex(end, |s|);
    if b < e then s[b..e] else []
  }

  /** The rows `fromRow..toRow` (both included) of a matrix, each cut to columns `fromColumn..toColumn`. */
  function SlicedRows<T>(cells: seq<seq<T>>, fromRow: int, toRow: int, fromColumn: int, toColumn: int): (r: seq<seq<T>>)
    ensures |r| == if toRow >= fromRow then toRow - fromRow + 1 else 0
    ensures forall k :: 0 <= k < |r| ==> r[k] == JsSlice(RowOf(cells, fromRow + k), fromColumn, toColumn + 1)
  {
    seq(if toRow >= fromRow then toRow - fromRow + 1 else 0,
        k => JsSlice(RowOf(cells, fromRow + k), fromColumn, toColumn + 1))
  }

  method SliceMatrix<T>(cells: seq<seq<T>>, fromRow: int, toRow: int, fromColumn: int, toColumn: int)
    returns (slicedMatrix: seq<seq<T>>)
    ensures slicedMatrix == SlicedRows(cells, fromRow, toRow, fromColumn, toColumn)
  {
    slicedMatrix := [];
    var i := fromRow;
    while i <= toRow
      invariant fromRow <= i <= if toRow >= fromRow then toRow + 1 else fromRow
      invariant slicedMatrix == SlicedRows(cells, fromRow, i - 1, fromColumn, toColumn)
    {
      var row := JsSlice(RowOf(cells, i), fromColumn, toColumn + 1);
      slicedMatrix := slicedMatrix + [row];
      i := i + 1;
    }
  }

  /** The widest row of a matrix. */
  function MaxWidth<T>(rows: seq<seq<T>>): (r: nat)
    ensures forall i :: 0 <= i < |rows| ==> |rows[i]| <= r
  {
    if rows == [] then 0
    else
      var rest := MaxWidth(rows[1..]);
      if |rows[0]| > rest then |rows[0]| else rest
  }

  lemma {:induction false} MaxWidthAtMost<T>(rows: seq<seq<T>>, bound: nat)
    requires forall i :: 0 <= i < |rows| ==> |rows[i]| <= bound
    ensures MaxWidth(rows) <= bound
    decreases |rows|
  {
    if rows != [] {
      MaxWidthAtMost(rows[1..], bound);
    }
  }

  /**
   * Cutting every row to the columns after the first one of row 0 narrows the matrix, as long as
   * it has a non-empty row.
   */
  lemma SliceNarrows<T>(cells: seq<seq<T>>, index: nat, fromRow: int, toRow: int)
    requires index < |cells| && |cells[index]| > 0
    ensures MaxWidth(SlicedRows(cells, fromRow, toRow, 1, |cells[0]| - 1)) < MaxWidth(cells)
  {
    var sliced := SlicedRows(cells, fromRow, toRow, 1, |cells[0]| - 1);
    assert |cells[index]| <= MaxWidth(cells);
    forall k | 0 <= k < |sliced|
      ensures |sliced[k]| <= MaxWidth(cells) - 1
    {
      assert |cells[0]| <= MaxWidth(cells);
    }
    MaxWidthAtMost(sliced, MaxWidth(cells) - 1);
  }

  // ---------------------------------------------------------------------------------------------
  // setOriginalRowIndexForHeaders and appendCellToMatrix
  // ---------------------------------------------------------------------------------------------

  predicate IsValueCell(cell: Option<Cell>)
  {
    cell.Some? && cell.value.isValue
  }

  /** The index of the first value cell of a row, or its length. */
  function FirstValueIndex(row: Row): (r: nat)
    ensures r <= |row|
    ensures r < |row| ==> IsValueCell(row[r])
    ensures forall j :: 0 <= j < r ==> !IsValueCell(row[j])
  {
    if row == [] then 0
    else if IsValueCell(row[0]) then 0
    else 1 + FirstValueIndex(row[1..])
  }

  function Mark(cell: Option<Cell>, originalRowIndex: int): Option<Cell>
  {
    if cell.Some? then Some(cell.value.(originalRowIndex := Some(originalRowIndex))) else None
  }

  /** The header cells of a row, up to its first value cell, carry the given original row index. */
  function WithOriginalRowIndex(row: Row, originalRowIndex: int): (r: Row)
    ensures |r| == |row|
  {
    if row == [] then []
    else if IsValueCell(row[0]) then row
    else [Mark(row[0], originalRowIndex)] + WithOriginalRowIndex(row[1..], originalRowIndex)
  }

  /** From the first value cell on the row is untouched; every earlier cell is marked. */
  lemma {:induction false} WithOriginalRowIndexMarksHeaders(row: Row, originalRowIndex: int)
    ensures var r := WithOriginalRowIndex(row, originalRowIndex);
      (forall k :: FirstValueIndex(row) <= k < |row| ==> r[k] == row[k])
      && (forall k :: 0 <= k < FirstValueIndex(row) ==> r[k] == Mark(row[k], originalRowIndex))
    decreases |row|
  {
    if row != [] && !IsValueCell(row[0]) {
      WithOriginalRowIndexMarksHeaders(row[1..], originalRowIndex);
      var r := WithOriginalRowIndex(row, originalRowIndex);
      forall k | 0 < k < |row|
        ensures r[k] == WithOriginalRowIndex(row[1..], originalRowIndex)[k - 1] && row[k] == row[1..][k - 1]
      {
      }
    }
  }

  lemma WithOriginalRowIndexStep(row: Row, i: nat, originalRowIndex: int)
    requires i < |row|
    ensures WithOriginalRowIndex(row[i..], originalRowIndex) ==
      if IsValueCell(row[i]) then row[i..]
      else [Mark(row[i], originalRowIndex)] + WithOriginalRowIndex(row[i + 1..], originalRowIndex)
  {
    assert row[i..][0] == row[i];
    assert row[i..][1..] == row[i + 1..];
  }

  /** The marked prefix grows by the next header cell. */
  lemma MarkNext(row: Row, i: nat, originalRowIndex: int, newRow: Row)
    requires i < |row| && !IsValueCell(row[i])
    requires WithOriginalRowIndex(row, originalRowIndex) == newRow + WithOriginalRowIndex(row[i..], originalRowIndex)
    ensures WithOriginalRowIndex(row, originalRowIndex)
      == (newRow + [Mark(row[i], originalRowIndex)]) + WithOriginalRowIndex(row[i + 1..], originalRowIndex)
  {
    WithOriginalRowIndexStep(row, i, originalRowIndex);
    var rest := WithOriginalRowIndex(row[i + 1..], originalRowIndex);
    assert newRow + ([Mark(row[i], originalRowIndex)] + rest) == (newRow + [Mark(row[i], originalRowIndex)]) + rest;
  }

  method SetOriginalRowIndexForHeaders(row: Row, originalRowIndex: int) returns (newRow: Row)
    ensures newRow == WithOriginalRowIndex(row, originalRowIndex)
  {
    newRow := [];
    var i := 0;
    while i < |row|
      invariant 0 <= i <= |row|
      invariant WithOriginalRowIndex(row, originalRowIndex) == newRow + WithOriginalRowIndex(row[i..], originalRowIndex)
    {
      var cell := row[i];
      if cell.None? {
        MarkNext(row, i, originalRowIndex, newRow);
        newRow := newRow + [cell];
      } else if cell.value.isValue {
        WithOriginalRowIndexStep(row, i, originalRowIndex);
        return newRow + row[i..];
      } else {
        MarkNext(row, i, originalRowIndex, newRow);
        newRow := newRow + [Some(cell.value.(originalRowIndex := Some(originalRowIndex)))];
      }
      i := i + 1;
    }
  }

  /** The header cell of an expanded group, spanning its nested rows and tagged with its row. */
  function GroupCell(c: Cell, rowSpan: int, originalRowIndex: int): (r: Cell)
    ensures r.rowSpan == rowSpan && r.originalRowIndex == Some(originalRowIndex)
    ensures r.(rowSpan := c.rowSpan, originalRowIndex := c.originalRowIndex) == c
  {
    c.(rowSpan := rowSpan, originalRowIndex := Some(originalRowIndex))
  }

  /** Puts `cell` in front of the first row and a missing cell in front of every other row. */
  function AppendCellToMatrix(cell: Option<Cell>, rows: Grid): (r: Grid)
    ensures |r| == |rows|
    ensures forall i :: 0 <= i < |r| ==>
      |r[i]| == |rows[i]| + 1 && r[i][1..] == rows[i] && r[i][0] == (if i == 0 then cell else None)
  {
    seq(|rows|, i requires 0 <= i < |rows| => [if i > 0 then None else cell] + rows[i])
  }

  // ---------------------------------------------------------------------------------------------
  // filterVisibleCells
  // ---------------------------------------------------------------------------------------------

  /** How `filterVisibleCells` treats one row of its input. */
  datatype RowKind =
    | Missing          // no first cell: dropped
    | HeaderLine       // an attribute header, summary or value row: kept as it is
    | Hidden           // every group listing the row is collapsed: dropped
    | CollapsedGroup   // a collapsed group header: folded into one line
    | ExpandedGroup    // an expanded group header: its nested rows are filtered recursively
    | PlainHeader      // a header without nested groups: its spanned rows are kept

  predicate HasColumnsExpandable(row: Row)
  {
    exists c :: c in row && IsCellColumnsExpandable(c)
  }

  function KindOf(cells: Grid, state: seq<StateRow>, index: nat): RowKind
    requires index < |cells|
  {
    var row := cells[index];
    if |row| == 0 || row[0].None? then Missing
    else if row[0].value.isAttributeHeader || row[0].value.isSummary || row[0].value.isValue then HeaderLine
    else if !IsRowVisible(index, ChildIndexesMap(FirstCells(cells)), 0, state) then Hidden
    else if HasColumnsExpandable(row) then
      if Collapsed(state, index, 0) then CollapsedGroup else ExpandedGroup
    else PlainHeader
  }

  /** `findIndex(cell => cell.isValue)` when it finds one, and 1 otherwise. */
  function FirstDataHeaderIndex(row: Row): (r: nat)
    ensures |row| > 0 ==> 1 <= r <= |row| || (r == 0 && IsValueCell(row[0]))
  {
    if FirstValueIndex(row) < |row| then FirstValueIndex(row) else 1
  }

  /** A group header folded into one line spanning `span` columns, the cells it covers removed. */
  function CollapsedRow(row: Row, header: Cell, span: nat, originalRowIndex: int): (r: Row)
    requires 1 <= span <= |row|
    ensures |r| == |row|
    ensures r[0] == Some(header.(colSpan := span, rowSpan := 1, originalRowIndex := Some(originalRowIndex)))
    ensures forall i :: 1 <= i < span ==> r[i].None?
    ensures forall i :: span <= i < |row| ==> r[i] == row[i]
  {
    [Some(header.(colSpan := span, rowSpan := 1, originalRowIndex := Some(originalRowIndex)))]
    + seq(span - 1, _ => None) + row[span..]
  }

  /** How many rows a plain header's row span keeps, cut off at the end of the matrix. */
  function SpannedCount(cells: Grid, index: nat): (r: nat)
    requires index < |cells| && |cells[index]| > 0 && cells[index][0].Some?
    ensures 1 <= r <= |cells| - index
    ensures cells[index][0].value.rowSpan <= 1 ==> r == 1
    ensures 1 <= cells[index][0].value.rowSpan <= |cells| - index ==> r == cells[index][0].value.rowSpan
  {
    var span := cells[index][0].value.rowSpan;
    if span <= 1 then 1 else if span > |cells| - index then |cells| - index else span
  }

  /** Rows `index .. index + count - 1`, each marked with its own original row index. */
  function SpannedRows(cells: Grid, index: nat, count: nat, originalRowIndex: int): (r: Grid)
    requires index + count <= |cells|
    ensures |r| == count
    ensures forall i :: 0 <= i < count ==> r[i] == WithOriginalRowIndex(cells[index + i], originalRowIndex + i)
  {
    seq(count, i requires 0 <= i < count => WithOriginalRowIndex(cells[index + i], originalRowIndex + i))
  }

  lemma SpannedRowsStep(cells: Grid, index: nat, count: nat, originalRowIndex: int)
    requires index + count < |cells|
    ensures SpannedRows(cells, index, count + 1, originalRowIndex) ==
      SpannedRows(cells, index, count, originalRowIndex) + [WithOriginalRowIndex(cells[index + count], originalRowIndex + count)]
  {
  }

  /** The rows `filterVisibleCells` emits for the input rows `0 .. |cells| - 1`. */
  function FilterVisible(cells: Grid, state: seq<StateRow>, parentIndex: int): Grid
    decreases MaxWidth(cells), |cells| + 1
  {
    VisibleRows(cells, state, parentIndex, |cells|)
  }

  /** The rows emitted for the first `k` input rows. */
  function VisibleRows(cells: Grid, state: seq<StateRow>, parentIndex: int, k: nat): Grid
    requires k <= |cells|
    decreases MaxWidth(cells), k
  {
    if k == 0 then []
    else VisibleRows(cells, state, parentIndex, k - 1) + RowOutput(cells, state, parentIndex, k - 1)
  }

  /** The rows emitted for input row `index`. */
  function RowOutput(cells: Grid, state: seq<StateRow>, parentIndex: int, index: nat): Grid
    requires index < |cells|
    decreases MaxWidth(cells), 0
  {
    var row := cells[index];
    var originalRowIndex := parentIndex + index;
    match KindOf(cells, state, index)
    case Missing => []
    case Hidden => []
    case HeaderLine => [WithOriginalRowIndex(row, originalRowIndex)]
    case CollapsedGroup =>
      var span := FirstDataHeaderIndex(row);
      assert span >= 1 by {
        assert !IsValueCell(row[0]);
      }
      [CollapsedRow(row, row[0].value, span, originalRowIndex)]
    case ExpandedGroup =>
      var lastRow := index + row[0].value.rowSpan - 1;
      var lastColumn := |cells[0]| - 1;
      var nestedCells := SlicedRows(cells, index, lastRow, 1, lastColumn);
      var nestedState := SlicedRows(state, index, lastRow, 1, lastColumn);
      SliceNarrows(cells, index, index, lastRow);
      var nested := FilterVisible(nestedCells, nestedState, originalRowIndex);
      AppendCellToMatrix(Some(GroupCell(row[0].value, |nested|, originalRowIndex)), nested)
    case PlainHeader =>
      SpannedRows(cells, index, SpannedCount(cells, index), originalRowIndex)
  }

  /**
   * What one input row yields: hidden and missing rows nothing, header lines themselves, a collapsed
   * group one line folded over its header columns, an expanded group its nested rows under one
   * header cell spanning them all, and a plain header its spanned rows.
   */
  lemma RowOutputShape(cells: Grid, state: seq<StateRow>, parentIndex: int, index: nat)
    requires index < |cells|
    ensures var r := RowOutput(cells, state, parentIndex, index);
      KindOf(cells, state, index) in {Missing, Hidden} ==> r == []
    ensures var r := RowOutput(cells, state, parentIndex, index);
      KindOf(cells, state, index) == HeaderLine ==>
      r == [WithOriginalRowIndex(cells[index], parentIndex + index)]
    ensures var r := RowOutput(cells, state, parentIndex, index);
      KindOf(cells, state, index) == CollapsedGroup ==>
      var row := cells[index];
      |r| == 1 && |r[0]| == |row|
      && r[0][0] == Some(row[0].value.(colSpan := FirstDataHeaderIndex(row), rowSpan := 1,
                                       originalRowIndex := Some(parentIndex + index)))
      && (forall i :: 1 <= i < FirstDataHeaderIndex(row) ==> r[0][i].None?)
      && (forall i :: FirstDataHeaderIndex(row) <= i < |row| ==> r[0][i] == row[i])
    ensures var r := RowOutput(cells, state, parentIndex, index);
      KindOf(cells, state, index) == ExpandedGroup ==>
      (|r| > 0 ==> |r[0]| > 0 && r[0][0].Some? && r[0][0].value.rowSpan == |r|
                   && r[0][0].value.originalRowIndex == Some(parentIndex + index))
      && (forall i :: 0 < i < |r| ==> |r[i]| > 0 && r[i][0].None?)
    ensures var r := RowOutput(cells, state, parentIndex, index);
      KindOf(cells, state, index) == PlainHeader ==>
      1 <= |r| && r[0] == WithOriginalRowIndex(cells[index], parentIndex + index)
      && (cells[index][0].value.rowSpan <= |cells| - index ==> |r| == if cells[index][0].value.rowSpan <= 1 then 1 else cells[index][0].value.rowSpan)
  {
    var row := cells[index];
    if KindOf(cells, state, index) == CollapsedGroup {
      assert !IsValueCell(row[0]);
    }
  }

  /** `rowCopy` of a collapsed group: the header spans `span` columns and the cells it covers go. */
  method CollapseGroupRow(row: Row, firstCell: Cell, span: nat, originalRowIndex: int) returns (rowCopy: Row)
    requires 1 <= span <= |row|
    ensures rowCopy == CollapsedRow(row, firstCell, span, originalRowIndex)
  {
    var changed := firstCell.(colSpan := span, rowSpan := 1, originalRowIndex := Some(originalRowIndex));
    rowCopy := row[0 := Some(changed)];
    var i := 1;
    while i < span
      invariant 1 <= i <= span
      invariant |rowCopy| == |row| && rowCopy[0] == Some(changed)
      invariant forall k :: 1 <= k < i ==> rowCopy[k].None?
      invariant forall k :: i <= k < |row| ==> rowCopy[k] == row[k]
    {
      rowCopy := rowCopy[i := None];
      i := i + 1;
    }
  }

  /** A plain header's row followed by the rows its row span covers, each with its original index. */
  method KeepSpannedRows(cells: Grid, index: nat, originalRowIndex: int) returns (rows: Grid)
    requires index < |cells| && |cells[index]| > 0 && cells[index][0].Some?
    ensures rows == SpannedRows(cells, index, SpannedCount(cells, index), originalRowIndex)
  {
    var marked := SetOriginalRowIndexForHeaders(cells[index], originalRowIndex);
    rows := [marked];
    var count := SpannedCount(cells, index);
    SpannedRowsStep(cells, index, 0, originalRowIndex);
    var i := 1;
    while i < count
      invariant 1 <= i <= count
      invariant rows == SpannedRows(cells, index, i, originalRowIndex)
    {
      var next := SetOriginalRowIndexForHeaders(cells[index + i], originalRowIndex + i);
      SpannedRowsStep(cells, index, i, originalRowIndex);
      rows := rows + [next];
      i := i + 1;
    }
  }

  /** The rows emitted for one input row: the body of the `reduce` callback. */
  method FilterRow(cells: Grid, state: seq<StateRow>, parentIndex: int, index: nat, childIndexesMap: seq<seq<nat>>)
    returns (rows: Grid)
    requires index < |cells|
    requires childIndexesMap == ChildIndexesMap(FirstCells(cells))
    ensures rows == RowOutput(cells, state, parentIndex, index)
    decreases MaxWidth(cells), 1
  {
    var row := cells[index];
    if |row| == 0 || row[0].None? {
      assert KindOf(cells, state, index) == Missing;
      return [];
    }
    var firstCell := row[0].value;
    var originalRowIndex := parentIndex + index;
    if firstCell.isAttributeHeader || firstCell.isSummary || firstCell.isValue {
      assert KindOf(cells, state, index) == HeaderLine;
      var marked := SetOriginalRowIndexForHeaders(row, originalRowIndex);
      return [marked];
    }
    rows := [];
    if IsRowVisible(index, childIndexesMap, 0, state) {
      if HasColumnsExpandable(row) {
        if Collapsed(state, index, 0) {
          assert KindOf(cells, state, index) == CollapsedGroup;
          var firstDataHeaderIndex := FirstDataHeaderIndex(row);
          assert !IsValueCell(row[0]);
          var rowCopy := CollapseGroupRow(row, firstCell, firstDataHeaderIndex, originalRowIndex);
          rows := [rowCopy];
        } else {
          assert KindOf(cells, state, index) == ExpandedGroup;
          rows := FilterExpandedGroup(cells, state, parentIndex, index);
        }
      } else {
        assert KindOf(cells, state, index) == PlainHeader;
        rows := KeepSpannedRows(cells, index, originalRowIndex);
      }
    } else {
      assert KindOf(cells, state, index) == Hidden;
    }
  }

  /** An expanded group: its nested rows filtered recursively, under its header cell spanning them all. */
  method FilterExpandedGroup(cells: Grid, state: seq<StateRow>, parentIndex: int, index: nat) returns (rows: Grid)
    requires index < |cells| && KindOf(cells, state, index) == ExpandedGroup
    ensures rows == RowOutput(cells, state, parentIndex, index)
    decreases MaxWidth(cells), 0
  {
    var firstCell := cells[index][0].value;
    var originalRowIndex := parentIndex + index;
    var lastRow := index + firstCell.rowSpan - 1;
    var lastColumn := |cells[0]| - 1;
    var nestedCells := SliceMatrix(cells, index, lastRow, 1, lastColumn);
    var nestedState := SliceMatrix(state, index, lastRow, 1, lastColumn);
    SliceNarrows(cells, index, index, lastRow);
    var nestedFilteredRows := FilterVisibleCells(nestedCells, nestedState, originalRowIndex);
    ExpandedGroupOutput(cells, state, parentIndex, index, lastRow, lastColumn, nestedFilteredRows);
    var changedCell := GroupCell(firstCell, |nestedFilteredRows|, originalRowIndex);
    rows := AppendCellToMatrix(Some(changedCell), nestedFilteredRows);
  }

  /** The output of an expanded group, unfolded. */
  lemma ExpandedGroupOutput(cells: Grid, state: seq<StateRow>, parentIndex: int, index: nat, lastRow: int, lastColumn: int,
                            nested: Grid)
    requires index < |cells| && KindOf(cells, state, index) == ExpandedGroup
    requires cells[index] != [] && cells[index][0].Some?
    requires lastRow == index + cells[index][0].value.rowSpan - 1 && lastColumn == |cells[0]| - 1
    requires nested == FilterVisible(SlicedRows(cells, index, lastRow, 1, lastColumn),
                                     SlicedRows(state, index, lastRow, 1, lastColumn), parentIndex + index)
    ensures RowOutput(cells, state, parentIndex, index)
            == AppendCellToMatrix(Some(GroupCell(cells[index][0].value, |nested|, parentIndex + index)), nested)
  {
  }

  /** `filterVisibleCells(cells, state, parentIndex)`. */
  method FilterVisibleCells(cells: Grid, state: seq<StateRow>, parentIndex: int) returns (visible: Grid)
    ensures visible == FilterVisible(cells, state, parentIndex)
    decreases MaxWidth(cells), 2
  {
    var cellsChildIndexesMap := CreateRowsChildIndexesMap(FirstCells(cells));
    visible := [];
    var index := 0;
    while index < |cells|
      invariant 0 <= index <= |cells|
      invariant visible == VisibleRows(cells, state, parentIndex, index)
    {
      var rows := FilterRow(cells, state, parentIndex, index, cellsChildIndexesMap);
      visible := visible + rows;
      index := index + 1;
    }
  }

  /** Without any state no row is hidden and no group is folded. */
  lemma EmptyStateFoldsNothing(cells: Grid, index: nat)
    requires index < |cells|
    ensures KindOf(cells, [], index) != Hidden && KindOf(cells, [], index) != CollapsedGroup
  {
    EmptyStateShowsEverything(FirstCells(cells), index, 0);
  }
}
