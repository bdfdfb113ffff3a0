/**
 * The expand/collapse overlay of a rendered pivot table (lmr-pivot-state.ts).
 *
 * The overlay is a sparse two-level JavaScript array of `{collapsed}` entries. A row of it that
 * was never created reads exactly like an empty row (every reader goes through `?.[i] || []`), so
 * a missing row is the empty sequence here and a missing entry is `None`.
 */
module PivotState {
  import opened Options
  import opened TableCells

  datatype CellState = CellState(collapsed: bool)

  type StateRow = seq<Option<CellState>>

  /** The persisted state object; `cells` may be missing. */
  datatype State = State(cells: Option<seq<StateRow>>)

  // ---------------------------------------------------------------------------------------------
  // Expandability
  // ---------------------------------------------------------------------------------------------

  predicate IsCellColumnsExpandable(cell: Option<Cell>)
  {
    cell.Some? && cell.value.childIndexes.Some? && |cell.value.childIndexes.value| > 1
  }

  predicate IsCellRowsExpandable(cell: Option<Cell>)
  {
    cell.Some? && cell.value.rowIndexes.Some? && |cell.value.rowIndexes.value| > 1
  }

  predicate IsCellExpandable(cell: Option<Cell>)
  {
    IsCellColumnsExpandable(cell) || IsCellRowsExpandable(cell)
  }

  /** `c1?.summary === c2?.summary && c1?.value === c2?.value`. */
  predicate AreCellsSame(c1: Option<Cell>, c2: Option<Cell>)
  {
    (if c1.Some? then c1.value.summary else None) == (if c2.Some? then c2.value.summary else None)
    && (if c1.Some? then c1.value.value else NoValue) == (if c2.Some? then c2.value.value else NoValue)
  }

  // ---------------------------------------------------------------------------------------------
  // Sparse two-level arrays
  // ---------------------------------------------------------------------------------------------

  /** `rows?.[index] || []`. */
  function RowOf<T>(rows: seq<seq<T>>, index: int): seq<T>
  {
    if 0 <= index < |rows| then rows[index] else []
  }

  /** `rows[index] = row`, padding with missing (empty) rows when `index` is past the end. */
  function SetRow<T>(rows: seq<seq<T>>, index: nat, row: seq<T>): (r: seq<seq<T>>)
    ensures |r| == if index < |rows| then |rows| else index + 1
    ensures r[index] == row
    ensures forall k :: 0 <= k < |r| && k != index ==> r[k] == RowOf(rows, k)
  {
    if index < |rows| then rows[index := row]
    else rows + seq(index - |rows|, _ => []) + [row]
  }

  /** `cells?.[r]?.[c]`. */
  function EntryOf(cells: seq<StateRow>, r: int, c: int): Option<CellState>
  {
    var row := RowOf(cells, r);
    if 0 <= c < |row| then row[c] else None
  }

  /** `cells?.[r]?.[c]?.collapsed` is truthy. */
  predicate Collapsed(cells: seq<StateRow>, r: int, c: int)
  {
    var e := EntryOf(cells, r, c);
    e.Some? && e.value.collapsed
  }

  /** Every created row holds at least one entry and ends with one, and so does the outer array. */
  predicate NoTrailingHoles(cells: seq<StateRow>)
  {
    (|cells| > 0 ==> |cells[|cells| - 1]| > 0)
    && forall i :: 0 <= i < |cells| && |cells[i]| > 0 ==> cells[i][|cells[i]| - 1].Some?
  }

  /** `row = [...(cells[i] || [])]; row[j] = x; cells[i] = row`: a copy with one entry replaced. */
  function WriteEntry(cells: seq<StateRow>, i: nat, j: nat, x: CellState): (r: seq<StateRow>)
    ensures forall a, b :: EntryOf(r, a, b) == if a == i && b == j then Some(x) else EntryOf(cells, a, b)
    ensures |r| == if i < |cells| then |cells| else i + 1
    ensures NoTrailingHoles(cells) ==> NoTrailingHoles(r)
  {
    var row := Put(RowOf(cells, i), j, x);
    var r := SetRow(cells, i, row);
    assert forall a :: RowOf(r, a) == if a == i then row else RowOf(cells, a);
    r
  }

  // ---------------------------------------------------------------------------------------------
  // Toggling
  // ---------------------------------------------------------------------------------------------

  /** The guard of `toggleExpandedState`: both indexes present and not negative. */
  predicate Toggleable(rowIndex: Option<int>, columnIndex: Option<int>)
  {
    rowIndex.Some? && columnIndex.Some? && rowIndex.value >= 0 && columnIndex.value >= 0
  }

  /**
   * Flips `collapsed` at one position of a copy of the state; a missing or negative index leaves
   * the state as it is.
   */
  function ToggleExpandedState(state: State, rowIndex: Option<int>, columnIndex: Option<int>): (r: State)
    ensures !Toggleable(rowIndex, columnIndex) ==> r == state
    ensures Toggleable(rowIndex, columnIndex) ==>
      r.cells.Some?
      && (Collapsed(r.cells.value, rowIndex.value, columnIndex.value)
          <==> !Collapsed(OrEmpty(state.cells), rowIndex.value, columnIndex.value))
      && (forall i, j :: i != rowIndex.value || j != columnIndex.value ==>
            EntryOf(r.cells.value, i, j) == EntryOf(OrEmpty(state.cells), i, j))
  {
    if !Toggleable(rowIndex, columnIndex) then state
    else
      var cells := OrEmpty(state.cells);
      var flipped := CellState(!Collapsed(cells, rowIndex.value, columnIndex.value));
      State(Some(WriteEntry(cells, rowIndex.value, columnIndex.value, flipped)))
  }

  /** Toggling the same position twice gives back the flag's truth value and every other entry. */
  lemma ToggleTwiceRestores(state: State, rowIndex: Option<int>, columnIndex: Option<int>)
    ensures var twice := ToggleExpandedState(ToggleExpandedState(state, rowIndex, columnIndex), rowIndex, columnIndex);
      forall i, j :: Collapsed(OrEmpty(twice.cells), i, j) <==> Collapsed(OrEmpty(state.cells), i, j)
  {
    var once := ToggleExpandedState(state, rowIndex, columnIndex);
    var twice := ToggleExpandedState(once, rowIndex, columnIndex);
    if Toggleable(rowIndex, columnIndex) {
      forall i, j
        ensures Collapsed(OrEmpty(twice.cells), i, j) <==> Collapsed(OrEmpty(state.cells), i, j)
      {
        if i != rowIndex.value || j != columnIndex.value {
          assert EntryOf(OrEmpty(twice.cells), i, j) == EntryOf(OrEmpty(once.cells), i, j);
        }
      }
    }
  }

  /**
   * `toggleExpanded` as written: the guard `if (cell.originalRowIndex)` is a truthiness test, so a
   * cell of grid row 0 is treated like a cell without a row index.
   */
  function ToggleExpandedAsWritten(cell: Cell, columnIndex: Option<int>, state: State): (r: State)
    ensures cell.originalRowIndex.None? || cell.originalRowIndex == Some(0) ==> r == state
    ensures cell.originalRowIndex.Some? && cell.originalRowIndex != Some(0) ==>
      r == ToggleExpandedState(state, cell.originalRowIndex, columnIndex)
  {
    if cell.originalRowIndex.Some? && cell.originalRowIndex.value != 0 then
      ToggleExpandedState(state, cell.originalRowIndex, columnIndex)
    else state
  }

  /** `toggleExpanded` with the guard testing for a missing row index only. */
  function ToggleExpanded(cell: Cell, columnIndex: Option<int>, state: State): (r: State)
    ensures !Toggleable(cell.originalRowIndex, columnIndex) ==> r == state
    ensures Toggleable(cell.originalRowIndex, columnIndex) ==>
      r.cells.Some?
      && (Collapsed(r.cells.value, cell.originalRowIndex.value, columnIndex.value)
          <==> !Collapsed(OrEmpty(state.cells), cell.originalRowIndex.value, columnIndex.value))
      && (forall i, j :: i != cell.originalRowIndex.value || j != columnIndex.value ==>
            EntryOf(r.cells.value, i, j) == EntryOf(OrEmpty(state.cells), i, j))
  {
    if cell.originalRowIndex.Some? then ToggleExpandedState(state, cell.originalRowIndex, columnIndex)
    else state
  }

  /** The first row's group header, as a table with row attributes only, no columns and no values, renders it. */
  function RowZeroGroupHeader(): Cell
  {
    Cell(Text("A"), None, 2, 1, "pivot-row-header-cell", false, true, false, false, None,
         false, false, None, Some([0, 1]), Some(0))
  }

  /** As written, clicking the expandable header of grid row 0 never collapses it. */
  lemma RowZeroIsNeverToggled()
    ensures IsCellColumnsExpandable(Some(RowZeroGroupHeader()))
    ensures !Collapsed(OrEmpty(ToggleExpandedAsWritten(RowZeroGroupHeader(), Some(0), State(None)).cells), 0, 0)
    ensures Collapsed(OrEmpty(ToggleExpanded(RowZeroGroupHeader(), Some(0), State(None)).cells), 0, 0)
  {
  }

  // ---------------------------------------------------------------------------------------------
  // collapseAllCells
  // ---------------------------------------------------------------------------------------------

  /** A cell where the scan of a row stops: a value, an attribute header or any header cell, row or column. */
  predicate Stops(cell: Option<Cell>)
  {
    cell.Some? && (cell.value.isValue || cell.value.isAttributeHeader || cell.value.isHeader)
  }

  /** The index of the first stopping cell of a row, or its length. */
  function StopIndex(row: Row): (r: nat)
    ensures r <= |row|
    ensures r < |row| ==> Stops(row[r])
    ensures forall j :: 0 <= j < r ==> !Stops(row[j])
  {
    if row == [] then 0
    else if Stops(row[0]) then 0
    else 1 + StopIndex(row[1..])
  }

  /** The cells `collapseAllCells` marks: expandable and before the row's first stopping cell. */
  predicate Marked(table: Grid, i: int, j: int)
  {
    0 <= i < |table| && 0 <= j < StopIndex(table[i]) && IsCellExpandable(table[i][j])
  }

  /** The marks of the rows before `i` and of row `i` before column `j`, and nothing else. */
  ghost predicate MarkedUpTo(table: Grid, cells: seq<StateRow>, i: nat, j: nat)
  {
    (forall r, c :: EntryOf(cells, r, c) ==
       if Marked(table, r, c) && (r < i || (r == i && c < j)) then Some(CellState(true)) else None)
    && NoTrailingHoles(cells)
  }

  /**
   * Builds a state in which exactly the marked cells are collapsed; no other row or entry is
   * created.
   */
  method CollapseAllCells(table: Option<Grid>) returns (state: State)
    ensures state.cells.Some?
    ensures forall r, c :: EntryOf(state.cells.value, r, c) ==
                           (if Marked(OrEmpty(table), r, c) then Some(CellState(true)) else None)
    ensures NoTrailingHoles(state.cells.value)
  {
    var tableCells := OrEmpty(table);
    var cells: seq<StateRow> := [];
    var i := 0;
    while i < |tableCells|
      invariant 0 <= i <= |tableCells|
      invariant |cells| <= i
      invariant MarkedUpTo(tableCells, cells, i, 0)
    {
      var row := tableCells[i];
      var j := 0;
      while j < |row|
        invariant 0 <= j <= StopIndex(row)
        invariant |cells| <= i + 1
        invariant MarkedUpTo(tableCells, cells, i, j)
      {
        var cell := row[j];
        if Stops(cell) {
          break;
        }
        if IsCellExpandable(cell) {
          cells := WriteEntry(cells, i, j, CellState(true));
        }
        j := j + 1;
      }
      assert j == StopIndex(row);
      i := i + 1;
    }
    state := State(Some(cells));
  }

  // ---------------------------------------------------------------------------------------------
  // Child indexes and row visibility
  // ---------------------------------------------------------------------------------------------

  /** `cell?.rowIndexes || []`: the grid rows a summary cell groups. */
  function ListedRows(cell: Option<Cell>): seq<nat>
  {
    if cell.Some? && cell.value.rowIndexes.Some? then cell.value.rowIndexes.value else []
  }

  /** `if (!map[k]) map[k] = []; map[k].push(index)`. */
  function Push(m: seq<seq<nat>>, k: nat, index: nat): (r: seq<seq<nat>>)
    ensures forall a :: RowOf(r, a) == if a == k then RowOf(m, k) + [index] else RowOf(m, a)
  {
    var r := SetRow(m, k, RowOf(m, k) + [index]);
    assert forall a :: RowOf(r, a) == if a == k then RowOf(m, k) + [index] else RowOf(m, a);
    r
  }

  /** Registers `index` under every row it lists, in order. */
  function AddParent(m: seq<seq<nat>>, children: seq<nat>, index: nat): seq<seq<nat>>
  {
    if children == [] then m
    else Push(AddParent(m, children[..|children| - 1], index), children[|children| - 1], index)
  }

  /** The map `createRowsChildIndexesMap` builds from the first cells of the rows. */
  function ChildIndexesMap(cells: seq<Option<Cell>>): seq<seq<nat>>
  {
    if cells == [] then []
    else AddParent(ChildIndexesMap(cells[..|cells| - 1]), ListedRows(cells[|cells| - 1]), |cells| - 1)
  }

  lemma {:induction false} AddParentEntries(m: seq<seq<nat>>, children: seq<nat>, index: nat, k: int)
    ensures forall x :: x in RowOf(AddParent(m, children, index), k) <==> x in RowOf(m, k) || (x == index && k in children)
    decreases |children|
  {
    if children != [] {
      var front := children[..|children| - 1];
      AddParentEntries(m, front, index, k);
      assert children == front + [children[|children| - 1]];
    }
  }

  /** Row `k`'s entry lists exactly the rows whose first cell groups `k`. */
  lemma {:induction false} ChildIndexesMapEntries(cells: seq<Option<Cell>>, k: int)
    ensures forall x :: x in RowOf(ChildIndexesMap(cells), k) <==> 0 <= x < |cells| && k in ListedRows(cells[x])
    decreases |cells|
  {
    if cells != [] {
      var front := cells[..|cells| - 1];
      ChildIndexesMapEntries(front, k);
      AddParentEntries(ChildIndexesMap(front), ListedRows(cells[|cells| - 1]), |cells| - 1, k);
    }
  }

  method CreateRowsChildIndexesMap(rowCells: seq<Option<Cell>>) returns (m: seq<seq<nat>>)
    ensures m == ChildIndexesMap(rowCells)
  {
    m := [];
    var index := 0;
    while index < |rowCells|
      invariant 0 <= index <= |rowCells|
      invariant m == ChildIndexesMap(rowCells[..index])
    {
      var children := ListedRows(rowCells[index]);
      ghost var before := m;
      var j := 0;
      while j < |children|
        invariant 0 <= j <= |children|
        invariant m == AddParent(before, children[..j], index)
      {
        assert children[..j + 1][..j] == children[..j];
        m := Push(m, children[j], index);
        j := j + 1;
      }
      assert children[..j] == children;
      assert rowCells[..index + 1][..index] == rowCells[..index];
      index := index + 1;
    }
    assert rowCells[..index] == rowCells;
  }

  /** `createCellsChildIndexesMap`: the first cell of every row (missing for an empty row). */
  function FirstCells(cells: Grid): (r: seq<Option<Cell>>)
    ensures |r| == |cells|
    ensures forall i :: 0 <= i < |cells| ==> r[i] == if |cells[i]| > 0 then cells[i][0] else None
  {
    seq(|cells|, i requires 0 <= i < |cells| => if |cells[i]| > 0 then cells[i][0] else None)
  }

  /** No group lists the row, or one of the groups listing it is not collapsed. */
  predicate IsRowVisible(index: int, childIndexesMap: seq<seq<nat>>, columnIndex: int, state: seq<StateRow>)
  {
    var parents := RowOf(childIndexesMap, index);
    |parents| == 0 || exists p :: p in parents && !Collapsed(state, p, columnIndex)
  }

  /** Visibility in terms of the first cells themselves. */
  lemma RowVisibility(cells: seq<Option<Cell>>, index: int, columnIndex: int, state: seq<StateRow>)
    ensures IsRowVisible(index, ChildIndexesMap(cells), columnIndex, state) <==>
      (forall p :: 0 <= p < |cells| ==> index !in ListedRows(cells[p]))
      || (exists p :: 0 <= p < |cells| && index in ListedRows(cells[p]) && !Collapsed(state, p, columnIndex))
  {
    ChildIndexesMapEntries(cells, index);
    var parents := RowOf(ChildIndexesMap(cells), index);
    if |parents| > 0 {
      assert parents[0] in parents;
    }
  }

  /** With no state at all every row is visible. */
  lemma EmptyStateShowsEverything(cells: seq<Option<Cell>>, index: int, columnIndex: int)
    ensures IsRowVisible(index, ChildIndexesMap(cells), columnIndex, [])
  {
    var parents := RowOf(ChildIndexesMap(cells), index);
    if |parents| > 0 {
      assert parents[0] in parents && !Collapsed([], parents[0], columnIndex);
    }
  }
}
