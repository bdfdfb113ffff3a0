/**
 * PivotTableConverter (pivot-table-converter.ts): the object that lays one stem's pivot model out
 * as a cell grid. updateData prepares the model and computes, in its fields, the grid line of every
 * matrix row and column; transformData then fills a fresh grid in four passes: the empty grid with
 * the attribute corner, the row headers with their subtotal and expression rows, the column headers
 * with their subtotal columns, and the cells where a row group crosses a column group.
 */
module TableConverter {
  import opened Options
  import opened PivotConfig
  import opened PivotData
  import opened HeaderCounts
  import opened TransformationMap
  import opened Expressions
  import ValueTypes
  import opened HeaderSorting
  import opened TableCells
  import opened GridLayout
  import HeaderBuilder

  // ---------------------------------------------------------------------------------------------
  // Sticky levels

  /** `configs.findIndex(config => !config?.sticky)` */
  function FirstNonSticky(configs: seq<DimensionConfig>): (r: int)
    ensures -1 <= r < |configs|
    ensures r >= 0 ==> !configs[r].sticky && forall i :: 0 <= i < r ==> configs[i].sticky
    ensures r == -1 <==> forall i :: 0 <= i < |configs| ==> configs[i].sticky
  {
    if configs == [] then -1
    else if !configs[0].sticky then 0
    else
      var rest := FirstNonSticky(configs[1..]);
      assert forall i :: 1 <= i < |configs| ==> configs[i] == configs[1..][i - 1];
      if rest < 0 then -1 else rest + 1
  }

  /**
   * nonStickyRowIndex / nonStickyColumnIndex: `levels` when every configured level is sticky,
   * otherwise the first non-sticky level; 0 when there are no configurations.
   */
  function NonStickyIndex(configs: seq<DimensionConfig>, levels: nat): (r: nat)
    ensures |configs| > 0 && (forall i :: 0 <= i < |configs| ==> configs[i].sticky) ==> r == levels
    ensures (exists i :: 0 <= i < |configs| && !configs[i].sticky) ==>
      r < |configs| && !configs[r].sticky && forall i :: 0 <= i < r ==> configs[i].sticky
    ensures configs == [] ==> r == 0
  {
    var allSticky := |configs| > 0 && forall i :: 0 <= i < |configs| ==> configs[i].sticky;
    if allSticky then levels
    else
      var first := FirstNonSticky(configs);
      if first > 0 then first else 0
  }

  /** The sticky levels form a prefix, as mapStickyValues makes them. */
  predicate StickyPrefix(configs: seq<DimensionConfig>)
  {
    forall i, j :: 0 <= i <= j < |configs| && configs[j].sticky ==> configs[i].sticky
  }

  // ---------------------------------------------------------------------------------------------
  // Preparing the model

  /** Every full tree is uniform: leaves and groups never share a sibling list. */
  lemma {:induction false} FullIsUniform(hs: seq<Header>, level: nat, levels: nat)
    requires Full(hs, level, levels)
    ensures Uniform(hs)
    decreases hs
  {
    if level + 1 != levels {
      forall i | 0 <= i < |hs|
        ensures hs[i].node.Group? && Uniform(hs[i].node.children)
      {
        assert HeaderFull(hs[i], level, levels);
        match hs[i].node {
          case Group(children) => FullIsUniform(children, level + 1, levels);
          case Leaf(_) => assert false;
        }
      }
    }
  }

  /** A rearrangement of a full sibling list is full. */
  lemma FullRearranged(hs: seq<Header>, r: seq<Header>, level: nat, levels: nat)
    requires multiset(r) == multiset(hs) && Full(hs, level, levels)
    ensures Full(r, level, levels)
  {
    forall i | 0 <= i < |r|
      ensures HeaderFull(r[i], level, levels)
    {
      assert r[i] in multiset(hs);
      var j :| 0 <= j < |hs| && hs[j] == r[i];
    }
  }

  /** Sorting keeps a tree full: each level is only rearranged. */
  lemma {:induction false} SortKeepsFull(headers: seq<Header>, index: nat, sorts: seq<Option<PivotSort>>, otherSide: seq<Header>,
                                         values: seq<seq<Option<real>>>, valueTitles: seq<string>, isRows: bool, levels: nat)
    requires Full(headers, index, levels)
    ensures Full(SortHeaders(headers, index, sorts, otherSide, values, valueTitles, isRows), index, levels)
    ensures |SortHeaders(headers, index, sorts, otherSide, values, valueTitles, isRows)| == |headers|
    decreases headers
  {
    if isRows || !IsValuesHeaders(headers, valueTitles) {
      var sort := SortAt(sorts, index);
      var valuesMap := HeadersValuesMap(headers, ValueTargetIndexes(sort, otherSide, valueTitles), values, isRows);
      var mapped := SortChildren(headers, index, sorts, otherSide, values, valueTitles, isRows);
      forall i | 0 <= i < |mapped|
        ensures HeaderFull(mapped[i], index, levels)
      {
        SortChildrenAt(headers, index, sorts, otherSide, values, valueTitles, isRows, i);
        assert HeaderFull(headers[i], index, levels);
        match headers[i].node {
          case Leaf(_) =>
          case Group(children) =>
            SortKeepsFull(children, index + 1, sorts, otherSide, values, valueTitles, isRows, levels);
        }
      }
      var sorted := SortBy(mapped, valuesMap, Ascending(sort));
      FullRearranged(mapped, sorted, index, levels);
      assert |sorted| == |multiset(sorted)| == |multiset(mapped)| == |mapped|;
    }
  }

  /**
   * Attaching expressions keeps a tree full: sibling lists keep their length, and a leaf only turns
   * into an empty group when a deeper level is configured, which a full tree of that depth rules out.
   */
  lemma {:induction false} FillExpressionsKeepsFull(headers: seq<Header>, configs: seq<DimensionConfig>, index: nat, levels: nat)
    requires Full(headers, index, levels) && |configs| <= levels
    ensures Full(FillExpressionsToHeaders(headers, configs, index), index, levels)
    decreases headers
  {
    var r := FillExpressionsToHeaders(headers, configs, index);
    forall i | 0 <= i < |r|
      ensures HeaderFull(r[i], index, levels)
    {
      assert HeaderFull(headers[i], index, levels);
      if index + 1 < |configs| {
        match headers[i].node {
          case Group(children) =>
            FillExpressionsKeepsFull(children, configs, index + 1, levels);
          case Leaf(_) => assert false;
        }
      }
    }
  }

  /** fillExpressionsToData: the configured expressions attached to both trees; nothing else changes. */
  function FillExpressionsToData(data: StemData): StemData
  {
    data.(rowHeaders := FillExpressionsToHeaders(data.rowHeaders, data.rowsConfig, 0),
          columnHeaders := FillExpressionsToHeaders(data.columnHeaders, data.columnsConfig, 0))
  }

  /** The values of a percentage value divided by their denominators, everything else as it was. */
  predicate ComputedValues(modified: seq<seq<Option<real>>>, d: StemData, numValues: nat, infos: seq<ValueTypes.ValueTypeInfo>)
    requires numValues > 0 && |infos| >= numValues
  {
    ValueTypes.SameShape(modified, d.values)
    && forall r, c :: 0 <= r < |d.values| && 0 <= c < |d.values[r]| ==>
         modified[r][c] == ValueTypes.PercentCell(d.values, d.valueTypes, numValues, infos, r, c)
  }

  /**
   * preparePivotData: the values computed by value type, both trees sorted against those values and
   * the expressions attached. Full trees stay full.
   */
  method PreparePivotData(d: StemData, numValues: nat, infos: seq<ValueTypes.ValueTypeInfo>) returns (prepared: StemData)
    requires numValues > 0 && |infos| >= numValues
    requires ValueTypes.Rectangular(d.values)
    ensures ComputedValues(prepared.values, d, numValues, infos)
    ensures prepared == FillExpressionsToData(SortPivotData(d.(values := prepared.values)))
    ensures forall levels: nat :: |d.rowsConfig| <= levels && Full(d.rowHeaders, 0, levels) ==> Full(prepared.rowHeaders, 0, levels)
    ensures forall levels: nat :: |d.columnsConfig| <= levels && Full(d.columnHeaders, 0, levels) ==> Full(prepared.columnHeaders, 0, levels)
  {
    var computed := ValueTypes.ComputeValuesByValueType(d.values, d.valueTypes, numValues, infos);
    var withValues := d.(values := computed);
    var sorted := SortPivotData(withValues);
    prepared := FillExpressionsToData(sorted);
    forall levels: nat | |d.rowsConfig| <= levels && Full(d.rowHeaders, 0, levels)
      ensures Full(prepared.rowHeaders, 0, levels)
    {
      SortKeepsFull(withValues.rowHeaders, 0, RowSorts(withValues), withValues.columnHeaders, computed, d.valueTitles, true, levels);
      FillExpressionsKeepsFull(sorted.rowHeaders, sorted.rowsConfig, 0, levels);
    }
    forall levels: nat | |d.columnsConfig| <= levels && Full(d.columnHeaders, 0, levels)
      ensures Full(prepared.columnHeaders, 0, levels)
    {
      SortKeepsFull(withValues.columnHeaders, 0, ColumnSorts(withValues), withValues.rowHeaders, computed, d.valueTitles, false, levels);
      FillExpressionsKeepsFull(sorted.columnHeaders, sorted.columnsConfig, 0, levels);
    }
  }

  /** A transformation array built from a uniform tree is injective and stays within the tree's lines. */
  lemma MapWithinLines(t: seq<Option<nat>>, hs: seq<Header>, offset: nat, showSums: seq<bool>, numberOfSums: nat)
    requires MapsOntoLeafLines(t, hs, offset, showSums, numberOfSums)
    ensures Injective(t)
    ensures EntriesWithin(t, offset, offset + ChildrenCount(hs, 0, showSums, numberOfSums))
  {
    ChildrenLinesMatchCount(hs, 0, showSums, numberOfSums);
    forall k1, k2 | 0 <= k1 < |t| && 0 <= k2 < |t| && t[k1].Some? && t[k1] == t[k2]
      ensures k1 == k2
    {
      MapIsInjective(t, hs, offset, showSums, numberOfSums, k1, k2);
    }
    forall k | 0 <= k < |t| && t[k].Some?
      ensures offset <= t[k].value < offset + ChildrenCount(hs, 0, showSums, numberOfSums)
    {
      assert EntryOnLeafLine(t, ChildrenLines(hs, 0, showSums, numberOfSums), offset, k);
    }
  }

  // ---------------------------------------------------------------------------------------------
  // Reading group lines back

  /** getValuesIndexesFromCellsIndexes, one side: the matrix line shown on each grid line, skipping lines showing none. */
  function MatrixIndexes(t: seq<Option<nat>>, lines: seq<nat>): (r: seq<nat>)
    ensures forall x :: x in r ==> x < |t| && t[x].Some? && t[x].value in lines
  {
    if lines == [] then []
    else
      var k := |lines| - 1;
      var index := FindIndex(t, lines[k]);
      MatrixIndexes(t, lines[..k]) + (if index >= 0 then [index as nat] else [])
  }

  /** Reading back the grid lines of some shown matrix lines gives those matrix lines again. */
  lemma {:induction false} MatrixIndexesInvert(t: seq<Option<nat>>, indexes: seq<nat>)
    requires Injective(t)
    requires forall i :: 0 <= i < |indexes| ==> indexes[i] < |t| && t[indexes[i]].Some?
    ensures MatrixIndexes(t, TransformIndexes(t, indexes)) == indexes
  {
    if indexes != [] {
      var k := |indexes| - 1;
      var front, x := indexes[..k], indexes[k];
      assert indexes == front + [x];
      MatrixIndexesInvert(t, front);
      TransformIndexesAppend(t, front, x);
      FindIndexInverts(t, x);
      MatrixIndexesAppend(t, TransformIndexes(t, front), t[x].value);
    }
  }

  lemma TransformIndexesAppend(t: seq<Option<nat>>, indexes: seq<nat>, x: nat)
    requires x < |t| && t[x].Some?
    ensures TransformIndexes(t, indexes + [x]) == TransformIndexes(t, indexes) + [t[x].value]
  {
    var s := indexes + [x];
    assert s[..|s| - 1] == indexes;
  }

  lemma MatrixIndexesAppend(t: seq<Option<nat>>, lines: seq<nat>, line: nat)
    requires FindIndex(t, line) >= 0
    ensures MatrixIndexes(t, lines + [line]) == MatrixIndexes(t, lines) + [FindIndex(t, line) as nat]
  {
    var s := lines + [line];
    assert s[..|s| - 1] == lines;
  }

  /** The Sum of the entries of `m` under some keys, skipping missing ones. */
  function LookupSum(m: map<nat, real>, keys: seq<nat>): real
  {
    if keys == [] then 0.0
    else
      var k := |keys| - 1;
      LookupSum(m, keys[..k]) + NumberOf(ValueTypes.Lookup(m, keys[k]))
  }

  /** `cell && (cell.background = background)` */
  function Recolored(x: Option<Cell>, background: string): (r: Option<Cell>)
    ensures r.None? <==> x.None?
    ensures r.Some? ==> r.value == x.value.(background := Some(Color(background)))
  {
    if x.Some? then Some(x.value.(background := Some(Color(background)))) else None
  }

  /** The group recorded at a line, if any. */
  function GroupAt(groups: seq<Option<GroupInfo>>, line: int): Option<GroupInfo>
  {
    if 0 <= line < |groups| then groups[line] else None
  }

  /** Recording a group at one line changes what `GroupAt` reads there and nowhere else. */
  lemma PutGroup(groups: seq<Option<GroupInfo>>, lo: nat, hi: nat, line: nat, info: GroupInfo)
    requires GroupsWithin(groups, lo, hi) && lo <= line < hi
    ensures GroupsWithin(Put(groups, line, info), lo, hi)
    ensures GroupAt(Put(groups, line, info), line) == Some(info)
    ensures forall x :: x != line ==> GroupAt(Put(groups, line, info), x) == GroupAt(groups, x)
  {
  }

  // ---------------------------------------------------------------------------------------------
  // Expression evaluation indexes

  /** The rows an evaluation reports come from its header operands alone: the columns do not matter. */
  lemma {:induction false} ExpressionIndexesIgnoreColumns(e: DataExpression, src: Source, c1: seq<nat>, c2: seq<nat>)
    ensures EvaluateExpression(e, src, c1).indexes == EvaluateExpression(e, src, c2).indexes
    decreases e, 1
  {
    FoldIndexesIgnoreColumns(e.operands, e.operation, src, c1, c2);
  }

  lemma {:induction false} FoldIndexesIgnoreColumns(ops: seq<DataOperand>, operation: Operation, src: Source, c1: seq<nat>, c2: seq<nat>)
    ensures FoldOperands(ops, operation, src, c1).indexes == FoldOperands(ops, operation, src, c2).indexes
    decreases ops, 0
  {
    if ops != [] {
      var k := |ops| - 1;
      FoldIndexesIgnoreColumns(ops[..k], operation, src, c1, c2);
      OperandIndexesIgnoreColumns(ops[k], src, c1, c2);
    }
  }

  lemma {:induction false} OperandIndexesIgnoreColumns(op: DataOperand, src: Source, c1: seq<nat>, c2: seq<nat>)
    ensures EvaluateOperand(op, src, c1).indexes == EvaluateOperand(op, src, c2).indexes
    decreases op, 2
  {
    match op {
      case DataValueOperand(_) =>
      case DataHeaderOperand(_, _) =>
      case DataExpressionOperand(inner) =>
        ExpressionIndexesIgnoreColumns(inner, src, c1, c2);
    }
  }

  // ---------------------------------------------------------------------------------------------
  // The converter

  /**
   * The transformation array of one tree as updateData builds it: from the tree's layout, or a
   * single line for the values of a tree without headers. It is injective and stays within the
   * lines the table gives that tree.
   */
  method BuildTransformation(hs: seq<Header>, levels: nat, showSums: seq<bool>, offset: nat, numberOfSums: nat, hasValue: bool)
    returns (t: seq<Option<nat>>)
    requires Full(hs, 0, levels)
    ensures |hs| > 0 ==> t == WriteAll([], Placements(hs, offset, 0, showSums, numberOfSums))
    ensures |hs| == 0 ==> t == (if hasValue then [Some(offset)] else [])
    ensures Injective(t)
    ensures EntriesWithin(t, offset, offset + (if |hs| == 0 && hasValue then 1 else HeadersChildCount(hs, showSums, numberOfSums)))
    ensures TreeShown(t, hs, offset, showSums, numberOfSums)
  {
    if |hs| > 0 {
      FullIsUniform(hs, 0, levels);
      t := CreateTransformationMap(hs, showSums, offset, numberOfSums);
      MapWithinLines(t, hs, offset, showSums, numberOfSums);
      TreeLaidOut(t, hs, offset, showSums, numberOfSums);
      GrandTotalFree(t, hs, offset, showSums, numberOfSums);
    } else {
      t := if hasValue then [Some(offset)] else [];
    }
  }

  /**
   * What a transformation array shows of its tree: every leaf, on leaf lines only, and, for a
   * tree with headers, nothing on the grand total lines after the tree's lines.
   */
  predicate TreeShown(t: seq<Option<nat>>, hs: seq<Header>, offset: nat, showSums: seq<bool>, numberOfSums: nat)
  {
    && Shown(t, TargetIndexesOf(hs))
    && NonLeafLinesFree(t, ChildrenLines(hs, 0, showSums, numberOfSums), offset)
    && (|hs| > 0 ==> NonLeafLinesFree(t, SumLinesAt(showSums, 0, numberOfSums), offset + ChildrenCount(hs, 0, showSums, numberOfSums)))
  }

  /** The number of value columns under each column leaf: one per value, and at least one. */
  function SumsOf(d: StemData): (r: nat)
    ensures r >= 1 && r >= |d.valueTitles|
  {
    if |d.valueTitles| > 1 then |d.valueTitles| else 1
  }

  /**
   * What updateData derives from a stem besides the values: the configurations kept, full trees,
   * and both transformation arrays built from those trees, each injective and within the lines the table gives its tree.
   */
  predicate StemPrepared(d: StemData, infos: seq<ValueTypes.ValueTypeInfo>, prepared: StemData,
                         rows: seq<Option<nat>>, columns: seq<Option<nat>>)
  {
    && |infos| == SumsOf(d)
    && |prepared.rowHeaders| == |d.rowHeaders| && |prepared.columnHeaders| == |d.columnHeaders|
    && prepared.rowsConfig == d.rowsConfig && prepared.columnsConfig == d.columnsConfig
    && prepared.valueTitles == d.valueTitles && prepared.hasAdditionalColumnLevel == d.hasAdditionalColumnLevel
    && Full(prepared.rowHeaders, 0, |d.rowsConfig|)
    && Full(prepared.columnHeaders, 0, ColumnLevelsOf(d))
    && (|prepared.rowHeaders| > 0 ==>
          rows == WriteAll([], Placements(prepared.rowHeaders, ColumnLevelsOf(d), 0, ShowSumsOf(prepared.rowsConfig), 1)))
    && (|prepared.rowHeaders| == 0 ==> rows == (if |d.valueTitles| > 0 then [Some(ColumnLevelsOf(d))] else []))
    && (|prepared.columnHeaders| > 0 ==>
          columns == WriteAll([], Placements(prepared.columnHeaders, |d.rowsConfig|, 0, ShowSumsOf(prepared.columnsConfig), SumsOf(d))))
    && (|prepared.columnHeaders| == 0 ==> columns == (if |d.valueTitles| > 0 then [Some(|d.rowsConfig|)] else []))
    && Injective(rows) && Injective(columns)
    && EntriesWithin(rows, ColumnLevelsOf(d), ColumnLevelsOf(d) +
      (if |prepared.rowHeaders| == 0 && |d.valueTitles| > 0 then 1
       else HeadersChildCount(prepared.rowHeaders, ShowSumsOf(prepared.rowsConfig), 1)))
    && EntriesWithin(columns, |d.rowsConfig|, |d.rowsConfig| +
      (if |prepared.columnHeaders| == 0 && |d.valueTitles| > 0 then 1
       else HeadersChildCount(prepared.columnHeaders, ShowSumsOf(prepared.columnsConfig), SumsOf(d))))
    && TreeShown(rows, prepared.rowHeaders, ColumnLevelsOf(d), ShowSumsOf(prepared.rowsConfig), 1)
    && TreeShown(columns, prepared.columnHeaders, |d.rowsConfig|, ShowSumsOf(prepared.columnsConfig), SumsOf(d))
  }

  /** The part of updateData that only computes: the model prepared from a stem and its transformation arrays. */
  method PrepareStem(d: StemData) returns (infos: seq<ValueTypes.ValueTypeInfo>, prepared: StemData,
                                           rows: seq<Option<nat>>, columns: seq<Option<nat>>)
    requires BuiltStem(d)
    ensures PreparedFrom(d, infos, prepared) && StemPrepared(d, infos, prepared, rows, columns)
  {
    infos := ValueTypes.GetValuesTypeInfo(d.values, d.valueTypes, SumsOf(d));
    prepared := PreparePivotData(d, SumsOf(d), infos);
    var hasValue := |d.valueTitles| > 0;
    rows := BuildTransformation(prepared.rowHeaders, |d.rowsConfig|, ShowSumsOf(prepared.rowsConfig), ColumnLevelsOf(d), 1, hasValue);
    columns := BuildTransformation(prepared.columnHeaders, ColumnLevelsOf(d), ShowSumsOf(prepared.columnsConfig), |d.rowsConfig|,
                                   SumsOf(d), hasValue);
  }

  /**
   * `prepared` and `infos` are what updateData computes from `d`: one type information per value,
   * the values computed by value type, then both trees sorted and the expressions attached.
   */
  predicate PreparedFrom(d: StemData, infos: seq<ValueTypes.ValueTypeInfo>, prepared: StemData)
  {
    && |infos| == SumsOf(d)
    && (forall i :: 0 <= i < |infos| ==> infos[i] == ValueTypes.InfoFor(d.values, d.valueTypes, SumsOf(d), i))
    && ComputedValues(prepared.values, d, SumsOf(d), infos)
    && prepared == FillExpressionsToData(SortPivotData(d.(values := prepared.values)))
  }

  /** The number of column header levels: one per column attribute, and one for the value titles when they get a level. */
  function ColumnLevelsOf(d: StemData): (r: nat)
    ensures r >= |d.columnsConfig|
  {
    |d.columnsConfig| + (if d.hasAdditionalColumnLevel then 1 else 0)
  }

  /** What the builder guarantees of a stem: full trees over the configured levels and a rectangular values matrix. */
  predicate BuiltStem(d: StemData)
  {
    && Full(d.rowHeaders, 0, |d.rowsConfig|)
    && Full(d.columnHeaders, 0, |d.columnsConfig| + (if d.hasAdditionalColumnLevel then 1 else 0))
    && ValueTypes.Rectangular(d.values)
  }

  /** A stem without column headers shows no top-level column subtotal over several values. */
  predicate StemSumsFit(d: StemData)
  {
    !(|d.columnHeaders| == 0 && ShowSum(ShowSumsOf(d.columnsConfig), 0) && |d.valueTitles| > 1)
  }

  /** dataAreEmpty: neither row nor column headers. */
  predicate DataAreEmpty(d: StemData)
  {
    |d.rowHeaders| == 0 && |d.columnHeaders| == 0
  }

  /** getRowsCount plus the column header rows, for a prepared stem. */
  function TableRowsOf(p: StemData): nat
  {
    ColumnLevelsOf(p) + (if |p.rowHeaders| == 0 && |p.valueTitles| > 0 then 1 else HeadersChildCount(p.rowHeaders, ShowSumsOf(p.rowsConfig), 1))
  }

  /** getColumnsCount plus the row header columns, for a prepared stem. */
  function TableColumnsOf(p: StemData): nat
  {
    |p.rowsConfig| + (if |p.columnHeaders| == 0 && |p.valueTitles| > 0 then 1
                      else HeadersChildCount(p.columnHeaders, ShowSumsOf(p.columnsConfig), SumsOf(p)))
  }

  /** The table of a prepared stem: the size its trees take, with every row and column header cell in its place. */
  ghost predicate TableOf(p: StemData, g: Grid)
  {
    && Dims(g, TableRowsOf(p), TableColumnsOf(p))
    && RowHeadersPlaced(g, p.rowHeaders, ColumnLevelsOf(p), 0, ShowSumsOf(p.rowsConfig), p.rowsConfig)
    && ColumnHeadersPlaced(g, p.columnHeaders, |p.rowsConfig|, 0, ShowSumsOf(p.columnsConfig), SumsOf(p), p.columnsConfig)
  }

  class PivotTableConverter {
    /** The prepared model: values computed by value type, trees sorted, expressions attached. */
    var data: StemData
    /** The values as given, which every subtotal and expression aggregates. */
    var values: seq<seq<Option<real>>>
    var rowLevels: nat
    var columnLevels: nat
    /** The grid row of every matrix row; `None` where the source array has a hole. */
    var rowsTransformation: seq<Option<nat>>
    /** The grid column of every matrix column. */
    var columnsTransformation: seq<Option<nat>>
    var valueTypeInfo: seq<ValueTypes.ValueTypeInfo>
    var nonStickyRowIndex: nat
    var nonStickyColumnIndex: nat

    constructor()
    {
      data := StemData([], [], [], [], [], [], [], [], false);
      values := [];
      rowLevels := 0;
      columnLevels := 0;
      rowsTransformation := [];
      columnsTransformation := [];
      valueTypeInfo := [];
      nonStickyRowIndex := 0;
      nonStickyColumnIndex := 0;
    }

    function RowShowSums(): seq<bool>
      reads this
    {
      ShowSumsOf(data.rowsConfig)
    }

    function ColumnShowSums(): seq<bool>
      reads this
    {
      ShowSumsOf(data.columnsConfig)
    }

    /** `Math.max(1, valueTitles.length)`: the columns every column subtotal takes. */
    function NumberOfSums(): (r: nat)
      reads this
      ensures r >= 1 && r >= |data.valueTitles|
    {
      if |data.valueTitles| > 1 then |data.valueTitles| else 1
    }

    /** getRowsCount: one line for a table of values alone, else every line of the row tree. */
    function RowsCount(): nat
      reads this
    {
      if |data.rowHeaders| == 0 && |data.valueTitles| > 0 then 1
      else HeadersChildCount(data.rowHeaders, RowShowSums(), 1)
    }

    /** getColumnsCount */
    function ColumnsCount(): nat
      reads this
    {
      if |data.columnHeaders| == 0 && |data.valueTitles| > 0 then 1
      else HeadersChildCount(data.columnHeaders, ColumnShowSums(), NumberOfSums())
    }

    function GridRows(): nat
      reads this
    {
      RowsCount() + columnLevels
    }

    function GridColumns(): nat
      reads this
    {
      ColumnsCount() + rowLevels
    }

    /** The state updateData leaves behind. */
    predicate Valid()
      reads this
    {
      && rowLevels == |data.rowsConfig|
      && columnLevels == |data.columnsConfig| + (if data.hasAdditionalColumnLevel then 1 else 0)
      && Full(data.rowHeaders, 0, rowLevels)
      && Full(data.columnHeaders, 0, columnLevels)
      && |valueTypeInfo| == NumberOfSums()
      && nonStickyRowIndex == NonStickyIndex(data.rowsConfig, rowLevels)
      && nonStickyColumnIndex == NonStickyIndex(data.columnsConfig, columnLevels)
      && Injective(rowsTransformation) && Injective(columnsTransformation)
      && EntriesWithin(rowsTransformation, columnLevels, GridRows())
      && EntriesWithin(columnsTransformation, rowLevels, GridColumns())
    }

    // -------------------------------------------------------------------------------------------
    // Cell values

    /** The cell of matrix entry (row, column): its value computed by value type, as a data cell. */
    function LeafCell(row: nat, column: nat): Cell
      reads this
    {
      ValueCell(ValueOf(MatrixAt(data.values, row, column)), DataClass, None)
    }

    /**
     * aggregateAndFormatDataValues with the Sum aggregation: the sum of the given values over some
     * rows and columns; for a percentage value, divided by what formatGroupedValueByValueType divides by.
     */
    function GroupedValue(rows: seq<nat>, columns: seq<nat>): CellValue
      reads this
    {
      var v := GridSum(values, rows, columns);
      if |data.valueTitles| == 0 || columns == [] then Number(v)
      else
        var i := columns[0] % |data.valueTitles|;
        var t := ValueTypes.TypeAt(data.valueTypes, i);
        if i >= |valueTypeInfo| || t.None? then Number(v)
        else
          var info := valueTypeInfo[i];
          match t.value
          case Default => Number(v)
          case AllPercentage => ValueOf(ValueTypes.DivideValues(Some(v), info.sum))
          case ColumnPercentage => ValueOf(ValueTypes.DivideValues(Some(v), Some(LookupSum(info.sumsColumns, columns))))
          case RowPercentage => ValueOf(ValueTypes.DivideValues(Some(v), Some(LookupSum(info.sumsRows, rows))))
    }

    function GroupedCell(rows: seq<nat>, columns: seq<nat>, background: string): Cell
      reads this
    {
      ValueCell(GroupedValue(rows, columns), GroupDataClass, Some(Color(background)))
    }

    function Src(): Source
      reads this
    {
      Source(values, rowsTransformation)
    }

    function ExpressionCell(e: DataExpression, columns: seq<nat>, background: Option<Background>): Cell
      reads this
    {
      ValueCell(Number(EvaluateExpression(e, Src(), columns).value), GroupDataClass, background)
    }

    // -------------------------------------------------------------------------------------------
    // Writing one grid line

    /**
     * `g'` is `g` with grid row `line` written at the grid column of each of the first `n` matrix
     * columns that has one: matrix column `c` gets `cs[c]`. Every other cell is unchanged.
     */
    ghost predicate RowLineWritten(g: Grid, g': Grid, line: nat, cs: seq<Cell>, n: nat)
      reads this
    {
      && n <= |cs| == |columnsTransformation|
      && (forall c :: 0 <= c < n && columnsTransformation[c].Some? ==>
            At(g', line, columnsTransformation[c].value) == Some(cs[c]))
      && (forall r, c :: !(r == line && 0 <= c && 0 <= FindIndex(columnsTransformation, c) < n) ==> At(g', r, c) == At(g, r, c))
    }

    /** The same for grid column `line` and the first `n` matrix rows. */
    ghost predicate ColumnLineWritten(g: Grid, g': Grid, line: nat, cs: seq<Cell>, n: nat)
      reads this
    {
      && n <= |cs| == |rowsTransformation|
      && (forall r :: 0 <= r < n && rowsTransformation[r].Some? ==>
            At(g', rowsTransformation[r].value, line) == Some(cs[r]))
      && (forall r, c :: !(c == line && 0 <= r && 0 <= FindIndex(rowsTransformation, r) < n) ==> At(g', r, c) == At(g, r, c))
    }

    /** Only the data area, right of the row headers and below the column headers, may differ. */
    predicate HeadersKept(a: Grid, b: Grid)
      reads this
    {
      Kept(a, b, 0, GridRows(), 0, rowLevels) && Kept(a, b, 0, columnLevels, 0, GridColumns())
    }

    lemma RowLineStep(g: Grid, g1: Grid, line: nat, cs: seq<Cell>, n: nat)
      requires Valid() && Dims(g1, GridRows(), GridColumns()) && line < GridRows()
      requires RowLineWritten(g, g1, line, cs, n) && n < |cs|
      ensures columnsTransformation[n].None? ==> RowLineWritten(g, g1, line, cs, n + 1)
      ensures columnsTransformation[n].Some? ==>
        columnsTransformation[n].value < |g1[line]|
        && RowLineWritten(g, Write(g1, line, columnsTransformation[n].value, cs[n]), line, cs, n + 1)
    {
      if columnsTransformation[n].Some? {
        FindIndexInverts(columnsTransformation, n);
      }
    }

    lemma ColumnLineStep(g: Grid, g1: Grid, line: nat, cs: seq<Cell>, n: nat)
      requires Valid() && Dims(g1, GridRows(), GridColumns()) && line < GridColumns()
      requires ColumnLineWritten(g, g1, line, cs, n) && n < |cs|
      ensures rowsTransformation[n].None? ==> ColumnLineWritten(g, g1, line, cs, n + 1)
      ensures rowsTransformation[n].Some? ==>
        rowsTransformation[n].value < |g1| && line < |g1[rowsTransformation[n].value]|
        && ColumnLineWritten(g, Write(g1, rowsTransformation[n].value, line, cs[n]), line, cs, n + 1)
    {
      if rowsTransformation[n].Some? {
        FindIndexInverts(rowsTransformation, n);
      }
    }

    /** A written row line inside the data area leaves the headers alone. */
    lemma RowLineInDataArea(g: Grid, g': Grid, line: nat, cs: seq<Cell>)
      requires Valid() && columnLevels <= line
      requires RowLineWritten(g, g', line, cs, |cs|)
      ensures HeadersKept(g, g')
    {
      forall r, c | 0 <= r < GridRows() && 0 <= c < rowLevels
        ensures At(g', r, c) == At(g, r, c)
      {
      }
    }

    lemma ColumnLineInDataArea(g: Grid, g': Grid, line: nat, cs: seq<Cell>)
      requires Valid() && rowLevels <= line
      requires ColumnLineWritten(g, g', line, cs, |cs|)
      ensures HeadersKept(g, g')
    {
      forall r, c | 0 <= r < columnLevels && 0 <= c < GridColumns()
        ensures At(g', r, c) == At(g, r, c)
      {
      }
    }

    /** The data cells of one matrix row. */
    function LeafRow(row: nat): (cs: seq<Cell>)
      reads this
      ensures |cs| == |columnsTransformation|
      ensures forall c :: 0 <= c < |cs| ==> cs[c] == LeafCell(row, c)
    {
      seq(|columnsTransformation|, c requires 0 <= c < |columnsTransformation| reads this => LeafCell(row, c))
    }

    /** The data cells of one matrix column. */
    function LeafColumn(column: nat): (cs: seq<Cell>)
      reads this
      ensures |cs| == |rowsTransformation|
      ensures forall r :: 0 <= r < |cs| ==> cs[r] == LeafCell(r, column)
    {
      seq(|rowsTransformation|, r requires 0 <= r < |rowsTransformation| reads this => LeafCell(r, column))
    }

    /**
     * fillCellsForRow: when matrix row `row` has a grid row, the value of every shown matrix column
     * is written there at that column's grid column; nothing else changes.
     */
    method FillCellsForRow(cells: Grid, row: nat) returns (cells': Grid)
      requires Valid() && Dims(cells, GridRows(), GridColumns())
      ensures Dims(cells', GridRows(), GridColumns())
      ensures row < |rowsTransformation| && rowsTransformation[row].Some? ==>
        RowLineWritten(cells, cells', rowsTransformation[row].value, LeafRow(row), |columnsTransformation|)
      ensures !(row < |rowsTransformation| && rowsTransformation[row].Some?) ==> cells' == cells
      ensures HeadersKept(cells, cells')
    {
      cells' := cells;
      if row < |rowsTransformation| && rowsTransformation[row].Some? {
        var line := rowsTransformation[row].value;
        var cs := LeafRow(row);
        var column := 0;
        while column < |columnsTransformation|
          invariant 0 <= column <= |columnsTransformation|
          invariant Dims(cells', GridRows(), GridColumns())
          invariant RowLineWritten(cells, cells', line, cs, column)
        {
          RowLineStep(cells, cells', line, cs, column);
          if columnsTransformation[column].Some? {
            cells' := Write(cells', line, columnsTransformation[column].value, LeafCell(row, column));
          }
          column := column + 1;
        }
        RowLineInDataArea(cells, cells', line, cs);
      }
    }

    /** fillCellsForColumn: the same for a matrix column. */
    method FillCellsForColumn(cells: Grid, column: nat) returns (cells': Grid)
      requires Valid() && Dims(cells, GridRows(), GridColumns())
      ensures Dims(cells', GridRows(), GridColumns())
      ensures column < |columnsTransformation| && columnsTransformation[column].Some? ==>
        ColumnLineWritten(cells, cells', columnsTransformation[column].value, LeafColumn(column), |rowsTransformation|)
      ensures !(column < |columnsTransformation| && columnsTransformation[column].Some?) ==> cells' == cells
      ensures HeadersKept(cells, cells')
    {
      cells' := cells;
      if column < |columnsTransformation| && columnsTransformation[column].Some? {
        var line := columnsTransformation[column].value;
        var cs := LeafColumn(column);
        var row := 0;
        while row < |rowsTransformation|
          invariant 0 <= row <= |rowsTransformation|
          invariant Dims(cells', GridRows(), GridColumns())
          invariant ColumnLineWritten(cells, cells', line, cs, row)
        {
          ColumnLineStep(cells, cells', line, cs, row);
          if rowsTransformation[row].Some? {
            cells' := Write(cells', rowsTransformation[row].value, line, LeafCell(row, column));
          }
          row := row + 1;
        }
        ColumnLineInDataArea(cells, cells', line, cs);
      }
    }

    /** The subtotal cells of a row group over matrix rows `rows`. */
    function GroupedRow(rows: seq<nat>, background: string): (cs: seq<Cell>)
      reads this
      ensures |cs| == |columnsTransformation|
      ensures forall c :: 0 <= c < |cs| ==> cs[c] == GroupedCell(rows, [c], background)
    {
      seq(|columnsTransformation|, c requires 0 <= c < |columnsTransformation| reads this => GroupedCell(rows, [c], background))
    }

    /** The subtotal cells of a column group over matrix columns `columns`. */
    function GroupedColumn(columns: seq<nat>, background: string): (cs: seq<Cell>)
      reads this
      ensures |cs| == |rowsTransformation|
      ensures forall r :: 0 <= r < |cs| ==> cs[r] == GroupedCell([r], columns, background)
    {
      seq(|rowsTransformation|, r requires 0 <= r < |rowsTransformation| reads this => GroupedCell([r], columns, background))
    }

    /**
     * fillCellsForGroupedRow: grid row `line` gets, at every shown matrix column, the subtotal of
     * that column over the matrix rows `rows`.
     */
    method FillCellsForGroupedRow(cells: Grid, rows: seq<nat>, line: nat, background: string) returns (cells': Grid)
      requires Valid() && Dims(cells, GridRows(), GridColumns())
      requires columnLevels <= line < GridRows()
      ensures Dims(cells', GridRows(), GridColumns())
      ensures RowLineWritten(cells, cells', line, GroupedRow(rows, background), |columnsTransformation|)
      ensures HeadersKept(cells, cells')
    {
      cells' := cells;
      var cs := GroupedRow(rows, background);
      var column := 0;
      while column < |columnsTransformation|
        invariant 0 <= column <= |columnsTransformation|
        invariant Dims(cells', GridRows(), GridColumns())
        invariant RowLineWritten(cells, cells', line, cs, column)
      {
        RowLineStep(cells, cells', line, cs, column);
        if columnsTransformation[column].Some? {
          cells' := Write(cells', line, columnsTransformation[column].value, GroupedCell(rows, [column], background));
        }
        column := column + 1;
      }
      RowLineInDataArea(cells, cells', line, cs);
    }

    /**
     * fillCellsForGroupedColumn: grid column `line` gets, at every shown matrix row, the subtotal of
     * that row over the matrix columns `columns`.
     */
    method FillCellsForGroupedColumn(cells: Grid, columns: seq<nat>, line: nat, background: string) returns (cells': Grid)
      requires Valid() && Dims(cells, GridRows(), GridColumns())
      requires rowLevels <= line < GridColumns()
      ensures Dims(cells', GridRows(), GridColumns())
      ensures ColumnLineWritten(cells, cells', line, GroupedColumn(columns, background), |rowsTransformation|)
      ensures HeadersKept(cells, cells')
    {
      cells' := cells;
      var cs := GroupedColumn(columns, background);
      var row := 0;
      while row < |rowsTransformation|
        invariant 0 <= row <= |rowsTransformation|
        invariant Dims(cells', GridRows(), GridColumns())
        invariant ColumnLineWritten(cells, cells', line, cs, row)
      {
        ColumnLineStep(cells, cells', line, cs, row);
        if rowsTransformation[row].Some? {
          cells' := Write(cells', rowsTransformation[row].value, line, GroupedCell([row], columns, background));
        }
        row := row + 1;
      }
      ColumnLineInDataArea(cells, cells', line, cs);
    }

    /** The cells of an expression row. */
    function ExpressionRow(e: DataExpression, background: string): (cs: seq<Cell>)
      reads this
      ensures |cs| == |columnsTransformation|
      ensures forall c :: 0 <= c < |cs| ==> cs[c] == ExpressionCell(e, [c], Some(Color(background)))
    {
      seq(|columnsTransformation|, c requires 0 <= c < |columnsTransformation| reads this => ExpressionCell(e, [c], Some(Color(background))))
    }

    /** Some matrix column is shown. */
    predicate AnyColumnShown()
      reads this
    {
      exists c :: 0 <= c < |columnsTransformation| && columnsTransformation[c].Some?
    }

    /** The grid rows an expression's header operands cover. */
    function ExpressionIndexes(e: DataExpression): seq<nat>
      reads this
    {
      EvaluateExpression(e, Src(), []).indexes
    }

    /**
     * fillCellsForExpressionRow: grid row `line` gets the expression evaluated at every shown matrix
     * column. The returned indexes are the grid rows its header operands cover together with the
     * expression's own row, each once.
     */
    method FillCellsForExpressionRow(cells: Grid, e: DataExpression, line: nat, background: string)
      returns (cells': Grid, indexes: seq<nat>)
      requires Valid() && Dims(cells, GridRows(), GridColumns())
      requires columnLevels <= line < GridRows()
      ensures Dims(cells', GridRows(), GridColumns())
      ensures RowLineWritten(cells, cells', line, ExpressionRow(e, background), |columnsTransformation|)
      ensures HeadersKept(cells, cells')
      ensures indexes == UniqueValues((if AnyColumnShown() then ExpressionIndexes(e) else []) + [line])
    {
      cells' := cells;
      var cs := ExpressionRow(e, background);
      var rowIndexes: seq<nat> := [];
      var column := 0;
      while column < |columnsTransformation|
        invariant 0 <= column <= |columnsTransformation|
        invariant Dims(cells', GridRows(), GridColumns())
        invariant RowLineWritten(cells, cells', line, cs, column)
        invariant rowIndexes == if exists c :: 0 <= c < column && columnsTransformation[c].Some? then ExpressionIndexes(e) else []
      {
        if columnsTransformation[column].Some? {
          cells', rowIndexes := FillExpressionCell(cells, cells', e, line, background, column);
        } else {
          RowLineStep(cells, cells', line, cs, column);
        }
        column := column + 1;
      }
      RowLineInDataArea(cells, cells', line, cs);
      indexes := UniqueValues(rowIndexes + [line]);
    }

    /** One shown column of an expression row: the cell evaluated for that column alone. */
    method FillExpressionCell(cells: Grid, current: Grid, e: DataExpression, line: nat, background: string, column: nat)
      returns (cells': Grid, rowIndexes: seq<nat>)
      requires Valid() && Dims(current, GridRows(), GridColumns())
      requires columnLevels <= line < GridRows()
      requires column < |columnsTransformation| && columnsTransformation[column].Some?
      requires RowLineWritten(cells, current, line, ExpressionRow(e, background), column)
      ensures Dims(cells', GridRows(), GridColumns())
      ensures RowLineWritten(cells, cells', line, ExpressionRow(e, background), column + 1)
      ensures rowIndexes == ExpressionIndexes(e)
    {
      var cs := ExpressionRow(e, background);
      RowLineStep(cells, current, line, cs, column);
      var evaluation := EvaluateExpression(e, Src(), [column]);
      ExpressionIndexesIgnoreColumns(e, Src(), [column], []);
      rowIndexes := evaluation.indexes;
      cells' := Write(current, line, columnsTransformation[column].value, ExpressionCell(e, [column], Some(Color(background))));
    }

    // -------------------------------------------------------------------------------------------
    // What the data area holds

    /** Grid cell (rT[r], cT[c]) shows matrix entry (r, c): both lines are shown and the cell holds the entry. */
    predicate LeafDone(g: Grid, r: nat, c: nat)
      reads this
    {
      && r < |rowsTransformation| && rowsTransformation[r].Some?
      && c < |columnsTransformation| && columnsTransformation[c].Some?
      && At(g, rowsTransformation[r].value, columnsTransformation[c].value) == Some(LeafCell(r, c))
    }

    /** Entries shown in `a` are still shown in `b`. */
    ghost predicate LeafCellsKept(a: Grid, b: Grid)
      reads this
    {
      forall r: nat, c: nat :: LeafDone(a, r, c) ==> LeafDone(b, r, c)
    }

    /** Every matrix row of `rows` shows its entries at every shown matrix column. */
    ghost predicate RowsDone(g: Grid, rows: seq<nat>)
      reads this
    {
      forall r: nat, c: nat {:trigger LeafDone(g, r, c)} ::
        r in rows && c < |columnsTransformation| && columnsTransformation[c].Some? ==> LeafDone(g, r, c)
    }

    /** Every matrix column of `columns` shows its entries at every shown matrix row. */
    ghost predicate ColumnsDone(g: Grid, columns: seq<nat>)
      reads this
    {
      forall r: nat, c: nat {:trigger LeafDone(g, r, c)} ::
        c in columns && r < |rowsTransformation| && rowsTransformation[r].Some? ==> LeafDone(g, r, c)
    }

    /**
     * A row group's cell at matrix column `c`: the subtotal of that column over the matrix rows
     * the group's grid rows show, or the group's expression evaluated for that column.
     */
    function RowGroupCell(rg: GroupInfo, c: nat): Cell
      reads this
    {
      if rg.expression.Some? then ExpressionCell(rg.expression.value, [c], Some(Color(rg.background)))
      else GroupedCell(MatrixIndexes(rowsTransformation, rg.indexes), [c], rg.background)
    }

    /** A column group's cell at matrix row `r`: the subtotal of that row over the matrix columns the group's grid columns show. */
    function ColumnGroupCell(cg: GroupInfo, r: nat): Cell
      reads this
    {
      GroupedCell([r], MatrixIndexes(columnsTransformation, cg.indexes), cg.background)
    }

    /** No row group sits on the grid row of matrix row `r`. */
    predicate NoRowGroupOn(groups: seq<Option<GroupInfo>>, r: nat)
      reads this
    {
      r < |rowsTransformation| && rowsTransformation[r].Some? ==> GroupAt(groups, rowsTransformation[r].value).None?
    }

    /** A row group on grid row `line` has its cell there at the grid column of matrix column `c`. */
    predicate RowGroupCellAt(g: Grid, groups: seq<Option<GroupInfo>>, line: nat, c: nat)
      reads this
    {
      GroupAt(groups, line).Some? && c < |columnsTransformation| && columnsTransformation[c].Some? ==>
        At(g, line, columnsTransformation[c].value) == Some(RowGroupCell(GroupAt(groups, line).value, c))
    }

    /**
     * No row group sits on the grid row of a matrix row, and every row group's grid row holds the
     * group's cell at every shown matrix column.
     */
    ghost predicate RowGroupsDone(g: Grid, groups: seq<Option<GroupInfo>>)
      reads this
    {
      (forall r: nat :: NoRowGroupOn(groups, r)) && (forall line: nat, c: nat :: RowGroupCellAt(g, groups, line, c))
    }

    /** No column group sits on the grid column of matrix column `c`. */
    predicate NoColumnGroupOn(groups: seq<Option<GroupInfo>>, c: nat)
      reads this
    {
      c < |columnsTransformation| && columnsTransformation[c].Some? ==> GroupAt(groups, columnsTransformation[c].value).None?
    }

    /** A column group on grid column `line` has its cell there at the grid row of matrix row `r`. */
    predicate ColumnGroupCellAt(g: Grid, groups: seq<Option<GroupInfo>>, line: nat, r: nat)
      reads this
    {
      GroupAt(groups, line).Some? && r < |rowsTransformation| && rowsTransformation[r].Some? ==>
        At(g, rowsTransformation[r].value, line) == Some(ColumnGroupCell(GroupAt(groups, line).value, r))
    }

    /**
     * No column group sits on the grid column of a matrix column, and, when the table has values,
     * every column group's grid column holds the group's cell at every shown matrix row.
     */
    ghost predicate ColumnGroupsDone(g: Grid, groups: seq<Option<GroupInfo>>)
      reads this
    {
      && (forall c: nat :: NoColumnGroupOn(groups, c))
      && (|data.valueTitles| > 0 ==> forall line: nat, r: nat :: ColumnGroupCellAt(g, groups, line, r))
    }

    /** What a step of the row pass leaves in the data area: the row groups done, entries kept, and matrix rows `rows` shown. */
    ghost predicate RowDataFilled(a: Grid, b: Grid, groups: seq<Option<GroupInfo>>, rows: seq<nat>)
      reads this
    {
      RowGroupsDone(b, groups) && LeafCellsKept(a, b) && RowsDone(b, rows)
    }

    /** With no row groups recorded, there is nothing to hold. */
    lemma NoRowGroupsDone(g: Grid)
      ensures RowGroupsDone(g, [])
    {
      forall r: nat
        ensures NoRowGroupOn([], r)
      {
      }
      forall line: nat, c: nat
        ensures RowGroupCellAt(g, [], line, c)
      {
      }
    }

    /** Only header cells changed: the data area holds what it held. */
    lemma DataAreaKept(a: Grid, b: Grid, groups: seq<Option<GroupInfo>>)
      requires Valid() && GroupsWithin(groups, columnLevels, GridRows())
      requires Kept(a, b, columnLevels, GridRows(), rowLevels, GridColumns())
      requires RowGroupsDone(a, groups)
      ensures RowGroupsDone(b, groups) && LeafCellsKept(a, b)
    {
      forall line: nat, c: nat
        ensures RowGroupCellAt(b, groups, line, c)
      {
        assert RowGroupCellAt(a, groups, line, c);
      }
    }

    /** Writing a matrix row's cells shows its entries and keeps everything else the data area holds. */
    lemma LeafRowData(a: Grid, b: Grid, groups: seq<Option<GroupInfo>>, row: nat)
      requires Valid() && ShownAt(rowsTransformation, row)
      requires RowLineWritten(a, b, rowsTransformation[row].value, LeafRow(row), |columnsTransformation|)
      requires RowGroupsDone(a, groups)
      ensures RowDataFilled(a, b, groups, [row])
    {
      var line := rowsTransformation[row].value;
      forall r: nat, c: nat | LeafDone(a, r, c)
        ensures LeafDone(b, r, c)
      {
        if r != row {
          assert rowsTransformation[r].value != line;
        }
      }
      assert NoRowGroupOn(groups, row);
      forall x: nat, c: nat
        ensures RowGroupCellAt(b, groups, x, c)
      {
        assert RowGroupCellAt(a, groups, x, c);
      }
    }

    /**
     * Writing a row group's cells on a grid row that shows no matrix row records the group there
     * and keeps everything else the data area holds.
     */
    lemma RowGroupData(a: Grid, b: Grid, groups: seq<Option<GroupInfo>>, line: nat, cs: seq<Cell>, info: GroupInfo)
      requires Valid() && Some(line) !in rowsTransformation
      requires RowLineWritten(a, b, line, cs, |columnsTransformation|)
      requires forall c :: 0 <= c < |cs| && columnsTransformation[c].Some? ==> cs[c] == RowGroupCell(info, c)
      requires RowGroupsDone(a, groups)
      ensures RowGroupsDone(b, Put(groups, line, info)) && LeafCellsKept(a, b)
    {
      var groups' := Put(groups, line, info);
      forall r: nat
        ensures NoRowGroupOn(groups', r)
      {
        assert NoRowGroupOn(groups, r);
        if r < |rowsTransformation| && rowsTransformation[r].Some? {
          assert rowsTransformation[r].value != line;
          assert GroupAt(groups, rowsTransformation[r].value) == GroupAt(groups', rowsTransformation[r].value);
        }
      }
      forall x: nat, c: nat
        ensures RowGroupCellAt(b, groups', x, c)
      {
        if x != line && c < |columnsTransformation| && columnsTransformation[c].Some? {
          assert RowGroupCellAt(a, groups, x, c);
          assert GroupAt(groups, x) == GroupAt(groups', x);
          assert At(b, x, columnsTransformation[c].value) == At(a, x, columnsTransformation[c].value);
        }
      }
      forall r: nat, c: nat | LeafDone(a, r, c)
        ensures LeafDone(b, r, c)
      {
        assert rowsTransformation[r].value != line;
      }
    }

    /**
     * The subtotal row of a sibling list, on a grid row that shows no matrix row: its cells are the
     * cells of the group recorded there, whose grid rows read back as the list's matrix rows.
     */
    lemma SummaryRowData(a: Grid, b: Grid, groups: seq<Option<GroupInfo>>, headers: seq<Header>, line: nat,
                         background: string, level: nat)
      requires Valid() && Some(line) !in rowsTransformation
      requires Shown(rowsTransformation, TargetIndexesOf(headers))
      requires RowLineWritten(a, b, line, GroupedRow(TargetIndexesForHeaders(headers), background), |columnsTransformation|)
      requires RowGroupsDone(a, groups)
      ensures RowGroupsDone(b, Put(groups, line, GroupInfo(background, TransformIndexes(rowsTransformation, TargetIndexesForHeaders(headers)),
                                                         None, level)))
      ensures LeafCellsKept(a, b)
    {
      var rows := TargetIndexesForHeaders(headers);
      forall i | 0 <= i < |rows|
        ensures rows[i] < |rowsTransformation| && rowsTransformation[rows[i]].Some?
      {
        assert rows[i] in TargetIndexesOf(headers);
        assert ShownAt(rowsTransformation, rows[i]);
      }
      MatrixIndexesInvert(rowsTransformation, rows);
      RowGroupData(a, b, groups, line, GroupedRow(rows, background),
                   GroupInfo(background, TransformIndexes(rowsTransformation, rows), None, level));
    }

    /** The row pass over the first `i + 1` headers of a list: the first `i`, then header `i`. */
    lemma RowDataAppend(a: Grid, b: Grid, c: Grid, gb: seq<Option<GroupInfo>>, gc: seq<Option<GroupInfo>>, headers: seq<Header>, i: nat)
      requires i < |headers|
      requires RowDataFilled(a, b, gb, TargetIndexesOf(headers[..i]))
      requires RowDataFilled(b, c, gc, TargetIndexesForHeader(headers[i]))
      ensures RowDataFilled(a, c, gc, TargetIndexesOf(headers[..i + 1]))
    {
      TargetsStep(headers, i);
    }

    /** The data a step of the row pass fills stays when a later step only touches other lines. */
    lemma RowDataTrans(a: Grid, b: Grid, c: Grid, groups: seq<Option<GroupInfo>>, rows: seq<nat>, rows': seq<nat>)
      requires RowDataFilled(a, b, groups, rows) && LeafCellsKept(b, c) && RowsDone(c, rows')
      ensures LeafCellsKept(a, c) && RowsDone(c, rows + rows')
    {
    }

    lemma LeafCellsKeptTrans(a: Grid, b: Grid, c: Grid)
      requires LeafCellsKept(a, b) && LeafCellsKept(b, c)
      ensures LeafCellsKept(a, c)
    {
    }

    /** An earlier step that kept the entries shown extends what the row pass filled afterwards. */
    lemma RowDataBefore(a: Grid, b: Grid, c: Grid, groups: seq<Option<GroupInfo>>, rows: seq<nat>)
      requires LeafCellsKept(a, b) && RowDataFilled(b, c, groups, rows)
      ensures RowDataFilled(a, c, groups, rows)
    {
    }

    /** A later step that keeps the entries shown and leaves the row groups done extends what the row pass filled. */
    lemma RowDataExtend(a: Grid, b: Grid, c: Grid, gb: seq<Option<GroupInfo>>, gc: seq<Option<GroupInfo>>, rows: seq<nat>)
      requires RowDataFilled(a, b, gb, rows) && LeafCellsKept(b, c) && RowGroupsDone(c, gc)
      ensures RowDataFilled(a, c, gc, rows)
    {
    }

    /** Data cell (x, y), on a grid row of the data area that shows no matrix row, is the same in `a` and `b`. */
    predicate OffRowKeptAt(a: Grid, b: Grid, x: nat, y: nat)
      reads this
    {
      columnLevels <= x < GridRows() && rowLevels <= y < GridColumns() && Some(x) !in rowsTransformation ==>
        At(b, x, y) == At(a, x, y)
    }

    /** The data-area rows that show no matrix row, where the row groups sit, are the same in `a` and `b`. */
    ghost predicate OffRowsKept(a: Grid, b: Grid)
      reads this
    {
      forall x: nat, y: nat :: OffRowKeptAt(a, b, x, y)
    }

    /** What a step of the column pass keeps: the column groups done, the entries shown, and the rows without a matrix row. */
    ghost predicate ColumnDataKept(a: Grid, b: Grid, groups: seq<Option<GroupInfo>>)
      reads this
    {
      ColumnGroupsDone(b, groups) && LeafCellsKept(a, b) && OffRowsKept(a, b)
    }

    /** What a step of the column pass fills: what it keeps, and matrix columns `columns` shown. */
    ghost predicate ColumnDataFilled(a: Grid, b: Grid, groups: seq<Option<GroupInfo>>, columns: seq<nat>)
      reads this
    {
      ColumnDataKept(a, b, groups) && ColumnsDone(b, columns)
    }

    /** With no column groups recorded, there is nothing to hold. */
    lemma NoColumnGroupsDone(g: Grid)
      ensures ColumnGroupsDone(g, [])
    {
      forall c: nat
        ensures NoColumnGroupOn([], c)
      {
      }
      forall line: nat, r: nat
        ensures ColumnGroupCellAt(g, [], line, r)
      {
      }
    }

    lemma ColumnDataKeptTrans(a: Grid, b: Grid, c: Grid, gb: seq<Option<GroupInfo>>, gc: seq<Option<GroupInfo>>)
      requires ColumnDataKept(a, b, gb) && ColumnDataKept(b, c, gc)
      ensures ColumnDataKept(a, c, gc)
    {
      forall x: nat, y: nat
        ensures OffRowKeptAt(a, c, x, y)
      {
        assert OffRowKeptAt(a, b, x, y) && OffRowKeptAt(b, c, x, y);
      }
    }

    /** A later step that keeps the data extends what the column pass filled. */
    lemma ColumnDataExtend(a: Grid, b: Grid, c: Grid, gb: seq<Option<GroupInfo>>, gc: seq<Option<GroupInfo>>, columns: seq<nat>)
      requires ColumnDataFilled(a, b, gb, columns) && ColumnDataKept(b, c, gc)
      ensures ColumnDataFilled(a, c, gc, columns)
    {
      ColumnDataKeptTrans(a, b, c, gb, gc);
    }

    /** An earlier step that kept the data extends what the column pass filled afterwards. */
    lemma ColumnDataBefore(a: Grid, b: Grid, c: Grid, gb: seq<Option<GroupInfo>>, gc: seq<Option<GroupInfo>>, columns: seq<nat>)
      requires ColumnDataKept(a, b, gb) && ColumnDataFilled(b, c, gc, columns)
      ensures ColumnDataFilled(a, c, gc, columns)
    {
      ColumnDataKeptTrans(a, b, c, gb, gc);
    }

    /** The column pass over the first `i + 1` headers of a list: the first `i`, then header `i`. */
    lemma ColumnDataAppend(a: Grid, b: Grid, c: Grid, gb: seq<Option<GroupInfo>>, gc: seq<Option<GroupInfo>>, headers: seq<Header>,
                           i: nat)
      requires i < |headers|
      requires ColumnDataFilled(a, b, gb, TargetIndexesOf(headers[..i]))
      requires ColumnDataFilled(b, c, gc, TargetIndexesForHeader(headers[i]))
      ensures ColumnDataFilled(a, c, gc, TargetIndexesOf(headers[..i + 1]))
    {
      TargetsStep(headers, i);
      ColumnDataKeptTrans(a, b, c, gb, gc);
    }

    /** Only header cells changed: what the column pass holds is kept. */
    lemma ColumnDataAreaKept(a: Grid, b: Grid, groups: seq<Option<GroupInfo>>)
      requires Valid() && GroupsWithin(groups, rowLevels, GridColumns())
      requires Kept(a, b, columnLevels, GridRows(), rowLevels, GridColumns())
      requires ColumnGroupsDone(a, groups)
      ensures ColumnDataKept(a, b, groups)
    {
      forall line: nat, r: nat | |data.valueTitles| > 0
        ensures ColumnGroupCellAt(b, groups, line, r)
      {
        assert ColumnGroupCellAt(a, groups, line, r);
      }
      forall x: nat, y: nat
        ensures OffRowKeptAt(a, b, x, y)
      {
      }
    }

    /** Writing a matrix column's cells shows its entries and keeps everything else the column pass holds. */
    lemma LeafColumnData(a: Grid, b: Grid, groups: seq<Option<GroupInfo>>, column: nat)
      requires Valid() && ShownAt(columnsTransformation, column)
      requires ColumnLineWritten(a, b, columnsTransformation[column].value, LeafColumn(column), |rowsTransformation|)
      requires ColumnGroupsDone(a, groups)
      ensures ColumnDataFilled(a, b, groups, [column])
    {
      var line := columnsTransformation[column].value;
      forall r: nat, c: nat | LeafDone(a, r, c)
        ensures LeafDone(b, r, c)
      {
        if c != column {
          assert columnsTransformation[c].value != line;
        }
      }
      assert NoColumnGroupOn(groups, column);
      forall x: nat, r: nat | |data.valueTitles| > 0
        ensures ColumnGroupCellAt(b, groups, x, r)
      {
        assert ColumnGroupCellAt(a, groups, x, r);
      }
      forall x: nat, y: nat
        ensures OffRowKeptAt(a, b, x, y)
      {
        if Some(x) !in rowsTransformation {
          assert FindIndex(rowsTransformation, x) == -1;
        }
      }
      forall r: nat, c: nat | c in [column] && r < |rowsTransformation| && rowsTransformation[r].Some?
        ensures LeafDone(b, r, c)
      {
      }
    }

    /**
     * Writing a column group's cells on a grid column that shows no matrix column records the group
     * there and keeps everything else the column pass holds.
     */
    lemma ColumnGroupData(a: Grid, b: Grid, groups: seq<Option<GroupInfo>>, line: nat, cs: seq<Cell>, info: GroupInfo)
      requires Valid() && Some(line) !in columnsTransformation
      requires ColumnLineWritten(a, b, line, cs, |rowsTransformation|)
      requires forall r :: 0 <= r < |cs| && rowsTransformation[r].Some? ==> cs[r] == ColumnGroupCell(info, r)
      requires ColumnGroupsDone(a, groups)
      ensures ColumnDataKept(a, b, Put(groups, line, info))
    {
      var groups' := Put(groups, line, info);
      forall c: nat
        ensures NoColumnGroupOn(groups', c)
      {
        assert NoColumnGroupOn(groups, c);
        if c < |columnsTransformation| && columnsTransformation[c].Some? {
          assert columnsTransformation[c].value != line;
          assert GroupAt(groups, columnsTransformation[c].value) == GroupAt(groups', columnsTransformation[c].value);
        }
      }
      forall x: nat, r: nat | |data.valueTitles| > 0
        ensures ColumnGroupCellAt(b, groups', x, r)
      {
        if x != line && r < |rowsTransformation| && rowsTransformation[r].Some? {
          assert ColumnGroupCellAt(a, groups, x, r);
          assert GroupAt(groups, x) == GroupAt(groups', x);
          assert At(b, rowsTransformation[r].value, x) == At(a, rowsTransformation[r].value, x);
        }
      }
      forall r: nat, c: nat | LeafDone(a, r, c)
        ensures LeafDone(b, r, c)
      {
        assert columnsTransformation[c].value != line;
      }
      forall x: nat, y: nat
        ensures OffRowKeptAt(a, b, x, y)
      {
        if Some(x) !in rowsTransformation {
          assert FindIndex(rowsTransformation, x) == -1;
        }
      }
    }

    /** With no values a column subtotal records its group and writes no cells. */
    lemma EmptyColumnGroupData(g: Grid, groups: seq<Option<GroupInfo>>, line: nat, info: GroupInfo)
      requires Some(line) !in columnsTransformation && |data.valueTitles| == 0
      requires ColumnGroupsDone(g, groups)
      ensures ColumnDataKept(g, g, Put(groups, line, info))
    {
      var groups' := Put(groups, line, info);
      forall c: nat
        ensures NoColumnGroupOn(groups', c)
      {
        assert NoColumnGroupOn(groups, c);
        if c < |columnsTransformation| && columnsTransformation[c].Some? {
          assert columnsTransformation[c].value != line;
          assert GroupAt(groups, columnsTransformation[c].value) == GroupAt(groups', columnsTransformation[c].value);
        }
      }
      forall x: nat, y: nat
        ensures OffRowKeptAt(g, g, x, y)
      {
      }
    }

    /**
     * A value column of a column subtotal, on a grid column that shows no matrix column: its cells
     * are the cells of the group recorded there, whose grid columns read back as the value's matrix columns.
     */
    lemma ValueColumnData(a: Grid, b: Grid, groups: seq<Option<GroupInfo>>, headers: seq<Header>, i: nat, line: nat,
                          background: string, level: nat)
      requires Valid() && i < |data.valueTitles| && Some(line) !in columnsTransformation
      requires Shown(columnsTransformation, TargetIndexesOf(headers))
      requires ColumnLineWritten(a, b, line, GroupedColumn(ValueColumns(headers, i), background), |rowsTransformation|)
      requires ColumnGroupsDone(a, groups)
      ensures ColumnDataKept(a, b, Put(groups, line, GroupInfo(background, TransformIndexes(columnsTransformation, ValueColumns(headers, i)),
                                                              None, level)))
    {
      var columns := ValueColumns(headers, i);
      forall k | 0 <= k < |columns|
        ensures columns[k] < |columnsTransformation| && columnsTransformation[columns[k]].Some?
      {
        assert columns[k] in TargetIndexesOf(headers);
        assert ShownAt(columnsTransformation, columns[k]);
      }
      MatrixIndexesInvert(columnsTransformation, columns);
      ColumnGroupData(a, b, groups, line, GroupedColumn(columns, background),
                      GroupInfo(background, TransformIndexes(columnsTransformation, columns), None, level));
    }

    /** The row groups sit on rows that show no matrix row, so a step that keeps those rows keeps them done. */
    lemma RowGroupsKept(a: Grid, b: Grid, groups: seq<Option<GroupInfo>>)
      requires Valid() && GroupsWithin(groups, columnLevels, GridRows())
      requires RowGroupsDone(a, groups) && OffRowsKept(a, b)
      ensures RowGroupsDone(b, groups)
    {
      forall line: nat, c: nat
        ensures RowGroupCellAt(b, groups, line, c)
      {
        if GroupAt(groups, line).Some? && c < |columnsTransformation| && columnsTransformation[c].Some? {
          assert RowGroupCellAt(a, groups, line, c);
          forall k | 0 <= k < |rowsTransformation|
            ensures rowsTransformation[k] != Some(line)
          {
            assert NoRowGroupOn(groups, k);
          }
          assert OffRowKeptAt(a, b, line, columnsTransformation[c].value);
        }
      }
    }

    // -------------------------------------------------------------------------------------------
    // splitRowGroupHeader

    /** A summary cell starting at column `columnIndex` is cut at the first non-sticky level. */
    predicate SplitApplies(columnIndex: nat)
      reads this
    {
      RowSticky(data.rowsConfig, columnIndex) && 0 < nonStickyRowIndex < rowLevels && rowLevels - columnIndex > 1
    }

    /** The colSpan of the summary cell itself. */
    function MainSpan(columnIndex: nat): int
      reads this
    {
      if SplitApplies(columnIndex) then nonStickyRowIndex - columnIndex else rowLevels - columnIndex
    }

    /**
     * With the sticky levels a prefix, a cut summary cell stays inside the sticky levels and the
     * cell added at the first non-sticky level takes the rest: both parts are non-empty and together
     * they span every level from `columnIndex` on.
     */
    lemma SplitPartsCoverLevels(columnIndex: nat)
      requires Valid() && StickyPrefix(data.rowsConfig) && SplitApplies(columnIndex)
      ensures 0 < MainSpan(columnIndex) && 0 < rowLevels - nonStickyRowIndex
      ensures MainSpan(columnIndex) + (rowLevels - nonStickyRowIndex) == rowLevels - columnIndex
    {
      var configs := data.rowsConfig;
      assert !configs[nonStickyRowIndex].sticky && configs[columnIndex].sticky;
    }

    /**
     * splitRowGroupHeader: the summary cell of grid row `line` at column `columnIndex`, cut in two at
     * the first non-sticky level when that is needed for sticky scrolling.
     */
    method SplitRowGroupHeader(cells: Grid, columnIndex: nat, line: nat, background: string, summary: string,
                               rowIndexes: seq<nat>, title: Option<string>) returns (cells': Grid)
      requires Valid() && Dims(cells, GridRows(), GridColumns())
      requires columnIndex < rowLevels && line < GridRows()
      ensures Dims(cells', GridRows(), GridColumns())
      ensures At(cells', line, columnIndex)
              == Some(GroupHeaderCell(title, summary, MainSpan(columnIndex), background, rowIndexes, RowSticky(data.rowsConfig, columnIndex)))
      ensures SplitApplies(columnIndex) ==>
        At(cells', line, nonStickyRowIndex) == Some(GroupHeaderTail(rowLevels - nonStickyRowIndex, background))
      ensures forall r, c :: r != line || (c != columnIndex && (c != nonStickyRowIndex || !SplitApplies(columnIndex))) ==>
        At(cells', r, c) == At(cells, r, c)
    {
      var colSpan := rowLevels - columnIndex;
      var stickyStart := RowSticky(data.rowsConfig, columnIndex);
      cells' := cells;
      if stickyStart && nonStickyRowIndex > 0 && nonStickyRowIndex < rowLevels && colSpan > 1 {
        var newColspan := nonStickyRowIndex - columnIndex;
        cells' := Write(cells', line, nonStickyRowIndex, GroupHeaderTail(colSpan - newColspan, background));
        colSpan := newColspan;
        assert nonStickyRowIndex != columnIndex;
      }
      cells' := Write(cells', line, columnIndex, GroupHeaderCell(title, summary, colSpan, background, rowIndexes, stickyStart));
    }

    // -------------------------------------------------------------------------------------------
    // The row pass

    /** The grid rows a sibling list at `level` takes: its headers' lines and its subtotal row. */
    function RowLines(hs: seq<Header>, level: nat): nat
      reads this
    {
      ChildrenCount(hs, level, RowShowSums(), 1) + SumLines(RowShowSums(), level, 1)
    }

    /** Between two grids the row header columns differ only in rows `lo..hi-1`, and the column header rows not at all. */
    predicate RowPassFrame(a: Grid, b: Grid, lo: int, hi: int)
      reads this
    {
      Kept(a, b, 0, lo, 0, rowLevels) && Kept(a, b, hi, GridRows(), 0, rowLevels) && Kept(a, b, 0, columnLevels, 0, GridColumns())
    }

    /** The title of a summary row or column: the parent header's, none at the top level. */
    function SummaryTitle(parent: Option<Header>): Option<string>
    {
      if parent.Some? then Some(parent.value.title) else None
    }

    /** The row indexes the summary cell of an expression row lists. */
    function ExpressionRowIndexes(e: DataExpression, line: nat): seq<nat>
      reads this
    {
      UniqueValues((if AnyColumnShown() then ExpressionIndexes(e) else []) + [line])
    }

    /** The grid row of expression `i` of a header whose lines end before row `end`. */
    function ExpressionLine(h: Header, end: nat, i: nat): int
    {
      end - (|h.expressions| - i)
    }

    lemma RowPassFrameTrans(a: Grid, b: Grid, c: Grid, lo: int, hi: int, lo': int, hi': int)
      requires lo <= lo' && hi' <= hi
      requires RowPassFrame(a, b, lo, hi) && RowPassFrame(b, c, lo', hi')
      ensures RowPassFrame(a, c, lo, hi)
    {
    }

    /** Expression `e`'s row at grid row `line`: its summary cell at the header's level and its group entry. */
    predicate ExpressionRowDone(g: Grid, groups: seq<Option<GroupInfo>>, e: DataExpression, line: int, level: nat)
      reads this
    {
      && 0 <= line
      && At(g, line, level)
         == Some(GroupHeaderCell(None, e.title, MainSpan(level), SummaryBackground(level),
                                 ExpressionRowIndexes(e, line), RowSticky(data.rowsConfig, level)))
      && GroupAt(groups, line) == Some(GroupInfo(SummaryBackground(level), [], Some(e), level))
    }

    lemma ExpressionRowStays(a: Grid, b: Grid, ga: seq<Option<GroupInfo>>, gb: seq<Option<GroupInfo>>, e: DataExpression, line: int, level: nat)
      requires ExpressionRowDone(a, ga, e, line, level)
      requires At(a, line, level) == At(b, line, level) && GroupAt(ga, line) == GroupAt(gb, line)
      ensures ExpressionRowDone(b, gb, e, line, level)
    {
    }

    /** One expression row: its values, its summary cell and its group entry. */
    method FillExpressionRow(cells: Grid, groups: seq<Option<GroupInfo>>, e: DataExpression, line: nat, level: nat)
      returns (cells': Grid, groups': seq<Option<GroupInfo>>)
      requires Valid() && Dims(cells, GridRows(), GridColumns())
      requires level < rowLevels && columnLevels <= line < GridRows()
      requires GroupsWithin(groups, columnLevels, GridRows())
      requires Some(line) !in rowsTransformation && RowGroupsDone(cells, groups)
      ensures Dims(cells', GridRows(), GridColumns())
      ensures RowPassFrame(cells, cells', line, line + 1)
      ensures GroupsWithin(groups', columnLevels, GridRows())
      ensures forall x :: x != line ==> GroupAt(groups', x) == GroupAt(groups, x)
      ensures ExpressionRowDone(cells', groups', e, line, level)
      ensures RowGroupsDone(cells', groups') && LeafCellsKept(cells, cells')
    {
      var background := SummaryBackground(level);
      var indexes;
      var info := GroupInfo(background, [], Some(e), level);
      cells', indexes := FillCellsForExpressionRow(cells, e, line, background);
      RowGroupData(cells, cells', groups, line, ExpressionRow(e, background), info);
      var written := cells';
      cells' := SplitRowGroupHeader(cells', level, line, background, e.title, indexes, None);
      PutWithin(groups, columnLevels, GridRows(), line, info);
      groups' := Put(groups, line, info);
      DataAreaKept(written, cells', groups');
    }

    /**
     * The expression rows closing a header's lines, which end before grid row `end`: expression `i`
     * gets row `end - (|expressions| - i)`.
     */
    method FillExpressionRows(cells: Grid, groups: seq<Option<GroupInfo>>, h: Header, end: nat, level: nat)
      returns (cells': Grid, groups': seq<Option<GroupInfo>>)
      requires Valid() && Dims(cells, GridRows(), GridColumns())
      requires level < rowLevels && columnLevels + |h.expressions| <= end <= GridRows()
      requires GroupsWithin(groups, columnLevels, GridRows())
      requires NonLeafLinesFree(rowsTransformation, ExpressionLines(h.expressions), end - |h.expressions|)
      requires RowGroupsDone(cells, groups)
      ensures Dims(cells', GridRows(), GridColumns())
      ensures RowPassFrame(cells, cells', end - |h.expressions|, end)
      ensures GroupsWithin(groups', columnLevels, GridRows())
      ensures forall i :: 0 <= i < |h.expressions| ==>
        ExpressionRowDone(cells', groups', h.expressions[i], ExpressionLine(h, end, i), level)
      ensures RowGroupsDone(cells', groups') && LeafCellsKept(cells, cells')
    {
      cells', groups' := cells, groups;
      var expressions := h.expressions;
      var i := 0;
      while i < |expressions|
        invariant 0 <= i <= |expressions|
        invariant Dims(cells', GridRows(), GridColumns())
        invariant RowPassFrame(cells, cells', end - |expressions|, end)
        invariant GroupsWithin(groups', columnLevels, GridRows())
        invariant forall k :: 0 <= k < i ==> ExpressionRowDone(cells', groups', expressions[k], ExpressionLine(h, end, k), level)
        invariant RowGroupsDone(cells', groups') && LeafCellsKept(cells, cells')
      {
        cells', groups' := FillNextExpressionRow(cells, cells', groups', h, end, i, level);
        i := i + 1;
      }
    }

    /** One round of the expression loop: expression `i` gets its row, and the rows before it stay done. */
    method FillNextExpressionRow(orig: Grid, cells: Grid, groups: seq<Option<GroupInfo>>, h: Header, end: nat, i: nat,
                                 level: nat)
      returns (cells': Grid, groups': seq<Option<GroupInfo>>)
      requires Valid() && Dims(cells, GridRows(), GridColumns())
      requires level < rowLevels && columnLevels + |h.expressions| <= end <= GridRows() && i < |h.expressions|
      requires GroupsWithin(groups, columnLevels, GridRows())
      requires RowPassFrame(orig, cells, end - |h.expressions|, end)
      requires forall k :: 0 <= k < i ==> ExpressionRowDone(cells, groups, h.expressions[k], ExpressionLine(h, end, k), level)
      requires NonLeafLinesFree(rowsTransformation, ExpressionLines(h.expressions), end - |h.expressions|)
      requires RowGroupsDone(cells, groups) && LeafCellsKept(orig, cells)
      ensures Dims(cells', GridRows(), GridColumns())
      ensures RowPassFrame(orig, cells', end - |h.expressions|, end)
      ensures GroupsWithin(groups', columnLevels, GridRows())
      ensures forall k :: 0 <= k < i + 1 ==> ExpressionRowDone(cells', groups', h.expressions[k], ExpressionLine(h, end, k), level)
      ensures RowGroupsDone(cells', groups') && LeafCellsKept(orig, cells')
    {
      var line := end - (|h.expressions| - i);
      NonLeafLineFree(rowsTransformation, ExpressionLines(h.expressions), end - |h.expressions|, i, line);
      cells', groups' := FillExpressionRow(cells, groups, h.expressions[i], line, level);
      LeafCellsKeptTrans(orig, cells, cells');
      RowPassFrameTrans(orig, cells, cells', end - |h.expressions|, end, line, line + 1);
      ExpressionRowsStay(cells, cells', groups, groups', h, end, i, line, level);
    }

    /** Writing expression row `i` keeps the expression rows before it. */
    lemma ExpressionRowsStay(a: Grid, b: Grid, ga: seq<Option<GroupInfo>>, gb: seq<Option<GroupInfo>>, h: Header, end: nat,
                             i: nat, line: nat, level: nat)
      requires i < |h.expressions| <= end && line == ExpressionLine(h, end, i) && level < rowLevels
      requires forall k :: 0 <= k < i ==> ExpressionRowDone(a, ga, h.expressions[k], ExpressionLine(h, end, k), level)
      requires RowPassFrame(a, b, line, line + 1)
      requires forall x :: x != line ==> GroupAt(gb, x) == GroupAt(ga, x)
      requires ExpressionRowDone(b, gb, h.expressions[i], line, level)
      ensures forall k :: 0 <= k < i + 1 ==> ExpressionRowDone(b, gb, h.expressions[k], ExpressionLine(h, end, k), level)
    {
      forall k | 0 <= k < i
        ensures ExpressionRowDone(b, gb, h.expressions[k], ExpressionLine(h, end, k), level)
      {
        var lineK := ExpressionLine(h, end, k);
        assert 0 <= lineK < line;
        assert At(a, lineK, level) == At(b, lineK, level);
        ExpressionRowStays(a, b, ga, gb, h.expressions[k], lineK, level);
      }
    }

    /**
     * The subtotal row closing a sibling list at `level`: its summary cell one level up, its group
     * entry over the list's matrix rows, and their sums.
     */
    method FillRowSummary(ghost orig: Grid, cells: Grid, groups: seq<Option<GroupInfo>>, headers: seq<Header>, line: nat,
                          level: nat, parent: Option<Header>)
      returns (cells': Grid, groups': seq<Option<GroupInfo>>)
      requires Valid() && Dims(cells, GridRows(), GridColumns())
      requires level < rowLevels && columnLevels <= line < GridRows()
      requires GroupsWithin(groups, columnLevels, GridRows())
      requires Shown(rowsTransformation, TargetIndexesOf(headers))
      requires RowDataFilled(orig, cells, groups, TargetIndexesOf(headers))
      ensures Dims(cells', GridRows(), GridColumns())
      ensures RowPassFrame(cells, cells', line, line + 1)
      ensures GroupsWithin(groups', columnLevels, GridRows())
      ensures Some(line) !in rowsTransformation ==> RowDataFilled(orig, cells', groups', TargetIndexesOf(headers))
      ensures var columnIndex := if level > 0 then level - 1 else 0;
        At(cells', line, columnIndex)
          == Some(GroupHeaderCell(SummaryTitle(parent), "", MainSpan(columnIndex), SummaryBackground(level), [],
                                  RowSticky(data.rowsConfig, columnIndex)))
      ensures GroupAt(groups', line)
              == Some(GroupInfo(SummaryBackground(level), TransformIndexes(rowsTransformation, TargetIndexesForHeaders(headers)), None, level))
    {
      var background := SummaryBackground(level);
      var columnIndex := if level > 0 then level - 1 else 0;
      cells' := SplitRowGroupHeader(cells, columnIndex, line, background, "", [], SummaryTitle(parent));
      DataAreaKept(cells, cells', groups);
      var titled := cells';
      var rowIndexes := TargetIndexesForHeaders(headers);
      var transformedRowIndexes := TransformIndexes(rowsTransformation, rowIndexes);
      var info := GroupInfo(background, transformedRowIndexes, None, level);
      PutWithin(groups, columnLevels, GridRows(), line, info);
      groups' := Put(groups, line, info);
      cells' := FillCellsForGroupedRow(cells', rowIndexes, line, background);
      if Some(line) !in rowsTransformation {
        SummaryRowData(titled, cells', groups, headers, line, background, level);
        LeafCellsKeptTrans(cells, titled, cells');
        RowDataExtend(orig, cells, cells', groups, groups', TargetIndexesOf(headers));
      }
    }

    /**
     * One header of the row pass, at grid row `row`: its header cell, then its children (or its
     * matrix row), then its expression rows.
     */
    method FillRowHeader(cells: Grid, groups: seq<Option<GroupInfo>>, h: Header, row: nat, level: nat)
      returns (cells': Grid, groups': seq<Option<GroupInfo>>)
      requires Valid() && Dims(cells, GridRows(), GridColumns())
      requires HeaderFull(h, level, rowLevels)
      requires columnLevels <= row && row + HeaderChildCount(h, level, RowShowSums(), 1) <= GridRows()
      requires GroupsWithin(groups, columnLevels, GridRows())
      requires NonLeafLinesFree(rowsTransformation, HeaderLines(h, level, RowShowSums(), 1), row)
      requires Shown(rowsTransformation, TargetIndexesForHeader(h)) && RowGroupsDone(cells, groups)
      ensures Dims(cells', GridRows(), GridColumns())
      ensures RowPassFrame(cells, cells', row, row + HeaderChildCount(h, level, RowShowSums(), 1))
      ensures Kept(cells, cells', row, row + 1, 0, level)
      ensures RowHeaderPlaced(cells', h, row, level, RowShowSums(), data.rowsConfig)
      ensures GroupsWithin(groups', columnLevels, GridRows())
      ensures RowDataFilled(cells, cells', groups', TargetIndexesForHeader(h))
      decreases h, 2
    {
      var showSums := RowShowSums();
      HeaderFullCounts(h, level, rowLevels, showSums, 1);
      cells', groups' := FillHeaderRows(cells, groups, h, row, level);
      var filled, filledGroups := cells', groups';
      var end := row + HeaderChildCount(h, level, RowShowSums(), 1);
      ExpressionLinesFree(rowsTransformation, h, level, RowShowSums(), 1, row, end);
      cells', groups' := FillExpressionRows(cells', groups', h, end, level);
      RowDataExtend(cells, filled, cells', filledGroups, groups', TargetIndexesForHeader(h));
      RowPassFrameTrans(cells, filled, cells', row, end, end - |h.expressions|, end);
      RowHeaderStays(filled, cells', h, row, level, rowLevels, showSums, data.rowsConfig);
    }

    /** A header's cell and the rows of its children (or its matrix row), before its expression rows. */
    method FillHeaderRows(cells: Grid, groups: seq<Option<GroupInfo>>, h: Header, row: nat, level: nat)
      returns (cells': Grid, groups': seq<Option<GroupInfo>>)
      requires Valid() && Dims(cells, GridRows(), GridColumns())
      requires HeaderFull(h, level, rowLevels)
      requires columnLevels <= row && row + HeaderChildCount(h, level, RowShowSums(), 1) <= GridRows()
      requires GroupsWithin(groups, columnLevels, GridRows())
      requires NonLeafLinesFree(rowsTransformation, HeaderLines(h, level, RowShowSums(), 1), row)
      requires Shown(rowsTransformation, TargetIndexesForHeader(h)) && RowGroupsDone(cells, groups)
      ensures Dims(cells', GridRows(), GridColumns())
      ensures RowPassFrame(cells, cells', row, row + HeaderChildCount(h, level, RowShowSums(), 1) - |h.expressions|)
      ensures Kept(cells, cells', row, row + 1, 0, level)
      ensures RowHeaderPlaced(cells', h, row, level, RowShowSums(), data.rowsConfig)
      ensures GroupsWithin(groups', columnLevels, GridRows())
      ensures RowDataFilled(cells, cells', groups', TargetIndexesForHeader(h))
      decreases h, 1
    {
      HeaderFullCounts(h, level, rowLevels, RowShowSums(), 1);
      var titled := Write(cells, row, level, RowHeaderCell(h, level, row, RowShowSums(), RowSticky(data.rowsConfig, level)));
      DataAreaKept(cells, titled, groups);
      if h.node.Group? {
        cells', groups' := FillGroupRows(cells, titled, groups, h, row, level);
      } else {
        cells' := FillLeafRow(cells, titled, groups, h, row, level);
        groups' := groups;
      }
    }

    /** The rows under a group row header whose cell is already written. */
    method FillGroupRows(ghost cells: Grid, titled: Grid, groups: seq<Option<GroupInfo>>, h: Header, row: nat, level: nat)
      returns (cells': Grid, groups': seq<Option<GroupInfo>>)
      requires Valid() && Dims(cells, GridRows(), GridColumns())
      requires h.node.Group? && HeaderFull(h, level, rowLevels)
      requires level < rowLevels && columnLevels <= row < GridRows() && row + HeaderChildCount(h, level, RowShowSums(), 1) <= GridRows()
      requires GroupsWithin(groups, columnLevels, GridRows())
      requires titled == Write(cells, row, level, RowHeaderCell(h, level, row, RowShowSums(), RowSticky(data.rowsConfig, level)))
      requires NonLeafLinesFree(rowsTransformation, HeaderLines(h, level, RowShowSums(), 1), row)
      requires Shown(rowsTransformation, TargetIndexesForHeader(h)) && RowGroupsDone(titled, groups)
      requires LeafCellsKept(cells, titled)
      ensures Dims(cells', GridRows(), GridColumns())
      ensures RowPassFrame(cells, cells', row, row + HeaderChildCount(h, level, RowShowSums(), 1) - |h.expressions|)
      ensures Kept(cells, cells', row, row + 1, 0, level)
      ensures RowHeaderPlaced(cells', h, row, level, RowShowSums(), data.rowsConfig)
      ensures GroupsWithin(groups', columnLevels, GridRows())
      ensures RowDataFilled(cells, cells', groups', TargetIndexesForHeader(h))
      decreases h, 0
    {
      HeaderFullCounts(h, level, rowLevels, RowShowSums(), 1);
      HeaderLinesFree(rowsTransformation, h, level, RowShowSums(), 1, row);
      SummaryWindowFree(h.node.children, row, level + 1);
      cells', groups' := IterateAndFillCellsByRows(titled, groups, h.node.children, row, level + 1, Some(h));
      RowGroupStep(cells, titled, cells', h, row, level);
      RowDataBefore(cells, titled, cells', groups', TargetIndexesOf(h.node.children));
    }

    /** The matrix row of a leaf row header whose cell is already written. */
    method FillLeafRow(ghost cells: Grid, titled: Grid, groups: seq<Option<GroupInfo>>, h: Header, row: nat, level: nat)
      returns (cells': Grid)
      requires Valid() && Dims(cells, GridRows(), GridColumns())
      requires h.node.Leaf? && HeaderFull(h, level, rowLevels)
      requires columnLevels <= row < GridRows()
      requires titled == Write(cells, row, level, RowHeaderCell(h, level, row, RowShowSums(), RowSticky(data.rowsConfig, level)))
      requires Shown(rowsTransformation, TargetIndexesForHeader(h)) && RowGroupsDone(titled, groups)
      requires LeafCellsKept(cells, titled)
      ensures Dims(cells', GridRows(), GridColumns())
      ensures RowPassFrame(cells, cells', row, row + HeaderChildCount(h, level, RowShowSums(), 1) - |h.expressions|)
      ensures Kept(cells, cells', row, row + 1, 0, level)
      ensures RowHeaderPlaced(cells', h, row, level, RowShowSums(), data.rowsConfig)
      ensures RowDataFilled(cells, cells', groups, TargetIndexesForHeader(h))
    {
      var target := h.node.targetIndex;
      cells' := FillCellsForRow(titled, target);
      RowLeafStep(cells, titled, cells', h, row, level);
      assert target in TargetIndexesForHeader(h);
      assert ShownAt(rowsTransformation, target);
      LeafRowData(titled, cells', groups, target);
      RowDataBefore(cells, titled, cells', groups, [target]);
    }

    /** A leaf row header: its cell written, then only data cells changed. */
    lemma RowLeafStep(cells: Grid, titled: Grid, cells': Grid, h: Header, row: nat, level: nat)
      requires Valid() && Dims(cells, GridRows(), GridColumns())
      requires h.node.Leaf? && HeaderFull(h, level, rowLevels)
      requires columnLevels <= row < GridRows()
      requires titled == Write(cells, row, level, RowHeaderCell(h, level, row, RowShowSums(), RowSticky(data.rowsConfig, level)))
      requires HeadersKept(titled, cells')
      ensures RowPassFrame(cells, cells', row, row + HeaderChildCount(h, level, RowShowSums(), 1) - |h.expressions|)
      ensures Kept(cells, cells', row, row + 1, 0, level)
      ensures RowHeaderPlaced(cells', h, row, level, RowShowSums(), data.rowsConfig)
    {
    }

    /** A group row header: its cell written, then its children's rows filled from its own row on. */
    lemma RowGroupStep(cells: Grid, titled: Grid, cells': Grid, h: Header, row: nat, level: nat)
      requires Valid() && Dims(cells, GridRows(), GridColumns())
      requires h.node.Group? && HeaderFull(h, level, rowLevels)
      requires columnLevels <= row < GridRows() && row + HeaderChildCount(h, level, RowShowSums(), 1) <= GridRows()
      requires titled == Write(cells, row, level, RowHeaderCell(h, level, row, RowShowSums(), RowSticky(data.rowsConfig, level)))
      requires RowPassFrame(titled, cells', row, row + RowLines(h.node.children, level + 1))
      requires Kept(titled, cells', row, row + 1, 0, level + 1)
      requires RowHeadersPlaced(cells', h.node.children, row, level + 1, RowShowSums(), data.rowsConfig)
      ensures RowPassFrame(cells, cells', row, row + HeaderChildCount(h, level, RowShowSums(), 1) - |h.expressions|)
      ensures Kept(cells, cells', row, row + 1, 0, level)
      ensures RowHeaderPlaced(cells', h, row, level, RowShowSums(), data.rowsConfig)
    {
      HeaderFullCounts(h, level, rowLevels, RowShowSums(), 1);
    }

    /** What one more header of a sibling list adds to the row pass. */
    lemma RowLoopStep(orig: Grid, before: Grid, after: Grid, headers: seq<Header>, i: nat, start: nat, row: nat, level: nat,
                      showSums: seq<bool>)
      requires Full(headers, level, rowLevels) && i < |headers| && showSums == RowShowSums()
      requires row == start + ChildrenCount(headers[..i], level, showSums, 1)
      requires RowPassFrame(orig, before, start, start + RowLines(headers, level))
      requires i > 0 ==> Kept(orig, before, start, start + 1, 0, level)
      requires i == 0 ==> orig == before
      requires RowHeadersPlaced(before, headers[..i], start, level, showSums, data.rowsConfig)
      requires RowPassFrame(before, after, row, row + HeaderChildCount(headers[i], level, showSums, 1))
      requires Kept(before, after, row, row + 1, 0, level)
      requires RowHeaderPlaced(after, headers[i], row, level, showSums, data.rowsConfig)
      ensures RowPassFrame(orig, after, start, start + RowLines(headers, level))
      ensures Kept(orig, after, start, start + 1, 0, level)
      ensures RowHeadersPlaced(after, headers[..i + 1], start, level, showSums, data.rowsConfig)
    {
      ChildrenCountPrefix(headers, i, level, showSums, 1);
      PrefixCount(headers, i + 1, level, showSums, 1);
      RowPassFrameTrans(orig, before, after, start, start + RowLines(headers, level), row, row + HeaderChildCount(headers[i], level, showSums, 1));
      assert Full(headers[..i], level, rowLevels) by {
        assert forall k :: 0 <= k < i ==> headers[..i][k] == headers[k];
      }
      RowLoopKept(orig, before, after, headers, i, start, row, level, showSums);
      RowLoopPlaced(before, after, headers, i, start, row, level, showSums);
    }

    /** The first row of the list keeps its leading cells while the next header fills its own rows. */
    lemma RowLoopKept(orig: Grid, before: Grid, after: Grid, headers: seq<Header>, i: nat, start: nat, row: nat, level: nat,
                      showSums: seq<bool>)
      requires i < |headers| && Full(headers[..i], level, rowLevels)
      requires row == start + ChildrenCount(headers[..i], level, showSums, 1)
      requires RowPassFrame(before, after, row, row + HeaderChildCount(headers[i], level, showSums, 1))
      requires Kept(before, after, row, row + 1, 0, level)
      requires i > 0 ==> Kept(orig, before, start, start + 1, 0, level)
      requires i == 0 ==> orig == before
      requires level <= rowLevels
      ensures Kept(orig, after, start, start + 1, 0, level)
    {
      if i > 0 {
        FullCounts(headers[..i], level, rowLevels, showSums, 1);
      } else {
        assert headers[..i] == [];
      }
    }

    /** The headers already placed stay placed, and the next one joins them. */
    lemma RowLoopPlaced(before: Grid, after: Grid, headers: seq<Header>, i: nat, start: nat, row: nat, level: nat,
                        showSums: seq<bool>)
      requires i < |headers| && Full(headers[..i], level, rowLevels)
      requires row == start + ChildrenCount(headers[..i], level, showSums, 1)
      requires RowHeadersPlaced(before, headers[..i], start, level, showSums, data.rowsConfig)
      requires RowPassFrame(before, after, row, row + HeaderChildCount(headers[i], level, showSums, 1))
      requires RowHeaderPlaced(after, headers[i], row, level, showSums, data.rowsConfig)
      ensures RowHeadersPlaced(after, headers[..i + 1], start, level, showSums, data.rowsConfig)
    {
      RowHeadersStay(before, after, headers[..i], start, level, rowLevels, showSums, data.rowsConfig);
      RowHeadersPlacedAppend(after, headers, i, start, level, showSums, data.rowsConfig);
    }

    /** The subtotal row after a sibling list keeps what the list's rows hold. */
    lemma RowSummaryStep(orig: Grid, before: Grid, after: Grid, headers: seq<Header>, start: nat, level: nat)
      requires Valid() && Full(headers, level, rowLevels)
      requires RowPassFrame(orig, before, start, start + RowLines(headers, level))
      requires |headers| > 0 ==> Kept(orig, before, start, start + 1, 0, level)
      requires RowHeadersPlaced(before, headers, start, level, RowShowSums(), data.rowsConfig)
      requires var line := start + ChildrenCount(headers, level, RowShowSums(), 1);
        line < start + RowLines(headers, level) && RowPassFrame(before, after, line, line + 1)
      ensures RowPassFrame(orig, after, start, start + RowLines(headers, level))
      ensures |headers| > 0 ==> Kept(orig, after, start, start + 1, 0, level)
      ensures RowHeadersPlaced(after, headers, start, level, RowShowSums(), data.rowsConfig)
    {
      var showSums := RowShowSums();
      var line := start + ChildrenCount(headers, level, showSums, 1);
      FullCounts(headers, level, rowLevels, showSums, 1);
      RowPassFrameTrans(orig, before, after, start, start + RowLines(headers, level), line, line + 1);
      RowHeadersStay(before, after, headers, start, level, rowLevels, showSums, data.rowsConfig);
    }

    /** The headers of a sibling list at `level`, one after the other from grid row `start` on. */
    method FillRowHeaders(cells: Grid, groups: seq<Option<GroupInfo>>, headers: seq<Header>, start: nat, level: nat)
      returns (cells': Grid, groups': seq<Option<GroupInfo>>)
      requires Valid() && Dims(cells, GridRows(), GridColumns())
      requires Full(headers, level, rowLevels)
      requires columnLevels <= start && start + RowLines(headers, level) <= GridRows()
      requires GroupsWithin(groups, columnLevels, GridRows())
      requires NonLeafLinesFree(rowsTransformation, ChildrenLines(headers, level, RowShowSums(), 1), start)
      requires Shown(rowsTransformation, TargetIndexesOf(headers)) && RowGroupsDone(cells, groups)
      ensures Dims(cells', GridRows(), GridColumns())
      ensures RowPassFrame(cells, cells', start, start + RowLines(headers, level))
      ensures |headers| > 0 ==> Kept(cells, cells', start, start + 1, 0, level)
      ensures RowHeadersPlaced(cells', headers, start, level, RowShowSums(), data.rowsConfig)
      ensures GroupsWithin(groups', columnLevels, GridRows())
      ensures RowDataFilled(cells, cells', groups', TargetIndexesOf(headers))
      decreases headers, 1
    {
      var showSums := RowShowSums();
      cells', groups' := cells, groups;
      var current := start;
      var i := 0;
      while i < |headers|
        invariant 0 <= i <= |headers|
        invariant current == start + ChildrenCount(headers[..i], level, showSums, 1)
        invariant Dims(cells', GridRows(), GridColumns())
        invariant RowPassFrame(cells, cells', start, start + RowLines(headers, level))
        invariant i > 0 ==> Kept(cells, cells', start, start + 1, 0, level)
        invariant i == 0 ==> cells' == cells
        invariant RowHeadersPlaced(cells', headers[..i], start, level, showSums, data.rowsConfig)
        invariant GroupsWithin(groups', columnLevels, GridRows())
        invariant RowDataFilled(cells, cells', groups', TargetIndexesOf(headers[..i]))
      {
        ChildrenCountPrefix(headers, i, level, showSums, 1);
        cells', groups' := FillNextRowHeader(cells, cells', groups', headers, i, start, current, level);
        current := current + HeaderChildCount(headers[i], level, showSums, 1);
        i := i + 1;
      }
      assert headers[..|headers|] == headers;
    }

    /** One round of the row loop: header `i` of the list fills its rows from grid row `current` on. */
    method FillNextRowHeader(orig: Grid, cells: Grid, groups: seq<Option<GroupInfo>>, headers: seq<Header>, i: nat,
                             start: nat, current: nat, level: nat)
      returns (cells': Grid, groups': seq<Option<GroupInfo>>)
      requires Valid() && Dims(cells, GridRows(), GridColumns())
      requires Full(headers, level, rowLevels) && i < |headers|
      requires columnLevels <= start && start + RowLines(headers, level) <= GridRows()
      requires current == start + ChildrenCount(headers[..i], level, RowShowSums(), 1)
      requires RowPassFrame(orig, cells, start, start + RowLines(headers, level))
      requires i > 0 ==> Kept(orig, cells, start, start + 1, 0, level)
      requires i == 0 ==> orig == cells
      requires RowHeadersPlaced(cells, headers[..i], start, level, RowShowSums(), data.rowsConfig)
      requires GroupsWithin(groups, columnLevels, GridRows())
      requires NonLeafLinesFree(rowsTransformation, ChildrenLines(headers, level, RowShowSums(), 1), start)
      requires Shown(rowsTransformation, TargetIndexesOf(headers))
      requires RowDataFilled(orig, cells, groups, TargetIndexesOf(headers[..i]))
      ensures Dims(cells', GridRows(), GridColumns())
      ensures RowPassFrame(orig, cells', start, start + RowLines(headers, level))
      ensures Kept(orig, cells', start, start + 1, 0, level)
      ensures RowHeadersPlaced(cells', headers[..i + 1], start, level, RowShowSums(), data.rowsConfig)
      ensures GroupsWithin(groups', columnLevels, GridRows())
      ensures RowDataFilled(orig, cells', groups', TargetIndexesOf(headers[..i + 1]))
      decreases headers, 0
    {
      var showSums := RowShowSums();
      ChildrenCountPrefix(headers, i, level, showSums, 1);
      PrefixCount(headers, i + 1, level, showSums, 1);
      assert HeaderFull(headers[i], level, rowLevels);
      assert current + HeaderChildCount(headers[i], level, showSums, 1) <= start + RowLines(headers, level);
      MemberLinesFree(rowsTransformation, headers, i, level, RowShowSums(), 1, start, current);
      ShownMember(rowsTransformation, headers, i);
      cells', groups' := FillRowHeader(cells, groups, headers[i], current, level);
      RowLoopStep(orig, cells, cells', headers, i, start, current, level, showSums);
      RowDataAppend(orig, cells, cells', groups, groups', headers, i);
    }

    /**
     * iterateAndFillCellsByRows: the rows of a sibling list at `level`, from grid row `start` on.
     * Every header of the list and below it gets its header cell at its own first row; after the
     * list comes its subtotal row when the level shows sums.
     */
    method IterateAndFillCellsByRows(cells: Grid, groups: seq<Option<GroupInfo>>, headers: seq<Header>, start: nat,
                                     level: nat, parent: Option<Header>)
      returns (cells': Grid, groups': seq<Option<GroupInfo>>)
      requires Valid() && Dims(cells, GridRows(), GridColumns())
      requires Full(headers, level, rowLevels)
      requires columnLevels <= start && start + RowLines(headers, level) <= GridRows()
      requires GroupsWithin(groups, columnLevels, GridRows())
      requires NonLeafLinesFree(rowsTransformation, ChildrenLines(headers, level, RowShowSums(), 1), start)
      requires Shown(rowsTransformation, TargetIndexesOf(headers)) && RowGroupsDone(cells, groups)
      ensures Dims(cells', GridRows(), GridColumns())
      ensures RowPassFrame(cells, cells', start, start + RowLines(headers, level))
      ensures |headers| > 0 ==> Kept(cells, cells', start, start + 1, 0, level)
      ensures RowHeadersPlaced(cells', headers, start, level, RowShowSums(), data.rowsConfig)
      ensures GroupsWithin(groups', columnLevels, GridRows())
      ensures SummaryLineFree(headers, start, level) ==> RowDataFilled(cells, cells', groups', TargetIndexesOf(headers))
      decreases headers, 2
    {
      cells', groups' := FillRowHeaders(cells, groups, headers, start, level);
      if ShowSum(RowShowSums(), level) {
        cells', groups' := FillListSummary(cells, cells', groups', headers, start, level, parent);
      }
    }

    /** The subtotal row after the rows of a sibling list at `level`, when the level shows sums. */
    method FillListSummary(orig: Grid, cells: Grid, groups: seq<Option<GroupInfo>>, headers: seq<Header>, start: nat,
                           level: nat, parent: Option<Header>)
      returns (cells': Grid, groups': seq<Option<GroupInfo>>)
      requires Valid() && Dims(cells, GridRows(), GridColumns())
      requires Full(headers, level, rowLevels) && ShowSum(RowShowSums(), level)
      requires columnLevels <= start && start + RowLines(headers, level) <= GridRows()
      requires GroupsWithin(groups, columnLevels, GridRows())
      requires RowPassFrame(orig, cells, start, start + RowLines(headers, level))
      requires |headers| > 0 ==> Kept(orig, cells, start, start + 1, 0, level)
      requires RowHeadersPlaced(cells, headers, start, level, RowShowSums(), data.rowsConfig)
      requires Shown(rowsTransformation, TargetIndexesOf(headers))
      requires RowDataFilled(orig, cells, groups, TargetIndexesOf(headers))
      ensures Dims(cells', GridRows(), GridColumns())
      ensures RowPassFrame(orig, cells', start, start + RowLines(headers, level))
      ensures |headers| > 0 ==> Kept(orig, cells', start, start + 1, 0, level)
      ensures RowHeadersPlaced(cells', headers, start, level, RowShowSums(), data.rowsConfig)
      ensures GroupsWithin(groups', columnLevels, GridRows())
      ensures SummaryLineFree(headers, start, level) ==> RowDataFilled(orig, cells', groups', TargetIndexesOf(headers))
    {
      var current := start + ChildrenCount(headers, level, RowShowSums(), 1);
      assert level < rowLevels && current < start + RowLines(headers, level);
      cells', groups' := FillRowSummary(orig, cells, groups, headers, current, level, parent);
      RowSummaryStep(orig, cells, cells', headers, start, level);
      if SummaryLineFree(headers, start, level) {
        SummaryLineShowsNothing(headers, start, level, current);
      }
    }

    /** The subtotal row after a sibling list at `level`, if the level shows one, shows no matrix row. */
    predicate SummaryLineFree(headers: seq<Header>, start: nat, level: nat)
      reads this
    {
      ShowSum(RowShowSums(), level) ==> Some(start + ChildrenCount(headers, level, RowShowSums(), 1)) !in rowsTransformation
    }

    lemma SummaryLineShowsNothing(headers: seq<Header>, start: nat, level: nat, line: nat)
      requires SummaryLineFree(headers, start, level) && ShowSum(RowShowSums(), level)
      requires line == start + ChildrenCount(headers, level, RowShowSums(), 1)
      ensures Some(line) !in rowsTransformation
    {
    }

    /** A free subtotal window gives a free subtotal row. */
    lemma SummaryWindowFree(headers: seq<Header>, start: nat, level: nat)
      requires NonLeafLinesFree(rowsTransformation, SumLinesAt(RowShowSums(), level, 1), start + ChildrenCount(headers, level, RowShowSums(), 1))
      ensures SummaryLineFree(headers, start, level)
    {
      if ShowSum(RowShowSums(), level) {
        var line := start + ChildrenCount(headers, level, RowShowSums(), 1);
        NonLeafLineFree(rowsTransformation, SumLinesAt(RowShowSums(), level, 1), line, 0, line);
      }
    }

    // -------------------------------------------------------------------------------------------
    // The column pass

    /** The grid columns a sibling list at `level` takes in the column pass, its subtotal included. */
    function ColumnLines(hs: seq<Header>, level: nat): nat
      reads this
    {
      ChildrenCount(hs, level, ColumnShowSums(), NumberOfSums()) + SumLines(ColumnShowSums(), level, NumberOfSums())
    }

    /** Between two grids the column header rows differ only in columns `lo..hi-1`, and the row header columns not at all. */
    predicate ColumnPassFrame(a: Grid, b: Grid, lo: int, hi: int)
      reads this
    {
      Kept(a, b, 0, columnLevels, 0, lo) && Kept(a, b, 0, columnLevels, hi, GridColumns()) && Kept(a, b, 0, GridRows(), 0, rowLevels)
    }

    lemma ColumnPassFrameTrans(a: Grid, b: Grid, c: Grid, lo: int, hi: int, lo': int, hi': int)
      requires lo <= lo' && hi' <= hi
      requires ColumnPassFrame(a, b, lo, hi) && ColumnPassFrame(b, c, lo', hi')
      ensures ColumnPassFrame(a, c, lo, hi)
    {
    }

    /** The grid row of the summary cell of a subtotal closing level `level`: one level up. */
    function SummaryRow(level: nat): nat
    {
      if level > 0 then level - 1 else 0
    }

    /**
     * The summary cell of a column subtotal closing level `level`: it spans the subtotal's columns
     * and reaches down to the value title row, or to the bottom of the header rows when there is
     * no such row.
     */
    function ColumnSummaryCell(title: Option<string>, level: nat): Cell
      reads this
    {
      Cell(TitleValue(title), Some(""), columnLevels - SummaryRow(level) - (if |data.valueTitles| > 1 then 1 else 0),
           NumberOfSums(), ColumnGroupHeaderClass, false, false, false, true, Some(Color(SummaryBackground(level))),
           ColumnSticky(data.columnsConfig, level), false, None, None, None)
    }

    /** The title cell of value `i` under a column subtotal closing level `level`. */
    function ValueTitleCell(i: nat, level: nat): Cell
      requires i < |data.valueTitles|
      reads this
    {
      Cell(Text(data.valueTitles[i]), None, 1, 1, ColumnGroupHeaderClass, false, false, false, true,
           Some(Color(SummaryBackground(level))), ColumnSticky(data.columnsConfig, level), false, None, None, None)
    }

    /** The matrix columns of value `i` below a sibling list. */
    function ValueColumns(headers: seq<Header>, i: nat): (r: seq<nat>)
      requires i < |data.valueTitles|
      reads this
      ensures forall x :: x in r <==> x in TargetIndexesForHeaders(headers) && x % |data.valueTitles| == i
    {
      FilterIndexesByMod(TargetIndexesForHeaders(headers), |data.valueTitles|, i)
    }

    /**
     * Value column `i` of the subtotal at grid column `line`: its title cell in the last header row
     * when there are several values, and its group entry over the grid columns of the value's
     * matrix columns.
     */
    predicate ValueColumnDone(g: Grid, groups: seq<Option<GroupInfo>>, headers: seq<Header>, line: nat, i: nat, level: nat)
      reads this
    {
      && i < |data.valueTitles|
      && (|data.valueTitles| > 1 ==> At(g, columnLevels - 1, line + i) == Some(ValueTitleCell(i, level)))
      && GroupAt(groups, line + i)
         == Some(GroupInfo(SummaryBackground(level), TransformIndexes(columnsTransformation, ValueColumns(headers, i)), None, level))
    }

    lemma ValueColumnStays(a: Grid, b: Grid, ga: seq<Option<GroupInfo>>, gb: seq<Option<GroupInfo>>, headers: seq<Header>,
                           line: nat, i: nat, level: nat)
      requires ValueColumnDone(a, ga, headers, line, i, level)
      requires At(a, columnLevels - 1, line + i) == At(b, columnLevels - 1, line + i)
      requires GroupAt(ga, line + i) == GroupAt(gb, line + i)
      ensures ValueColumnDone(b, gb, headers, line, i, level)
    {
    }

    /** One value column of a column subtotal: its title cell, its group entry and its subtotals. */
    method FillValueColumn(ghost orig: Grid, cells: Grid, groups: seq<Option<GroupInfo>>, headers: seq<Header>, line: nat,
                           i: nat, level: nat)
      returns (cells': Grid, groups': seq<Option<GroupInfo>>)
      requires Valid() && Dims(cells, GridRows(), GridColumns())
      requires level < columnLevels && i < |data.valueTitles| && rowLevels <= line && line + i < GridColumns()
      requires ShowSum(ColumnShowSums(), level)
      requires GroupsWithin(groups, rowLevels, GridColumns())
      requires Shown(columnsTransformation, TargetIndexesOf(headers))
      ensures Dims(cells', GridRows(), GridColumns())
      ensures ColumnPassFrame(cells, cells', line + i, line + i + 1)
      ensures Kept(cells, cells', 0, columnLevels - 1, 0, GridColumns())
      ensures |data.valueTitles| <= 1 ==> Kept(cells, cells', 0, columnLevels, 0, GridColumns())
      ensures GroupsWithin(groups', rowLevels, GridColumns())
      ensures forall x :: x != line + i ==> GroupAt(groups', x) == GroupAt(groups, x)
      ensures ValueColumnDone(cells', groups', headers, line, i, level)
      ensures SumColumnsFree(line, level) && ColumnDataKept(orig, cells, groups) ==> ColumnDataKept(orig, cells', groups')
    {
      var titled := Titled(cells, line + i, ValueTitleCell(i, level));
      TitleKept(orig, cells, groups, line + i, ValueTitleCell(i, level));
      cells', groups' := FillValueGroup(orig, titled, groups, headers, line, i, level);
      ValueColumnFrame(cells, cells', line + i, ValueTitleCell(i, level));
    }

    /** The grid with a value title in the last column header row, written only when there are several values. */
    function Titled(cells: Grid, column: nat, title: Cell): (g: Grid)
      reads this
      requires Valid() && Dims(cells, GridRows(), GridColumns()) && 0 < columnLevels && column < GridColumns()
      ensures Dims(g, GridRows(), GridColumns())
    {
      if |data.valueTitles| > 1 then Write(cells, columnLevels - 1, column, title) else cells
    }

    /** A value title written into the column header rows keeps what the column pass holds. */
    lemma TitleKept(orig: Grid, cells: Grid, groups: seq<Option<GroupInfo>>, column: nat, title: Cell)
      requires Valid() && Dims(cells, GridRows(), GridColumns()) && GroupsWithin(groups, rowLevels, GridColumns())
      requires 0 < columnLevels && column < GridColumns()
      ensures ColumnDataKept(orig, cells, groups) ==> ColumnDataKept(orig, Titled(cells, column, title), groups)
    {
      if ColumnDataKept(orig, cells, groups) {
        var titled := Titled(cells, column, title);
        ColumnDataAreaKept(cells, titled, groups);
        ColumnDataKeptTrans(orig, cells, titled, groups, groups);
      }
    }

    /** The rest of a value column once its title is written: the group entry and the column of subtotals. */
    method FillValueGroup(ghost orig: Grid, titled: Grid, groups: seq<Option<GroupInfo>>, headers: seq<Header>,
                          line: nat, i: nat, level: nat)
      returns (cells': Grid, groups': seq<Option<GroupInfo>>)
      requires Valid() && Dims(titled, GridRows(), GridColumns())
      requires level < columnLevels && i < |data.valueTitles| && rowLevels <= line && line + i < GridColumns()
      requires ShowSum(ColumnShowSums(), level)
      requires GroupsWithin(groups, rowLevels, GridColumns())
      requires Shown(columnsTransformation, TargetIndexesOf(headers))
      ensures Dims(cells', GridRows(), GridColumns())
      ensures HeadersKept(titled, cells') && Kept(titled, cells', 0, GridRows(), 0, line + i)
      ensures Kept(titled, cells', 0, GridRows(), line + i + 1, GridColumns())
      ensures GroupsWithin(groups', rowLevels, GridColumns())
      ensures forall x :: x != line + i ==> GroupAt(groups', x) == GroupAt(groups, x)
      ensures GroupAt(groups', line + i)
              == Some(GroupInfo(SummaryBackground(level), TransformIndexes(columnsTransformation, ValueColumns(headers, i)), None, level))
      ensures SumColumnsFree(line, level) && ColumnDataKept(orig, titled, groups) ==> ColumnDataKept(orig, cells', groups')
    {
      var background := SummaryBackground(level);
      var valueColumns := ValueColumns(headers, i);
      var info := GroupInfo(background, TransformIndexes(columnsTransformation, valueColumns), None, level);
      PutGroup(groups, rowLevels, GridColumns(), line + i, info);
      groups' := Put(groups, line + i, info);
      cells' := FillCellsForGroupedColumn(titled, valueColumns, line + i, background);
      ValueColumnKept(orig, titled, cells', groups, headers, line, i, level);
    }

    /** A value column written on a grid column that shows no matrix column keeps what the column pass holds. */
    lemma ValueColumnKept(orig: Grid, titled: Grid, cells': Grid, groups: seq<Option<GroupInfo>>,
                          headers: seq<Header>, line: nat, i: nat, level: nat)
      requires Valid() && i < |data.valueTitles| && ShowSum(ColumnShowSums(), level)
      requires GroupsWithin(groups, rowLevels, GridColumns()) && rowLevels <= line && line + i < GridColumns()
      requires Shown(columnsTransformation, TargetIndexesOf(headers))
      requires ColumnLineWritten(titled, cells', line + i, GroupedColumn(ValueColumns(headers, i), SummaryBackground(level)),
                                 |rowsTransformation|)
      ensures Kept(titled, cells', 0, GridRows(), 0, line + i) && Kept(titled, cells', 0, GridRows(), line + i + 1, GridColumns())
      ensures SumColumnsFree(line, level) && ColumnDataKept(orig, titled, groups) ==>
        ColumnDataKept(orig, cells', Put(groups, line + i, GroupInfo(SummaryBackground(level),
                                                                     TransformIndexes(columnsTransformation, ValueColumns(headers, i)),
                                                                     None, level)))
    {
      if SumColumnsFree(line, level) && ColumnDataKept(orig, titled, groups) {
        var info := GroupInfo(SummaryBackground(level), TransformIndexes(columnsTransformation, ValueColumns(headers, i)), None, level);
        NonLeafLineFree(columnsTransformation, SumLinesAt(ColumnShowSums(), level, NumberOfSums()), line, i, line + i);
        ValueColumnData(titled, cells', groups, headers, i, line + i, SummaryBackground(level), level);
        ColumnDataKeptTrans(orig, titled, cells', groups, Put(groups, line + i, info));
      }
    }

    /** A title written into the last column header row, then a column of data: what stays as it was. */
    lemma ValueColumnFrame(cells: Grid, cells': Grid, column: nat, title: Cell)
      requires Valid() && Dims(cells, GridRows(), GridColumns())
      requires rowLevels <= column < GridColumns() && 0 < columnLevels
      requires HeadersKept(Titled(cells, column, title), cells') && Kept(Titled(cells, column, title), cells', 0, GridRows(), 0, column)
      requires Kept(Titled(cells, column, title), cells', 0, GridRows(), column + 1, GridColumns())
      ensures ColumnPassFrame(cells, cells', column, column + 1)
      ensures Kept(cells, cells', 0, columnLevels - 1, 0, GridColumns())
      ensures At(cells', columnLevels - 1, column) == At(Titled(cells, column, title), columnLevels - 1, column)
      ensures |data.valueTitles| <= 1 ==> Kept(cells, cells', 0, columnLevels, 0, GridColumns())
    {
    }

    /**
     * The subtotal columns closing a sibling list at `level`, from grid column `line` on: the
     * summary cell one level up, then per value its title cell, group entry and subtotals; with no
     * values a single group entry over nothing.
     */
    method FillColumnSummary(ghost orig: Grid, cells: Grid, groups: seq<Option<GroupInfo>>, headers: seq<Header>, line: nat,
                             level: nat, parent: Option<Header>)
      returns (cells': Grid, groups': seq<Option<GroupInfo>>)
      requires Valid() && Dims(cells, GridRows(), GridColumns())
      requires level < columnLevels && rowLevels <= line && line + NumberOfSums() <= GridColumns()
      requires ShowSum(ColumnShowSums(), level)
      requires GroupsWithin(groups, rowLevels, GridColumns())
      requires Shown(columnsTransformation, TargetIndexesOf(headers))
      requires ColumnDataFilled(orig, cells, groups, TargetIndexesOf(headers))
      ensures Dims(cells', GridRows(), GridColumns())
      ensures SumColumnsFree(line, level) ==> ColumnDataFilled(orig, cells', groups', TargetIndexesOf(headers))
      ensures ColumnPassFrame(cells, cells', line, line + NumberOfSums())
      ensures GroupsWithin(groups', rowLevels, GridColumns())
      ensures !(|data.valueTitles| > 1 && SummaryRow(level) == columnLevels - 1) ==>
        At(cells', SummaryRow(level), line) == Some(ColumnSummaryCell(SummaryTitle(parent), level))
      ensures forall i :: 0 <= i < |data.valueTitles| ==> ValueColumnDone(cells', groups', headers, line, i, level)
      ensures |data.valueTitles| == 0 ==> GroupAt(groups', line) == Some(GroupInfo(SummaryBackground(level), [], None, level))
    {
      var summary := ColumnSummaryCell(SummaryTitle(parent), level);
      cells' := Write(cells, SummaryRow(level), line, summary);
      ColumnDataAreaKept(cells, cells', groups);
      groups' := groups;
      var n := |data.valueTitles|;
      if n > 0 {
        var i := 0;
        while i < n
          invariant 0 <= i <= n
          invariant Dims(cells', GridRows(), GridColumns())
          invariant ColumnPassFrame(cells, cells', line, line + NumberOfSums())
          invariant GroupsWithin(groups', rowLevels, GridColumns())
          invariant !(n > 1 && SummaryRow(level) == columnLevels - 1) ==> At(cells', SummaryRow(level), line) == Some(summary)
          invariant forall k :: 0 <= k < i ==> ValueColumnDone(cells', groups', headers, line, k, level)
          invariant SumColumnsFree(line, level) ==> ColumnDataKept(cells, cells', groups')
        {
          cells', groups' := FillNextValueColumn(cells, cells', groups', headers, line, i, level, summary);
          i := i + 1;
        }
      } else {
        var info := GroupInfo(SummaryBackground(level), [], None, level);
        PutWithin(groups, rowLevels, GridColumns(), line, info);
        groups' := Put(groups, line, info);
        if SumColumnsFree(line, level) {
          NonLeafLineFree(columnsTransformation, SumLinesAt(ColumnShowSums(), level, NumberOfSums()), line, 0, line);
          EmptyColumnGroupData(cells', groups, line, info);
          ColumnDataKeptTrans(cells, cells', cells', groups, groups');
        }
      }
      if SumColumnsFree(line, level) {
        ColumnDataExtend(orig, cells, cells', groups, groups', TargetIndexesOf(headers));
      }
    }

    /** The subtotal columns from grid column `line` on, closing a sibling list at `level`, show no matrix column. */
    predicate SumColumnsFree(line: nat, level: nat)
      reads this
    {
      NonLeafLinesFree(columnsTransformation, SumLinesAt(ColumnShowSums(), level, NumberOfSums()), line)
    }

    /** One round of the subtotal loop: value `i` gets its column, and the columns before it stay done. */
    method FillNextValueColumn(orig: Grid, cells: Grid, groups: seq<Option<GroupInfo>>, headers: seq<Header>, line: nat,
                               i: nat, level: nat, summary: Cell)
      returns (cells': Grid, groups': seq<Option<GroupInfo>>)
      requires Valid() && Dims(cells, GridRows(), GridColumns())
      requires level < columnLevels && rowLevels <= line && line + NumberOfSums() <= GridColumns()
      requires i < |data.valueTitles| && ShowSum(ColumnShowSums(), level)
      requires GroupsWithin(groups, rowLevels, GridColumns())
      requires Shown(columnsTransformation, TargetIndexesOf(headers))
      requires ColumnPassFrame(orig, cells, line, line + NumberOfSums())
      requires !(|data.valueTitles| > 1 && SummaryRow(level) == columnLevels - 1) ==> At(cells, SummaryRow(level), line) == Some(summary)
      requires forall k :: 0 <= k < i ==> ValueColumnDone(cells, groups, headers, line, k, level)
      ensures Dims(cells', GridRows(), GridColumns())
      ensures ColumnPassFrame(orig, cells', line, line + NumberOfSums())
      ensures GroupsWithin(groups', rowLevels, GridColumns())
      ensures !(|data.valueTitles| > 1 && SummaryRow(level) == columnLevels - 1) ==> At(cells', SummaryRow(level), line) == Some(summary)
      ensures forall k :: 0 <= k < i + 1 ==> ValueColumnDone(cells', groups', headers, line, k, level)
      ensures SumColumnsFree(line, level) && ColumnDataKept(orig, cells, groups) ==> ColumnDataKept(orig, cells', groups')
    {
      cells', groups' := FillValueColumn(orig, cells, groups, headers, line, i, level);
      forall k | 0 <= k < i + 1
        ensures ValueColumnDone(cells', groups', headers, line, k, level)
      {
        if k < i {
          assert At(cells, columnLevels - 1, line + k) == At(cells', columnLevels - 1, line + k);
          ValueColumnStays(cells, cells', groups, groups', headers, line, k, level);
        }
      }
    }

    /**
     * One header of the column pass, at grid column `column`: its header cell, then its children
     * (or its matrix column).
     */
    method FillColumnHeader(cells: Grid, groups: seq<Option<GroupInfo>>, h: Header, column: nat, level: nat)
      returns (cells': Grid, groups': seq<Option<GroupInfo>>)
      requires Valid() && Dims(cells, GridRows(), GridColumns())
      requires HeaderFull(h, level, columnLevels)
      requires rowLevels <= column && column + HeaderChildCount(h, level, ColumnShowSums(), NumberOfSums()) <= GridColumns()
      requires GroupsWithin(groups, rowLevels, GridColumns())
      requires NonLeafLinesFree(columnsTransformation, HeaderLines(h, level, ColumnShowSums(), NumberOfSums()), column)
      requires Shown(columnsTransformation, TargetIndexesForHeader(h)) && ColumnGroupsDone(cells, groups)
      ensures Dims(cells', GridRows(), GridColumns())
      ensures ColumnPassFrame(cells, cells', column, column + HeaderChildCount(h, level, ColumnShowSums(), NumberOfSums()))
      ensures Kept(cells, cells', 0, level, column, column + 1)
      ensures ColumnHeaderPlaced(cells', h, column, level, ColumnShowSums(), NumberOfSums(), data.columnsConfig)
      ensures GroupsWithin(groups', rowLevels, GridColumns())
      ensures ColumnDataFilled(cells, cells', groups', TargetIndexesForHeader(h))
      decreases h, 1
    {
      HeaderFullCounts(h, level, columnLevels, ColumnShowSums(), NumberOfSums());
      var titled := Write(cells, level, column,
                          ColumnHeaderCell(h, level, ColumnShowSums(), NumberOfSums(), ColumnSticky(data.columnsConfig, level)));
      ColumnDataAreaKept(cells, titled, groups);
      if h.node.Group? {
        cells', groups' := FillGroupColumns(cells, titled, groups, h, column, level);
      } else {
        cells' := FillLeafColumn(cells, titled, groups, h, column, level);
        groups' := groups;
      }
    }

    /** The columns under a group column header whose cell is already written. */
    method FillGroupColumns(ghost cells: Grid, titled: Grid, groups: seq<Option<GroupInfo>>, h: Header, column: nat, level: nat)
      returns (cells': Grid, groups': seq<Option<GroupInfo>>)
      requires Valid() && Dims(cells, GridRows(), GridColumns())
      requires h.node.Group? && HeaderFull(h, level, columnLevels)
      requires level < columnLevels && rowLevels <= column < GridColumns()
      requires column + HeaderChildCount(h, level, ColumnShowSums(), NumberOfSums()) <= GridColumns()
      requires GroupsWithin(groups, rowLevels, GridColumns())
      requires titled == Write(cells, level, column,
                               ColumnHeaderCell(h, level, ColumnShowSums(), NumberOfSums(), ColumnSticky(data.columnsConfig, level)))
      requires NonLeafLinesFree(columnsTransformation, HeaderLines(h, level, ColumnShowSums(), NumberOfSums()), column)
      requires Shown(columnsTransformation, TargetIndexesForHeader(h)) && ColumnDataKept(cells, titled, groups)
      ensures Dims(cells', GridRows(), GridColumns())
      ensures ColumnPassFrame(cells, cells', column, column + HeaderChildCount(h, level, ColumnShowSums(), NumberOfSums()))
      ensures Kept(cells, cells', 0, level, column, column + 1)
      ensures ColumnHeaderPlaced(cells', h, column, level, ColumnShowSums(), NumberOfSums(), data.columnsConfig)
      ensures GroupsWithin(groups', rowLevels, GridColumns())
      ensures ColumnDataFilled(cells, cells', groups', TargetIndexesForHeader(h))
      decreases h, 0
    {
      HeaderFullCounts(h, level, columnLevels, ColumnShowSums(), NumberOfSums());
      HeaderLinesFree(columnsTransformation, h, level, ColumnShowSums(), NumberOfSums(), column);
      assert ColumnSummaryFree(h.node.children, column, level + 1);
      cells', groups' := IterateAndFillCellsByColumns(titled, groups, h.node.children, column, level + 1, Some(h));
      assert ColumnDataFilled(titled, cells', groups', TargetIndexesOf(h.node.children));
      ColumnGroupStep(cells, titled, cells', h, column, level);
      ColumnDataBefore(cells, titled, cells', groups, groups', TargetIndexesOf(h.node.children));
    }

    /** The matrix column of a leaf column header whose cell is already written. */
    method FillLeafColumn(ghost cells: Grid, titled: Grid, groups: seq<Option<GroupInfo>>, h: Header, column: nat, level: nat)
      returns (cells': Grid)
      requires Valid() && Dims(cells, GridRows(), GridColumns())
      requires h.node.Leaf? && HeaderFull(h, level, columnLevels)
      requires rowLevels <= column < GridColumns()
      requires titled == Write(cells, level, column,
                               ColumnHeaderCell(h, level, ColumnShowSums(), NumberOfSums(), ColumnSticky(data.columnsConfig, level)))
      requires Shown(columnsTransformation, TargetIndexesForHeader(h)) && ColumnDataKept(cells, titled, groups)
      ensures Dims(cells', GridRows(), GridColumns())
      ensures ColumnPassFrame(cells, cells', column, column + HeaderChildCount(h, level, ColumnShowSums(), NumberOfSums()))
      ensures Kept(cells, cells', 0, level, column, column + 1)
      ensures ColumnHeaderPlaced(cells', h, column, level, ColumnShowSums(), NumberOfSums(), data.columnsConfig)
      ensures ColumnDataFilled(cells, cells', groups, TargetIndexesForHeader(h))
    {
      var target := h.node.targetIndex;
      cells' := FillCellsForColumn(titled, target);
      ColumnLeafStep(cells, titled, cells', h, column, level);
      assert target in TargetIndexesForHeader(h);
      assert ShownAt(columnsTransformation, target);
      LeafColumnData(titled, cells', groups, target);
      ColumnDataBefore(cells, titled, cells', groups, groups, [target]);
    }

    /** A leaf column header: its cell written, then only data cells changed. */
    lemma ColumnLeafStep(cells: Grid, titled: Grid, cells': Grid, h: Header, column: nat, level: nat)
      requires Valid() && Dims(cells, GridRows(), GridColumns())
      requires h.node.Leaf? && HeaderFull(h, level, columnLevels)
      requires rowLevels <= column < GridColumns()
      requires titled == Write(cells, level, column,
                               ColumnHeaderCell(h, level, ColumnShowSums(), NumberOfSums(), ColumnSticky(data.columnsConfig, level)))
      requires HeadersKept(titled, cells')
      ensures ColumnPassFrame(cells, cells', column, column + HeaderChildCount(h, level, ColumnShowSums(), NumberOfSums()))
      ensures Kept(cells, cells', 0, level, column, column + 1)
      ensures ColumnHeaderPlaced(cells', h, column, level, ColumnShowSums(), NumberOfSums(), data.columnsConfig)
    {
    }

    /** A group column header: its cell written, then its children's columns filled to its right and below. */
    lemma ColumnGroupStep(cells: Grid, titled: Grid, cells': Grid, h: Header, column: nat, level: nat)
      requires Valid() && Dims(cells, GridRows(), GridColumns())
      requires h.node.Group? && HeaderFull(h, level, columnLevels)
      requires rowLevels <= column < GridColumns() && column + HeaderChildCount(h, level, ColumnShowSums(), NumberOfSums()) <= GridColumns()
      requires titled == Write(cells, level, column,
                               ColumnHeaderCell(h, level, ColumnShowSums(), NumberOfSums(), ColumnSticky(data.columnsConfig, level)))
      requires ColumnPassFrame(titled, cells', column, column + ColumnLines(h.node.children, level + 1))
      requires Kept(titled, cells', 0, level + 1, column, column + 1)
      requires ColumnHeadersPlaced(cells', h.node.children, column, level + 1, ColumnShowSums(), NumberOfSums(), data.columnsConfig)
      ensures ColumnPassFrame(cells, cells', column, column + HeaderChildCount(h, level, ColumnShowSums(), NumberOfSums()))
      ensures Kept(cells, cells', 0, level, column, column + 1)
      ensures ColumnHeaderPlaced(cells', h, column, level, ColumnShowSums(), NumberOfSums(), data.columnsConfig)
    {
      HeaderFullCounts(h, level, columnLevels, ColumnShowSums(), NumberOfSums());
    }

    /** What one more header of a sibling list adds to the column pass. */
    lemma ColumnLoopStep(orig: Grid, before: Grid, after: Grid, headers: seq<Header>, i: nat, start: nat, column: nat,
                         level: nat, showSums: seq<bool>)
      requires Full(headers, level, columnLevels) && i < |headers| && showSums == ColumnShowSums()
      requires column == start + ChildrenCount(headers[..i], level, showSums, NumberOfSums())
      requires ColumnPassFrame(orig, before, start, start + ColumnLines(headers, level))
      requires i > 0 ==> Kept(orig, before, 0, level, start, start + 1)
      requires i == 0 ==> orig == before
      requires ColumnHeadersPlaced(before, headers[..i], start, level, showSums, NumberOfSums(), data.columnsConfig)
      requires ColumnPassFrame(before, after, column, column + HeaderChildCount(headers[i], level, showSums, NumberOfSums()))
      requires Kept(before, after, 0, level, column, column + 1)
      requires ColumnHeaderPlaced(after, headers[i], column, level, showSums, NumberOfSums(), data.columnsConfig)
      ensures ColumnPassFrame(orig, after, start, start + ColumnLines(headers, level))
      ensures Kept(orig, after, 0, level, start, start + 1)
      ensures ColumnHeadersPlaced(after, headers[..i + 1], start, level, showSums, NumberOfSums(), data.columnsConfig)
    {
      ChildrenCountPrefix(headers, i, level, showSums, NumberOfSums());
      PrefixCount(headers, i + 1, level, showSums, NumberOfSums());
      ColumnPassFrameTrans(orig, before, after, start, start + ColumnLines(headers, level),
                           column, column + HeaderChildCount(headers[i], level, showSums, NumberOfSums()));
      assert Full(headers[..i], level, columnLevels) by {
        assert forall k :: 0 <= k < i ==> headers[..i][k] == headers[k];
      }
      ColumnLoopKept(orig, before, after, headers, i, start, column, level, showSums);
      ColumnLoopPlaced(before, after, headers, i, start, column, level, showSums);
    }

    lemma ColumnLoopKept(orig: Grid, before: Grid, after: Grid, headers: seq<Header>, i: nat, start: nat, column: nat,
                         level: nat, showSums: seq<bool>)
      requires i < |headers| && Full(headers[..i], level, columnLevels)
      requires column == start + ChildrenCount(headers[..i], level, showSums, NumberOfSums())
      requires ColumnPassFrame(before, after, column, column + HeaderChildCount(headers[i], level, showSums, NumberOfSums()))
      requires Kept(before, after, 0, level, column, column + 1)
      requires i > 0 ==> Kept(orig, before, 0, level, start, start + 1)
      requires i == 0 ==> orig == before
      requires level <= columnLevels
      ensures Kept(orig, after, 0, level, start, start + 1)
    {
      if i > 0 {
        FullCounts(headers[..i], level, columnLevels, showSums, NumberOfSums());
      } else {
        assert headers[..i] == [];
      }
    }

    lemma ColumnLoopPlaced(before: Grid, after: Grid, headers: seq<Header>, i: nat, start: nat, column: nat, level: nat,
                           showSums: seq<bool>)
      requires i < |headers| && Full(headers[..i], level, columnLevels)
      requires column == start + ChildrenCount(headers[..i], level, showSums, NumberOfSums())
      requires ColumnHeadersPlaced(before, headers[..i], start, level, showSums, NumberOfSums(), data.columnsConfig)
      requires ColumnPassFrame(before, after, column, column + HeaderChildCount(headers[i], level, showSums, NumberOfSums()))
      requires ColumnHeaderPlaced(after, headers[i], column, level, showSums, NumberOfSums(), data.columnsConfig)
      ensures ColumnHeadersPlaced(after, headers[..i + 1], start, level, showSums, NumberOfSums(), data.columnsConfig)
    {
      ColumnHeadersStay(before, after, headers[..i], start, level, columnLevels, showSums, NumberOfSums(), data.columnsConfig);
      ColumnHeadersPlacedAppend(after, headers, i, start, level, showSums, NumberOfSums(), data.columnsConfig);
    }

    /** The subtotal columns after a sibling list keep what the list's columns hold. */
    lemma ColumnSummaryStep(orig: Grid, before: Grid, after: Grid, headers: seq<Header>, start: nat, level: nat)
      requires Full(headers, level, columnLevels) && level <= columnLevels
      requires ColumnPassFrame(orig, before, start, start + ColumnLines(headers, level))
      requires |headers| > 0 ==> Kept(orig, before, 0, level, start, start + 1)
      requires ColumnHeadersPlaced(before, headers, start, level, ColumnShowSums(), NumberOfSums(), data.columnsConfig)
      requires var line := start + ChildrenCount(headers, level, ColumnShowSums(), NumberOfSums());
        line + NumberOfSums() <= start + ColumnLines(headers, level) && ColumnPassFrame(before, after, line, line + NumberOfSums())
      ensures ColumnPassFrame(orig, after, start, start + ColumnLines(headers, level))
      ensures |headers| > 0 ==> Kept(orig, after, 0, level, start, start + 1)
      ensures ColumnHeadersPlaced(after, headers, start, level, ColumnShowSums(), NumberOfSums(), data.columnsConfig)
    {
      var showSums := ColumnShowSums();
      var line := start + ChildrenCount(headers, level, showSums, NumberOfSums());
      FullCounts(headers, level, columnLevels, showSums, NumberOfSums());
      ColumnPassFrameTrans(orig, before, after, start, start + ColumnLines(headers, level), line, line + NumberOfSums());
      ColumnHeadersStay(before, after, headers, start, level, columnLevels, showSums, NumberOfSums(), data.columnsConfig);
    }

    /** The headers of a sibling list at `level`, one after the other from grid column `start` on. */
    method FillColumnHeaders(cells: Grid, groups: seq<Option<GroupInfo>>, headers: seq<Header>, start: nat, level: nat)
      returns (cells': Grid, groups': seq<Option<GroupInfo>>)
      requires Valid() && Dims(cells, GridRows(), GridColumns())
      requires Full(headers, level, columnLevels)
      requires rowLevels <= start && start + ColumnLines(headers, level) <= GridColumns()
      requires GroupsWithin(groups, rowLevels, GridColumns())
      requires NonLeafLinesFree(columnsTransformation, ChildrenLines(headers, level, ColumnShowSums(), NumberOfSums()), start)
      requires Shown(columnsTransformation, TargetIndexesOf(headers)) && ColumnGroupsDone(cells, groups)
      ensures Dims(cells', GridRows(), GridColumns())
      ensures ColumnPassFrame(cells, cells', start, start + ColumnLines(headers, level))
      ensures |headers| > 0 ==> Kept(cells, cells', 0, level, start, start + 1)
      ensures ColumnHeadersPlaced(cells', headers, start, level, ColumnShowSums(), NumberOfSums(), data.columnsConfig)
      ensures GroupsWithin(groups', rowLevels, GridColumns())
      ensures ColumnDataFilled(cells, cells', groups', TargetIndexesOf(headers))
      decreases headers, 1
    {
      var showSums := ColumnShowSums();
      cells', groups' := cells, groups;
      ColumnDataStart(cells, groups);
      assert headers[..0] == [];
      var current := start;
      var i := 0;
      while i < |headers|
        invariant 0 <= i <= |headers|
        invariant current == start + ChildrenCount(headers[..i], level, showSums, NumberOfSums())
        invariant Dims(cells', GridRows(), GridColumns())
        invariant ColumnPassFrame(cells, cells', start, start + ColumnLines(headers, level))
        invariant i > 0 ==> Kept(cells, cells', 0, level, start, start + 1)
        invariant i == 0 ==> cells' == cells
        invariant ColumnHeadersPlaced(cells', headers[..i], start, level, showSums, NumberOfSums(), data.columnsConfig)
        invariant GroupsWithin(groups', rowLevels, GridColumns())
        invariant ColumnDataFilled(cells, cells', groups', TargetIndexesOf(headers[..i]))
      {
        ChildrenCountPrefix(headers, i, level, showSums, NumberOfSums());
        cells', groups' := FillNextColumnHeader(cells, cells', groups', headers, i, start, current, level);
        current := current + HeaderChildCount(headers[i], level, showSums, NumberOfSums());
        i := i + 1;
      }
      assert headers[..|headers|] == headers;
    }

    /** Before the first header of a list nothing is filled and everything is kept. */
    lemma ColumnDataStart(g: Grid, groups: seq<Option<GroupInfo>>)
      requires ColumnGroupsDone(g, groups)
      ensures ColumnDataFilled(g, g, groups, [])
    {
      forall x: nat, y: nat
        ensures OffRowKeptAt(g, g, x, y)
      {
      }
    }

    /** One round of the column loop: header `i` of the list fills its columns from grid column `current` on. */
    method FillNextColumnHeader(orig: Grid, cells: Grid, groups: seq<Option<GroupInfo>>, headers: seq<Header>, i: nat,
                                start: nat, current: nat, level: nat)
      returns (cells': Grid, groups': seq<Option<GroupInfo>>)
      requires Valid() && Dims(cells, GridRows(), GridColumns())
      requires Full(headers, level, columnLevels) && i < |headers|
      requires rowLevels <= start && start + ColumnLines(headers, level) <= GridColumns()
      requires current == start + ChildrenCount(headers[..i], level, ColumnShowSums(), NumberOfSums())
      requires ColumnPassFrame(orig, cells, start, start + ColumnLines(headers, level))
      requires i > 0 ==> Kept(orig, cells, 0, level, start, start + 1)
      requires i == 0 ==> orig == cells
      requires ColumnHeadersPlaced(cells, headers[..i], start, level, ColumnShowSums(), NumberOfSums(), data.columnsConfig)
      requires GroupsWithin(groups, rowLevels, GridColumns())
      requires NonLeafLinesFree(columnsTransformation, ChildrenLines(headers, level, ColumnShowSums(), NumberOfSums()), start)
      requires Shown(columnsTransformation, TargetIndexesOf(headers))
      requires ColumnDataFilled(orig, cells, groups, TargetIndexesOf(headers[..i]))
      ensures Dims(cells', GridRows(), GridColumns())
      ensures ColumnPassFrame(orig, cells', start, start + ColumnLines(headers, level))
      ensures Kept(orig, cells', 0, level, start, start + 1)
      ensures ColumnHeadersPlaced(cells', headers[..i + 1], start, level, ColumnShowSums(), NumberOfSums(), data.columnsConfig)
      ensures GroupsWithin(groups', rowLevels, GridColumns())
      ensures ColumnDataFilled(orig, cells', groups', TargetIndexesOf(headers[..i + 1]))
      decreases headers, 0
    {
      var showSums := ColumnShowSums();
      ChildrenCountPrefix(headers, i, level, showSums, NumberOfSums());
      PrefixCount(headers, i + 1, level, showSums, NumberOfSums());
      assert HeaderFull(headers[i], level, columnLevels);
      assert current + HeaderChildCount(headers[i], level, showSums, NumberOfSums()) <= start + ColumnLines(headers, level);
      MemberLinesFree(columnsTransformation, headers, i, level, ColumnShowSums(), NumberOfSums(), start, current);
      ShownMember(columnsTransformation, headers, i);
      cells', groups' := FillColumnHeader(cells, groups, headers[i], current, level);
      ColumnLoopStep(orig, cells, cells', headers, i, start, current, level, showSums);
      ColumnDataAppend(orig, cells, cells', groups, groups', headers, i);
    }

    /**
     * iterateAndFillCellsByColumns: the columns of a sibling list at `level`, from grid column
     * `start` on. Every header of the list and below it gets its header cell in its own first
     * column; after the list come its subtotal columns when the level shows sums.
     */
    method IterateAndFillCellsByColumns(cells: Grid, groups: seq<Option<GroupInfo>>, headers: seq<Header>, start: nat,
                                        level: nat, parent: Option<Header>)
      returns (cells': Grid, groups': seq<Option<GroupInfo>>)
      requires Valid() && Dims(cells, GridRows(), GridColumns())
      requires Full(headers, level, columnLevels)
      requires rowLevels <= start && start + ColumnLines(headers, level) <= GridColumns()
      requires GroupsWithin(groups, rowLevels, GridColumns())
      requires NonLeafLinesFree(columnsTransformation, ChildrenLines(headers, level, ColumnShowSums(), NumberOfSums()), start)
      requires Shown(columnsTransformation, TargetIndexesOf(headers)) && ColumnGroupsDone(cells, groups)
      ensures Dims(cells', GridRows(), GridColumns())
      ensures ColumnPassFrame(cells, cells', start, start + ColumnLines(headers, level))
      ensures |headers| > 0 ==> Kept(cells, cells', 0, level, start, start + 1)
      ensures ColumnHeadersPlaced(cells', headers, start, level, ColumnShowSums(), NumberOfSums(), data.columnsConfig)
      ensures GroupsWithin(groups', rowLevels, GridColumns())
      ensures ColumnSummaryFree(headers, start, level) ==> ColumnDataFilled(cells, cells', groups', TargetIndexesOf(headers))
      decreases headers, 2
    {
      cells', groups' := FillColumnHeaders(cells, groups, headers, start, level);
      if ShowSum(ColumnShowSums(), level) {
        cells', groups' := FillColumnListSummary(cells, cells', groups', headers, start, level, parent);
      }
    }

    /** The subtotal columns after the columns of a sibling list at `level`, when the level shows sums. */
    method FillColumnListSummary(orig: Grid, cells: Grid, groups: seq<Option<GroupInfo>>, headers: seq<Header>, start: nat,
                                 level: nat, parent: Option<Header>)
      returns (cells': Grid, groups': seq<Option<GroupInfo>>)
      requires Valid() && Dims(cells, GridRows(), GridColumns())
      requires Full(headers, level, columnLevels) && ShowSum(ColumnShowSums(), level)
      requires rowLevels <= start && start + ColumnLines(headers, level) <= GridColumns()
      requires GroupsWithin(groups, rowLevels, GridColumns())
      requires ColumnPassFrame(orig, cells, start, start + ColumnLines(headers, level))
      requires |headers| > 0 ==> Kept(orig, cells, 0, level, start, start + 1)
      requires ColumnHeadersPlaced(cells, headers, start, level, ColumnShowSums(), NumberOfSums(), data.columnsConfig)
      requires Shown(columnsTransformation, TargetIndexesOf(headers))
      requires ColumnDataFilled(orig, cells, groups, TargetIndexesOf(headers))
      ensures Dims(cells', GridRows(), GridColumns())
      ensures ColumnPassFrame(orig, cells', start, start + ColumnLines(headers, level))
      ensures |headers| > 0 ==> Kept(orig, cells', 0, level, start, start + 1)
      ensures ColumnHeadersPlaced(cells', headers, start, level, ColumnShowSums(), NumberOfSums(), data.columnsConfig)
      ensures GroupsWithin(groups', rowLevels, GridColumns())
      ensures ColumnSummaryFree(headers, start, level) ==> ColumnDataFilled(orig, cells', groups', TargetIndexesOf(headers))
    {
      var current := start + ChildrenCount(headers, level, ColumnShowSums(), NumberOfSums());
      assert level < columnLevels && current + NumberOfSums() <= start + ColumnLines(headers, level);
      assert ColumnSummaryFree(headers, start, level) == SumColumnsFree(current, level);
      cells', groups' := FillColumnSummary(orig, cells, groups, headers, current, level, parent);
      ColumnSummaryStep(orig, cells, cells', headers, start, level);
    }

    /** The subtotal columns after a sibling list at `level`, if the level shows them, show no matrix column. */
    predicate ColumnSummaryFree(headers: seq<Header>, start: nat, level: nat)
      reads this
    {
      SumColumnsFree(start + ChildrenCount(headers, level, ColumnShowSums(), NumberOfSums()), level)
    }

    // -------------------------------------------------------------------------------------------
    // Group intersections

    /**
     * The cell where a row group meets a column group, before it is coloured: an expression row
     * evaluates its expression over the column group's matrix columns, any other row group sums
     * its matrix rows over them. The matrix lines are read back from the groups' grid lines.
     */
    function IntersectionCell(rg: GroupInfo, cg: GroupInfo): Cell
      reads this
    {
      var columns := MatrixIndexes(columnsTransformation, cg.indexes);
      var value := if rg.expression.Some? then Number(EvaluateExpression(rg.expression.value, Src(), columns).value)
                   else GroupedValue(MatrixIndexes(rowsTransformation, rg.indexes), columns);
      ValueCell(value, GroupDataClass, None)
    }

    /** fillColumnWithColor colours a cell of a column group's column unless a row group at most as deep owns its row. */
    predicate ColumnColorApplies(rowGroups: seq<Option<GroupInfo>>, r: int, cg: GroupInfo)
    {
      GroupAt(rowGroups, r).None? || GroupAt(rowGroups, r).value.level > cg.level
    }

    /** Cell (r, c) after every row group has had its intersections written and its row coloured. */
    function RowStage(g: Grid, rowGroups: seq<Option<GroupInfo>>, columnGroups: seq<Option<GroupInfo>>, r: int, c: int): Option<Cell>
      reads this
    {
      match GroupAt(rowGroups, r)
      case None => At(g, r, c)
      case Some(rg) =>
        var written := if GroupAt(columnGroups, c).Some? then Some(IntersectionCell(rg, GroupAt(columnGroups, c).value))
                       else At(g, r, c);
        if rowLevels <= c < GridColumns() then Recolored(written, rg.background) else written
    }

    /** Cell (r, c) after fillCellsByGroupIntersection: the row stage, then the column groups' colours. */
    function Intersected(g: Grid, rowGroups: seq<Option<GroupInfo>>, columnGroups: seq<Option<GroupInfo>>, r: int, c: int): Option<Cell>
      reads this
    {
      var x := RowStage(g, rowGroups, columnGroups, r, c);
      match GroupAt(columnGroups, c)
      case None => x
      case Some(cg) =>
        if columnLevels <= r < GridRows() && ColumnColorApplies(rowGroups, r, cg) then Recolored(x, cg.background) else x
    }

    /** The intersection cells of one row group: grid row `line` gets one at every column group's column. */
    method FillRowIntersections(cells: Grid, line: nat, rg: GroupInfo, columnGroups: seq<Option<GroupInfo>>) returns (cells': Grid)
      requires Dims(cells, GridRows(), GridColumns()) && line < GridRows()
      requires GroupsWithin(columnGroups, rowLevels, GridColumns())
      ensures Dims(cells', GridRows(), GridColumns())
      ensures forall r, c :: (At(cells', r, c)
        == (if r == line && GroupAt(columnGroups, c).Some? then Some(IntersectionCell(rg, GroupAt(columnGroups, c).value))
            else At(cells, r, c)))
    {
      cells' := cells;
      var j := 0;
      while j < |columnGroups|
        invariant 0 <= j <= |columnGroups|
        invariant Dims(cells', GridRows(), GridColumns())
        invariant forall r, c :: (At(cells', r, c)
          == (if r == line && c < j && GroupAt(columnGroups, c).Some? then Some(IntersectionCell(rg, GroupAt(columnGroups, c).value))
              else At(cells, r, c)))
      {
        if columnGroups[j].Some? {
          cells' := Write(cells', line, j, IntersectionCell(rg, columnGroups[j].value));
        }
        j := j + 1;
      }
      forall r, c
        ensures At(cells', r, c)
                == (if r == line && GroupAt(columnGroups, c).Some? then Some(IntersectionCell(rg, GroupAt(columnGroups, c).value))
                    else At(cells, r, c))
      {
        assert GroupAt(columnGroups, c).Some? ==> c < j;
      }
    }

    /** fillRowWithColor: every present cell of grid row `line` right of the row headers takes the background. */
    method FillRowWithColor(cells: Grid, line: nat, background: string, columnsCount: nat) returns (cells': Grid)
      requires Dims(cells, GridRows(), GridColumns()) && line < GridRows() && columnsCount <= GridColumns()
      ensures Dims(cells', GridRows(), GridColumns())
      ensures forall r, c :: (At(cells', r, c)
        == (if r == line && rowLevels <= c < columnsCount then Recolored(At(cells, r, c), background) else At(cells, r, c)))
    {
      cells' := cells;
      var i := rowLevels;
      while i < columnsCount
        invariant i == rowLevels || rowLevels < i <= columnsCount
        invariant Dims(cells', GridRows(), GridColumns())
        invariant forall r, c :: (At(cells', r, c)
          == (if r == line && rowLevels <= c < i then Recolored(At(cells, r, c), background) else At(cells, r, c)))
      {
        if cells'[line][i].Some? {
          cells' := Write(cells', line, i, cells'[line][i].value.(background := Some(Color(background))));
        }
        i := i + 1;
      }
    }

    /**
     * fillColumnWithColor: every present cell of grid column `column` below the column headers takes
     * the column group's background, except in rows of row groups at most as deep.
     */
    method FillColumnWithColor(cells: Grid, column: nat, cg: GroupInfo, rowGroups: seq<Option<GroupInfo>>, rowCount: nat)
      returns (cells': Grid)
      requires Dims(cells, GridRows(), GridColumns()) && column < GridColumns() && rowCount <= GridRows()
      ensures Dims(cells', GridRows(), GridColumns())
      ensures forall r, c :: (At(cells', r, c)
        == (if c == column && columnLevels <= r < rowCount && ColumnColorApplies(rowGroups, r, cg)
            then Recolored(At(cells, r, c), cg.background) else At(cells, r, c)))
    {
      cells' := cells;
      var i := columnLevels;
      while i < rowCount
        invariant i == columnLevels || columnLevels < i <= rowCount
        invariant Dims(cells', GridRows(), GridColumns())
        invariant forall r, c :: (At(cells', r, c)
          == (if c == column && columnLevels <= r < i && ColumnColorApplies(rowGroups, r, cg)
              then Recolored(At(cells, r, c), cg.background) else At(cells, r, c)))
      {
        if ColumnColorApplies(rowGroups, i, cg) && cells'[i][column].Some? {
          cells' := Write(cells', i, column, cells'[i][column].value.(background := Some(Color(cg.background))));
        }
        i := i + 1;
      }
    }

    /**
     * fillCellsByGroupIntersection: every crossing of a row group and a column group gets its
     * subtotal (or expression value), row groups colour their rows, then column groups colour
     * their columns where no row group at most as deep owns the row. The headers stay as they are.
     */
    method FillCellsByGroupIntersection(cells: Grid, rowGroups: seq<Option<GroupInfo>>, columnGroups: seq<Option<GroupInfo>>)
      returns (cells': Grid)
      requires Dims(cells, GridRows(), GridColumns())
      requires GroupsWithin(rowGroups, columnLevels, GridRows()) && GroupsWithin(columnGroups, rowLevels, GridColumns())
      ensures Dims(cells', GridRows(), GridColumns())
      ensures forall r, c :: At(cells', r, c) == Intersected(cells, rowGroups, columnGroups, r, c)
      ensures HeadersKept(cells, cells')
    {
      var rowsCount := |cells|;
      var columnsCount := if |cells| > 0 then |cells[0]| else 0;
      cells' := cells;
      var i := 0;
      while i < |rowGroups|
        invariant 0 <= i <= |rowGroups|
        invariant Dims(cells', GridRows(), GridColumns())
        invariant forall r, c :: At(cells', r, c) == (if r < i then RowStage(cells, rowGroups, columnGroups, r, c) else At(cells, r, c))
      {
        if rowGroups[i].Some? {
          cells' := FillRowGroup(cells, cells', rowGroups, columnGroups, i, columnsCount);
        }
        i := i + 1;
      }
      cells' := FillColumnGroups(cells, cells', rowGroups, columnGroups, rowsCount);
    }

    /** The column loop of fillCellsByGroupIntersection: every column group colours its column. */
    method FillColumnGroups(cells: Grid, staged: Grid, rowGroups: seq<Option<GroupInfo>>, columnGroups: seq<Option<GroupInfo>>,
                            rowsCount: nat)
      returns (cells': Grid)
      requires Dims(cells, GridRows(), GridColumns()) && Dims(staged, GridRows(), GridColumns())
      requires GroupsWithin(columnGroups, rowLevels, GridColumns())
      requires rowsCount == |cells|
      requires forall r, c :: At(staged, r, c) == RowStage(cells, rowGroups, columnGroups, r, c)
      ensures Dims(cells', GridRows(), GridColumns())
      ensures forall r, c :: At(cells', r, c) == Intersected(cells, rowGroups, columnGroups, r, c)
    {
      cells' := staged;
      var j := 0;
      while j < |columnGroups|
        invariant 0 <= j <= |columnGroups|
        invariant Dims(cells', GridRows(), GridColumns())
        invariant forall r, c :: (At(cells', r, c)
          == (if c < j then Intersected(cells, rowGroups, columnGroups, r, c) else RowStage(cells, rowGroups, columnGroups, r, c)))
      {
        if columnGroups[j].Some? {
          cells' := FillColumnWithColor(cells', j, columnGroups[j].value, rowGroups, rowsCount);
        }
        j := j + 1;
      }
    }

    /** One round of the row loop of fillCellsByGroupIntersection: row group `i` gets its intersections and its colour. */
    method FillRowGroup(cells: Grid, current: Grid, rowGroups: seq<Option<GroupInfo>>, columnGroups: seq<Option<GroupInfo>>,
                        i: nat, columnsCount: nat)
      returns (cells': Grid)
      requires Dims(cells, GridRows(), GridColumns()) && Dims(current, GridRows(), GridColumns())
      requires GroupsWithin(rowGroups, columnLevels, GridRows()) && GroupsWithin(columnGroups, rowLevels, GridColumns())
      requires i < |rowGroups| && rowGroups[i].Some?
      requires columnsCount == if |cells| > 0 then |cells[0]| else 0
      requires forall r, c :: At(current, r, c) == (if r < i then RowStage(cells, rowGroups, columnGroups, r, c) else At(cells, r, c))
      ensures Dims(cells', GridRows(), GridColumns())
      ensures forall r, c :: At(cells', r, c) == (if r < i + 1 then RowStage(cells, rowGroups, columnGroups, r, c) else At(cells, r, c))
    {
      var rg := rowGroups[i].value;
      var written := FillRowIntersections(current, i, rg, columnGroups);
      cells' := FillRowWithColor(written, i, rg.background, columnsCount);
      forall r, c ensures At(cells', r, c) == (if r < i + 1 then RowStage(cells, rowGroups, columnGroups, r, c) else At(cells, r, c))
      {
        if r == i {
          assert At(current, r, c) == At(cells, r, c);
        }
      }
    }

    // -------------------------------------------------------------------------------------------
    // The initial grid

    /** A data-area cell before the passes: empty, of the data class exactly where a shown matrix row meets a shown matrix column. */
    function BlankCell(r: nat, c: nat): Cell
      reads this
    {
      ValueCell(Text(""), if Some(r) in rowsTransformation && Some(c) in columnsTransformation then DataClass else GroupDataClass, None)
    }

    /** The cell of grid line (r, c) after the first loop of initCells: data-area cells are blank, the rest absent. */
    function BlankAt(r: int, c: int): Option<Cell>
      reads this
    {
      if 0 <= r < GridRows() && 0 <= c < GridColumns() && columnLevels <= r && rowLevels <= c then Some(BlankCell(r, c)) else None
    }

    /** `nonStickyColumnIndex || columnLevels`: the header rows an attribute title cell spans. */
    function TitleRowSpan(): nat
      reads this
    {
      if nonStickyColumnIndex != 0 then nonStickyColumnIndex else columnLevels
    }

    /** The attribute of row level `c`, if the model names one. */
    function AttributeAt(c: nat): Option<HeaderAttribute>
      reads this
    {
      if c < |data.rowHeaderAttributes| then data.rowHeaderAttributes[c] else None
    }

    function AttributeBackground(attribute: HeaderAttribute): Option<Background>
    {
      if attribute.color.Some? then Some(Color(attribute.color.value)) else None
    }

    /**
     * The corner cell at header row `r` above row level `c`: a level with an attribute has its
     * title cell in the first row over the sticky header rows and a blank cell over the rest;
     * a level without one has an empty cell in every header row.
     */
    function CornerCell(r: nat, c: nat): Option<Cell>
      reads this
    {
      match AttributeAt(c)
      case None =>
        Some(Cell(Text(""), None, 1, 1, EmptyClass, false, false, false, false, None,
                  ColumnSticky(data.columnsConfig, r), RowSticky(data.rowsConfig, c), None, None, None))
      case Some(attribute) =>
        if r == 0 then
          Some(Cell(Text(attribute.title), None, TitleRowSpan(), 1, RowAttributeHeaderClass, false, false, true, false,
                    AttributeBackground(attribute), ColumnSticky(data.columnsConfig, 0), RowSticky(data.rowsConfig, c),
                    None, None, None))
        else if TitleRowSpan() < columnLevels && r == nonStickyColumnIndex then
          Some(Cell(Text(""), None, columnLevels - TitleRowSpan(), 1, RowAttributeHeaderClass, false, false, true, false,
                    AttributeBackground(attribute), false, RowSticky(data.rowsConfig, c), None, None, None))
        else None
    }

    /** initCells, cell by cell. */
    function InitialCell(r: int, c: int): Option<Cell>
      reads this
    {
      if 0 <= r < columnLevels && 0 <= c < rowLevels && r < GridRows() && c < GridColumns() then CornerCell(r, c)
      else BlankAt(r, c)
    }

    /** The attribute cells of a level together span every header row. */
    lemma AttributeCellsSpanHeaderRows(c: nat)
      requires Valid() && columnLevels > 0 && AttributeAt(c).Some?
      ensures CornerCell(0, c).Some? && CornerCell(0, c).value.rowSpan > 0
      ensures var tail := CornerCell(nonStickyColumnIndex, c);
        CornerCell(0, c).value.rowSpan + (if nonStickyColumnIndex != 0 && tail.Some? then tail.value.rowSpan else 0) == columnLevels
    {
      var configs := data.columnsConfig;
      if exists i :: 0 <= i < |configs| && !configs[i].sticky {
        assert nonStickyColumnIndex < |configs| <= columnLevels;
      } else if configs != [] {
        assert nonStickyColumnIndex == columnLevels;
      }
    }

    /** One row of the first loop of initCells. */
    method BlankRow(i: nat) returns (row: Row)
      ensures |row| == GridColumns()
      ensures forall c :: 0 <= c < |row| ==> row[c] == (if columnLevels <= i && rowLevels <= c then Some(BlankCell(i, c)) else None)
    {
      row := [];
      var j := 0;
      while j < GridColumns()
        invariant 0 <= j <= GridColumns() && |row| == j
        invariant forall c :: 0 <= c < j ==> row[c] == (if columnLevels <= i && rowLevels <= c then Some(BlankCell(i, c)) else None)
      {
        row := row + [if columnLevels <= i && rowLevels <= j then Some(BlankCell(i, j)) else None];
        j := j + 1;
      }
    }

    /** The first loop of initCells: blank data cells, every other cell absent. */
    method BlankMatrix() returns (cells: Grid)
      ensures Dims(cells, GridRows(), GridColumns())
      ensures forall r, c :: At(cells, r, c) == BlankAt(r, c)
    {
      cells := [];
      var i := 0;
      while i < GridRows()
        invariant 0 <= i <= GridRows() && |cells| == i
        invariant forall r :: 0 <= r < i ==> |cells[r]| == GridColumns()
        invariant forall r, c :: 0 <= r < i ==> At(cells, r, c) == BlankAt(r, c)
      {
        var row := BlankRow(i);
        BlankRowAppended(cells, row);
        cells := cells + [row];
        i := i + 1;
      }
    }

    /** One more blank row below the blank rows built so far. */
    lemma BlankRowAppended(cells: Grid, row: Row)
      requires |cells| < GridRows() && |row| == GridColumns()
      requires forall c :: 0 <= c < |row| ==> row[c] == (if columnLevels <= |cells| && rowLevels <= c then Some(BlankCell(|cells|, c)) else None)
      requires forall r, c :: 0 <= r < |cells| ==> At(cells, r, c) == BlankAt(r, c)
      ensures forall r, c :: 0 <= r <= |cells| ==> At(cells + [row], r, c) == BlankAt(r, c)
    {
      forall r, c | 0 <= r <= |cells|
        ensures At(cells + [row], r, c) == BlankAt(r, c)
      {
        if r < |cells| {
          assert (cells + [row])[r] == cells[r];
        }
      }
    }

    /** The corner cells above row level `j`. */
    method FillCornerColumn(cells: Grid, j: nat) returns (cells': Grid)
      requires Valid() && Dims(cells, GridRows(), GridColumns()) && j < rowLevels && 0 < columnLevels
      ensures Dims(cells', GridRows(), GridColumns())
      ensures forall r, c :: (At(cells', r, c)
        == (if c == j && 0 <= r < columnLevels && CornerCell(r, c).Some? then CornerCell(r, c) else At(cells, r, c)))
    {
      cells' := cells;
      match AttributeAt(j) {
        case Some(attribute) =>
          var titleRowSpan := TitleRowSpan();
          cells' := Write(cells', 0, j,
                          Cell(Text(attribute.title), None, titleRowSpan, 1, RowAttributeHeaderClass, false, false, true, false,
                               AttributeBackground(attribute), ColumnSticky(data.columnsConfig, 0),
                               RowSticky(data.rowsConfig, j), None, None, None));
          if columnLevels - titleRowSpan > 0 {
            cells' := Write(cells', nonStickyColumnIndex, j,
                            Cell(Text(""), None, columnLevels - titleRowSpan, 1, RowAttributeHeaderClass, false, false, true, false,
                                 AttributeBackground(attribute), false, RowSticky(data.rowsConfig, j), None, None, None));
          }
        case None =>
          var i := 0;
          while i < columnLevels
            invariant 0 <= i <= columnLevels
            invariant Dims(cells', GridRows(), GridColumns())
            invariant forall r, c :: (At(cells', r, c)
              == (if c == j && 0 <= r < i then CornerCell(r, c) else At(cells, r, c)))
          {
            cells' := Write(cells', i, j,
                            Cell(Text(""), None, 1, 1, EmptyClass, false, false, false, false, None,
                                 ColumnSticky(data.columnsConfig, i), RowSticky(data.rowsConfig, j), None, None, None));
            i := i + 1;
          }
      }
    }

    /**
     * initCells: a grid of the table's size with blank data cells, the corner above the row
     * headers filled with the attribute cells, and every other cell absent.
     */
    method InitCells() returns (cells: Grid)
      requires Valid()
      ensures Dims(cells, GridRows(), GridColumns())
      ensures forall r, c :: At(cells, r, c) == InitialCell(r, c)
    {
      cells := BlankMatrix();
      if rowLevels > 0 && columnLevels > 0 {
        var blank := cells;
        var j := 0;
        while j < rowLevels
          invariant 0 <= j <= rowLevels
          invariant Dims(cells, GridRows(), GridColumns())
          invariant forall r, c :: (At(cells, r, c)
            == (if 0 <= c < j && 0 <= r < columnLevels && CornerCell(r, c).Some? then CornerCell(r, c) else At(blank, r, c)))
        {
          cells := FillCornerColumn(cells, j);
          j := j + 1;
        }
      }
    }

    // -------------------------------------------------------------------------------------------
    // Reading the intersections

    /**
     * Where a row group meets a column group, the cell takes the column group's background when
     * the row group lies deeper, and the row group's otherwise.
     */
    lemma IntersectionColor(g: Grid, rowGroups: seq<Option<GroupInfo>>, columnGroups: seq<Option<GroupInfo>>, r: int, c: int)
      requires GroupsWithin(rowGroups, columnLevels, GridRows()) && GroupsWithin(columnGroups, rowLevels, GridColumns())
      requires GroupAt(rowGroups, r).Some? && GroupAt(columnGroups, c).Some?
      ensures var rg, cg := GroupAt(rowGroups, r).value, GroupAt(columnGroups, c).value;
        Intersected(g, rowGroups, columnGroups, r, c)
        == Some(IntersectionCell(rg, cg).(background := Some(Color(if rg.level > cg.level then cg.background else rg.background))))
    {
    }

    /**
     * A subtotal row group meeting a subtotal column group shows the sum over exactly the matrix
     * rows and columns they were built from: reading their grid lines back undoes the transformation.
     */
    lemma SubtotalIntersection(rows: seq<nat>, columns: seq<nat>, rowBackground: string, columnBackground: string,
                               rowLevel: nat, columnLevel: nat)
      requires Valid()
      requires forall i :: 0 <= i < |rows| ==> rows[i] < |rowsTransformation| && rowsTransformation[rows[i]].Some?
      requires forall i :: 0 <= i < |columns| ==> columns[i] < |columnsTransformation| && columnsTransformation[columns[i]].Some?
      ensures IntersectionCell(GroupInfo(rowBackground, TransformIndexes(rowsTransformation, rows), None, rowLevel),
                               GroupInfo(columnBackground, TransformIndexes(columnsTransformation, columns), None, columnLevel)).value
              == GroupedValue(rows, columns)
    {
      MatrixIndexesInvert(rowsTransformation, rows);
      MatrixIndexesInvert(columnsTransformation, columns);
    }

    /** An expression row meeting a subtotal column group evaluates its expression over that group's matrix columns. */
    lemma ExpressionIntersection(e: DataExpression, columns: seq<nat>, rowBackground: string, columnBackground: string,
                                 rowLevel: nat, columnLevel: nat)
      requires Valid()
      requires forall i :: 0 <= i < |columns| ==> columns[i] < |columnsTransformation| && columnsTransformation[columns[i]].Some?
      ensures IntersectionCell(GroupInfo(rowBackground, [], Some(e), rowLevel),
                               GroupInfo(columnBackground, TransformIndexes(columnsTransformation, columns), None, columnLevel)).value
              == Number(EvaluateExpression(e, Src(), columns).value)
    {
      MatrixIndexesInvert(columnsTransformation, columns);
    }

    /**
     * Where the row group on grid row `x` meets the column group on grid column `y`: the
     * intersection cell, in the column group's colour unless a row group at most as deep owns the
     * row, and then in the row group's.
     */
    predicate IntersectionAt(g: Grid, rowGroups: seq<Option<GroupInfo>>, columnGroups: seq<Option<GroupInfo>>, x: nat, y: nat)
      reads this
    {
      GroupAt(rowGroups, x).Some? && GroupAt(columnGroups, y).Some? ==>
        var rg, cg := GroupAt(rowGroups, x).value, GroupAt(columnGroups, y).value;
        var background := if ColumnColorApplies(rowGroups, x, cg) then cg.background else rg.background;
        At(g, x, y) == Some(IntersectionCell(rg, cg).(background := Some(Color(background))))
    }

    /**
     * The data area of a finished table: every shown matrix entry at its grid cell, every row
     * group's and column group's subtotals (or expression values) along its line, and every
     * crossing of a row group and a column group holding its intersection cell.
     */
    ghost predicate TableDataDone(g: Grid, rowGroups: seq<Option<GroupInfo>>, columnGroups: seq<Option<GroupInfo>>)
      reads this
    {
      && RowsDone(g, TargetIndexesOf(data.rowHeaders)) && ColumnsDone(g, TargetIndexesOf(data.columnHeaders))
      && RowGroupsDone(g, rowGroups) && ColumnGroupsDone(g, columnGroups)
      && (forall x: nat, y: nat :: IntersectionAt(g, rowGroups, columnGroups, x, y))
    }

    /** The row pass followed by the column pass: what each filled is there after both. */
    lemma PassesDone(initial: Grid, byRows: Grid, byColumns: Grid, rowGroups: seq<Option<GroupInfo>>,
                     columnGroups: seq<Option<GroupInfo>>)
      requires Valid() && GroupsWithin(rowGroups, columnLevels, GridRows())
      requires RowDataFilled(initial, byRows, rowGroups, TargetIndexesOf(data.rowHeaders))
      requires ColumnDataFilled(byRows, byColumns, columnGroups, TargetIndexesOf(data.columnHeaders))
      ensures RowsDone(byColumns, TargetIndexesOf(data.rowHeaders)) && ColumnsDone(byColumns, TargetIndexesOf(data.columnHeaders))
      ensures RowGroupsDone(byColumns, rowGroups) && ColumnGroupsDone(byColumns, columnGroups)
    {
      RowGroupsKept(byRows, byColumns, rowGroups);
      forall r: nat, c: nat | r in TargetIndexesOf(data.rowHeaders) && c < |columnsTransformation| && columnsTransformation[c].Some?
        ensures LeafDone(byColumns, r, c)
      {
        assert LeafDone(byRows, r, c);
      }
    }

    /**
     * fillCellsByGroupIntersection leaves the shown entries and the group lines as the passes
     * wrote them, since a group's own cells already carry its colour, and writes every crossing.
     */
    lemma IntersectionKeepsData(g: Grid, cells: Grid, rowGroups: seq<Option<GroupInfo>>, columnGroups: seq<Option<GroupInfo>>)
      requires Valid() && Dims(g, GridRows(), GridColumns())
      requires GroupsWithin(rowGroups, columnLevels, GridRows()) && GroupsWithin(columnGroups, rowLevels, GridColumns())
      requires forall r, c :: At(cells, r, c) == Intersected(g, rowGroups, columnGroups, r, c)
      requires RowsDone(g, TargetIndexesOf(data.rowHeaders)) && ColumnsDone(g, TargetIndexesOf(data.columnHeaders))
      requires RowGroupsDone(g, rowGroups) && ColumnGroupsDone(g, columnGroups)
      ensures TableDataDone(cells, rowGroups, columnGroups)
    {
      forall r: nat, c: nat | LeafDone(g, r, c)
        ensures LeafDone(cells, r, c)
      {
        assert NoRowGroupOn(rowGroups, r) && NoColumnGroupOn(columnGroups, c);
        assert At(cells, rowsTransformation[r].value, columnsTransformation[c].value)
               == Intersected(g, rowGroups, columnGroups, rowsTransformation[r].value, columnsTransformation[c].value);
      }
      forall line: nat, c: nat
        ensures RowGroupCellAt(cells, rowGroups, line, c)
      {
        if GroupAt(rowGroups, line).Some? && c < |columnsTransformation| && columnsTransformation[c].Some? {
          assert RowGroupCellAt(g, rowGroups, line, c) && NoColumnGroupOn(columnGroups, c);
          assert At(cells, line, columnsTransformation[c].value)
                 == Intersected(g, rowGroups, columnGroups, line, columnsTransformation[c].value);
        }
      }
      if |data.valueTitles| > 0 {
        forall line: nat, r: nat
          ensures ColumnGroupCellAt(cells, columnGroups, line, r)
        {
          if GroupAt(columnGroups, line).Some? && r < |rowsTransformation| && rowsTransformation[r].Some? {
            assert ColumnGroupCellAt(g, columnGroups, line, r) && NoRowGroupOn(rowGroups, r);
            assert At(cells, rowsTransformation[r].value, line)
                   == Intersected(g, rowGroups, columnGroups, rowsTransformation[r].value, line);
          }
        }
      }
      forall x: nat, y: nat
        ensures IntersectionAt(cells, rowGroups, columnGroups, x, y)
      {
        assert At(cells, x, y) == Intersected(g, rowGroups, columnGroups, x, y);
      }
    }

    // -------------------------------------------------------------------------------------------
    // Whole tables

    /**
     * Subtotal columns of the top level fit the grid: getColumnsCount reserves a single column for
     * a table without column headers, so such a table cannot show a top-level subtotal over
     * several values.
     */
    predicate SumsFit()
      reads this
    {
      StemSumsFit(data)
    }

    /** Every leaf of the row tree is shown, and only on its own leaf line. */
    predicate RowsLaidOut()
      reads this
    {
      && Shown(rowsTransformation, TargetIndexesOf(data.rowHeaders))
      && NonLeafLinesFree(rowsTransformation, ChildrenLines(data.rowHeaders, 0, RowShowSums(), 1), columnLevels)
    }

    /** The grand total row shows no matrix row. */
    predicate RowGrandTotalFree()
      reads this
    {
      SummaryLineFree(data.rowHeaders, columnLevels, 0)
    }

    /** fillCellsByRows: the row pass over the whole row tree, below the column header rows. */
    method FillCellsByRows(cells: Grid) returns (cells': Grid, rowGroups: seq<Option<GroupInfo>>)
      requires Valid() && Dims(cells, GridRows(), GridColumns()) && RowsLaidOut()
      ensures Dims(cells', GridRows(), GridColumns())
      ensures RowPassFrame(cells, cells', columnLevels, GridRows())
      ensures RowHeadersPlaced(cells', data.rowHeaders, columnLevels, 0, RowShowSums(), data.rowsConfig)
      ensures GroupsWithin(rowGroups, columnLevels, GridRows())
      ensures RowGrandTotalFree() ==> RowDataFilled(cells, cells', rowGroups, TargetIndexesOf(data.rowHeaders))
    {
      NoRowGroupsDone(cells);
      cells', rowGroups := IterateAndFillCellsByRows(cells, [], data.rowHeaders, columnLevels, 0, None);
    }

    /** Every leaf of the column tree is shown, and only on its own leaf line. */
    predicate ColumnsLaidOut()
      reads this
    {
      && Shown(columnsTransformation, TargetIndexesOf(data.columnHeaders))
      && NonLeafLinesFree(columnsTransformation, ChildrenLines(data.columnHeaders, 0, ColumnShowSums(), NumberOfSums()), rowLevels)
    }

    /** The grand total columns show no matrix column. */
    predicate ColumnGrandTotalFree()
      reads this
    {
      ColumnSummaryFree(data.columnHeaders, rowLevels, 0)
    }

    /** fillCellsByColumns: the column pass over the whole column tree, right of the row header columns. */
    method FillCellsByColumns(cells: Grid) returns (cells': Grid, columnGroups: seq<Option<GroupInfo>>)
      requires Valid() && SumsFit() && Dims(cells, GridRows(), GridColumns()) && ColumnsLaidOut()
      ensures Dims(cells', GridRows(), GridColumns())
      ensures ColumnPassFrame(cells, cells', rowLevels, GridColumns())
      ensures ColumnHeadersPlaced(cells', data.columnHeaders, rowLevels, 0, ColumnShowSums(), NumberOfSums(), data.columnsConfig)
      ensures GroupsWithin(columnGroups, rowLevels, GridColumns())
      ensures ColumnGrandTotalFree() ==> ColumnDataFilled(cells, cells', columnGroups, TargetIndexesOf(data.columnHeaders))
    {
      NoColumnGroupsDone(cells);
      cells', columnGroups := IterateAndFillCellsByColumns(cells, [], data.columnHeaders, rowLevels, 0, None);
    }

    /**
     * transformData: the initial grid, the row pass, the column pass and the group intersections.
     * The result has the table's size, keeps the corner of the initial grid, and has every row and
     * column header cell where the layout puts it.
     */
    method TransformData() returns (cells: Grid, ghost rowGroups: seq<Option<GroupInfo>>, ghost columnGroups: seq<Option<GroupInfo>>)
      requires Valid() && SumsFit() && RowsLaidOut() && ColumnsLaidOut()
      ensures Dims(cells, GridRows(), GridColumns())
      ensures forall r, c :: 0 <= r < columnLevels && 0 <= c < rowLevels ==> At(cells, r, c) == InitialCell(r, c)
      ensures RowHeadersPlaced(cells, data.rowHeaders, columnLevels, 0, RowShowSums(), data.rowsConfig)
      ensures ColumnHeadersPlaced(cells, data.columnHeaders, rowLevels, 0, ColumnShowSums(), NumberOfSums(), data.columnsConfig)
      ensures GroupsWithin(rowGroups, columnLevels, GridRows()) && GroupsWithin(columnGroups, rowLevels, GridColumns())
      ensures RowGrandTotalFree() && ColumnGrandTotalFree() ==> TableDataDone(cells, rowGroups, columnGroups)
    {
      var initial := InitCells();
      var byRows, byColumns, rows, columns;
      byRows, rows := FillCellsByRows(initial);
      byColumns, columns := FillCellsByColumns(byRows);
      cells := FillCellsByGroupIntersection(byColumns, rows, columns);
      rowGroups, columnGroups := rows, columns;
      TransformedData(initial, byRows, byColumns, cells, rows, columns);
      TransformedHeaders(initial, byRows, byColumns, cells);
    }

    /** The corner of the initial grid and the header cells of both passes are still there after the intersections. */
    lemma TransformedHeaders(initial: Grid, byRows: Grid, byColumns: Grid, cells: Grid)
      requires Valid() && Dims(byRows, GridRows(), GridColumns()) && Dims(byColumns, GridRows(), GridColumns())
      requires Dims(cells, GridRows(), GridColumns())
      requires forall r, c :: At(initial, r, c) == InitialCell(r, c)
      requires RowPassFrame(initial, byRows, columnLevels, GridRows())
      requires RowHeadersPlaced(byRows, data.rowHeaders, columnLevels, 0, RowShowSums(), data.rowsConfig)
      requires ColumnPassFrame(byRows, byColumns, rowLevels, GridColumns())
      requires ColumnHeadersPlaced(byColumns, data.columnHeaders, rowLevels, 0, ColumnShowSums(), NumberOfSums(), data.columnsConfig)
      requires HeadersKept(byColumns, cells)
      ensures forall r, c :: 0 <= r < columnLevels && 0 <= c < rowLevels ==> At(cells, r, c) == InitialCell(r, c)
      ensures RowHeadersPlaced(cells, data.rowHeaders, columnLevels, 0, RowShowSums(), data.rowsConfig)
      ensures ColumnHeadersPlaced(cells, data.columnHeaders, rowLevels, 0, ColumnShowSums(), NumberOfSums(), data.columnsConfig)
    {
      FullCounts(data.rowHeaders, 0, rowLevels, RowShowSums(), 1);
      RowHeadersStay(byRows, cells, data.rowHeaders, columnLevels, 0, rowLevels, RowShowSums(), data.rowsConfig);
      ColumnHeadersStay(byColumns, cells, data.columnHeaders, rowLevels, 0, columnLevels, ColumnShowSums(), NumberOfSums(),
                        data.columnsConfig);
    }

    /** With the grand totals free, the table transformData builds holds its data area. */
    lemma TransformedData(initial: Grid, byRows: Grid, byColumns: Grid, cells: Grid, rowGroups: seq<Option<GroupInfo>>,
                          columnGroups: seq<Option<GroupInfo>>)
      requires Valid() && Dims(byColumns, GridRows(), GridColumns())
      requires GroupsWithin(rowGroups, columnLevels, GridRows()) && GroupsWithin(columnGroups, rowLevels, GridColumns())
      requires RowGrandTotalFree() ==> RowDataFilled(initial, byRows, rowGroups, TargetIndexesOf(data.rowHeaders))
      requires ColumnGrandTotalFree() ==> ColumnDataFilled(byRows, byColumns, columnGroups, TargetIndexesOf(data.columnHeaders))
      requires forall r, c :: At(cells, r, c) == Intersected(byColumns, rowGroups, columnGroups, r, c)
      ensures RowGrandTotalFree() && ColumnGrandTotalFree() ==> TableDataDone(cells, rowGroups, columnGroups)
    {
      if RowGrandTotalFree() && ColumnGrandTotalFree() {
        PassesDone(initial, byRows, byColumns, rowGroups, columnGroups);
        IntersectionKeepsData(byColumns, cells, rowGroups, columnGroups);
      }
    }

    /**
     * updateData: the value type information, the prepared model, the level counts, the first
     * non-sticky levels and both transformation arrays. The state it leaves is valid.
     */
    method UpdateData(d: StemData)
      requires BuiltStem(d)
      modifies this
      ensures Valid()
      ensures values == d.values && rowLevels == |d.rowsConfig|
      ensures columnLevels == |d.columnsConfig| + (if d.hasAdditionalColumnLevel then 1 else 0)
      ensures PreparedFrom(d, valueTypeInfo, data)
      ensures |data.rowHeaders| > 0 ==> rowsTransformation == WriteAll([], Placements(data.rowHeaders, columnLevels, 0, RowShowSums(), 1))
      ensures |data.rowHeaders| == 0 ==> rowsTransformation == (if |d.valueTitles| > 0 then [Some(columnLevels)] else [])
      ensures |data.columnHeaders| > 0 ==>
        columnsTransformation == WriteAll([], Placements(data.columnHeaders, rowLevels, 0, ColumnShowSums(), NumberOfSums()))
      ensures |data.columnHeaders| == 0 ==> columnsTransformation == (if |d.valueTitles| > 0 then [Some(rowLevels)] else [])
      ensures SumsFit() == StemSumsFit(d)
      ensures RowsLaidOut() && ColumnsLaidOut()
      ensures |data.rowHeaders| > 0 ==> RowGrandTotalFree()
      ensures |data.columnHeaders| > 0 ==> ColumnGrandTotalFree()
    {
      var infos, prepared, rows, columns := PrepareStem(d);
      SetState(infos, prepared, d.values, rows, columns);
      UpdatedStateIsValid(d, infos, prepared, rows, columns);
      UpdatedStateFollowsStem(d, infos, prepared, rows, columns);
      UpdatedStateLaidOut();
    }

    /** The assignments of updateData: the prepared model and everything derived from it. */
    method SetState(infos: seq<ValueTypes.ValueTypeInfo>, prepared: StemData, rawValues: seq<seq<Option<real>>>,
                    rows: seq<Option<nat>>, columns: seq<Option<nat>>)
      modifies this
      ensures valueTypeInfo == infos && data == prepared && values == rawValues
      ensures rowLevels == |prepared.rowsConfig| && columnLevels == ColumnLevelsOf(prepared)
      ensures nonStickyRowIndex == NonStickyIndex(prepared.rowsConfig, rowLevels)
      ensures nonStickyColumnIndex == NonStickyIndex(prepared.columnsConfig, columnLevels)
      ensures rowsTransformation == rows && columnsTransformation == columns
    {
      valueTypeInfo := infos;
      data := prepared;
      values := rawValues;
      rowLevels := |prepared.rowsConfig|;
      columnLevels := ColumnLevelsOf(prepared);
      nonStickyRowIndex := NonStickyIndex(prepared.rowsConfig, rowLevels);
      nonStickyColumnIndex := NonStickyIndex(prepared.columnsConfig, columnLevels);
      rowsTransformation := rows;
      columnsTransformation := columns;
    }

    /** The fields updateData sets from a stem make a valid state. */
    lemma UpdatedStateIsValid(d: StemData, infos: seq<ValueTypes.ValueTypeInfo>, prepared: StemData,
                              rows: seq<Option<nat>>, columns: seq<Option<nat>>)
      requires BuiltStem(d) && StemPrepared(d, infos, prepared, rows, columns)
      requires valueTypeInfo == infos && data == prepared && values == d.values
      requires rowLevels == |prepared.rowsConfig| && columnLevels == ColumnLevelsOf(prepared)
      requires nonStickyRowIndex == NonStickyIndex(prepared.rowsConfig, rowLevels)
      requires nonStickyColumnIndex == NonStickyIndex(prepared.columnsConfig, columnLevels)
      requires rowsTransformation == rows && columnsTransformation == columns
      ensures Valid()
    {
      assert NumberOfSums() == SumsOf(d);
      assert RowShowSums() == ShowSumsOf(prepared.rowsConfig) && ColumnShowSums() == ShowSumsOf(prepared.columnsConfig);
      assert GridRows() == ColumnLevelsOf(d) + (if |prepared.rowHeaders| == 0 && |d.valueTitles| > 0 then 1
                                               else HeadersChildCount(prepared.rowHeaders, ShowSumsOf(prepared.rowsConfig), 1));
      assert GridColumns() == |d.rowsConfig| + (if |prepared.columnHeaders| == 0 && |d.valueTitles| > 0 then 1
                                                else HeadersChildCount(prepared.columnHeaders, ShowSumsOf(prepared.columnsConfig), SumsOf(d)));
    }

    /** The fields updateData sets from a stem hold the prepared model and its transformation arrays. */
    lemma UpdatedStateFollowsStem(d: StemData, infos: seq<ValueTypes.ValueTypeInfo>, prepared: StemData,
                                  rows: seq<Option<nat>>, columns: seq<Option<nat>>)
      requires BuiltStem(d) && StemPrepared(d, infos, prepared, rows, columns)
      requires valueTypeInfo == infos && data == prepared && values == d.values
      requires rowLevels == |prepared.rowsConfig| && columnLevels == ColumnLevelsOf(prepared)
      requires nonStickyRowIndex == NonStickyIndex(prepared.rowsConfig, rowLevels)
      requires nonStickyColumnIndex == NonStickyIndex(prepared.columnsConfig, columnLevels)
      requires rowsTransformation == rows && columnsTransformation == columns
      ensures values == d.values && rowLevels == |d.rowsConfig|
      ensures columnLevels == |d.columnsConfig| + (if d.hasAdditionalColumnLevel then 1 else 0)
      ensures |data.rowHeaders| > 0 ==> rowsTransformation == WriteAll([], Placements(data.rowHeaders, columnLevels, 0, RowShowSums(), 1))
      ensures |data.rowHeaders| == 0 ==> rowsTransformation == (if |d.valueTitles| > 0 then [Some(columnLevels)] else [])
      ensures |data.columnHeaders| > 0 ==>
        columnsTransformation == WriteAll([], Placements(data.columnHeaders, rowLevels, 0, ColumnShowSums(), NumberOfSums()))
      ensures |data.columnHeaders| == 0 ==> columnsTransformation == (if |d.valueTitles| > 0 then [Some(rowLevels)] else [])
      ensures SumsFit() == StemSumsFit(d)
      ensures TreeShown(rowsTransformation, data.rowHeaders, columnLevels, RowShowSums(), 1)
      ensures TreeShown(columnsTransformation, data.columnHeaders, rowLevels, ColumnShowSums(), NumberOfSums())
    {
      assert columnLevels == ColumnLevelsOf(d) && rowLevels == |d.rowsConfig|;
      assert NumberOfSums() == SumsOf(d);
      assert RowShowSums() == ShowSumsOf(prepared.rowsConfig) && ColumnShowSums() == ShowSumsOf(prepared.columnsConfig);
    }

    /** Transformation arrays that show their trees lay out both passes, with free grand totals for non-empty trees. */
    lemma UpdatedStateLaidOut()
      requires TreeShown(rowsTransformation, data.rowHeaders, columnLevels, RowShowSums(), 1)
      requires TreeShown(columnsTransformation, data.columnHeaders, rowLevels, ColumnShowSums(), NumberOfSums())
      ensures RowsLaidOut() && ColumnsLaidOut()
      ensures |data.rowHeaders| > 0 ==> RowGrandTotalFree()
      ensures |data.columnHeaders| > 0 ==> ColumnGrandTotalFree()
    {
      if |data.rowHeaders| > 0 {
        SummaryWindowFree(data.rowHeaders, columnLevels, 0);
      }
    }

    /**
     * createTables: no model gives one table without cells; otherwise each stem gives a table,
     * without cells exactly when the stem has neither row nor column headers.
     */
    method CreateTables(pivotData: Option<seq<StemData>>)
      returns (tables: seq<Grid>, ghost infos: seq<seq<ValueTypes.ValueTypeInfo>>, ghost prepared: seq<StemData>)
      requires pivotData.Some? ==> forall k :: 0 <= k < |pivotData.value| ==> BuiltStem(pivotData.value[k]) && StemSumsFit(pivotData.value[k])
      modifies this
      ensures pivotData.None? ==> tables == [[]]
      ensures pivotData.Some? ==> |tables| == |infos| == |prepared| == |pivotData.value|
      ensures pivotData.Some? ==> forall k :: 0 <= k < |tables| ==> (tables[k] == [] <==> DataAreEmpty(pivotData.value[k]))
      ensures pivotData.Some? ==>
        forall k :: 0 <= k < |tables| && !DataAreEmpty(pivotData.value[k]) ==>
          PreparedFrom(pivotData.value[k], infos[k], prepared[k]) && TableOf(prepared[k], tables[k])
    {
      if pivotData.None? {
        return [[]], [], [];
      }
      var stems := pivotData.value;
      tables, infos, prepared := [], [], [];
      var k := 0;
      while k < |stems|
        invariant 0 <= k <= |stems| && |tables| == |infos| == |prepared| == k
        invariant forall i :: 0 <= i < k ==> StemTable(stems[i], infos[i], prepared[i], tables[i])
      {
        var cells;
        ghost var stemInfos, stemPrepared;
        cells, stemInfos, stemPrepared := CreateTable(stems[k]);
        tables, infos, prepared := tables + [cells], infos + [stemInfos], prepared + [stemPrepared];
        k := k + 1;
      }
    }

    /** What createTables gives for one stem: no cells exactly for an empty stem, otherwise the table of its prepared model. */
    ghost predicate StemTable(d: StemData, infos: seq<ValueTypes.ValueTypeInfo>, p: StemData, g: Grid)
    {
      && (g == [] <==> DataAreEmpty(d))
      && (!DataAreEmpty(d) ==> PreparedFrom(d, infos, p) && TableOf(p, g))
    }

    /** One stem of createTables: no cells for an empty stem, otherwise updateData and transformData. */
    method CreateTable(d: StemData) returns (cells: Grid, ghost infos: seq<ValueTypes.ValueTypeInfo>, ghost p: StemData)
      requires BuiltStem(d) && StemSumsFit(d)
      modifies this
      ensures StemTable(d, infos, p, cells)
    {
      if DataAreEmpty(d) {
        return [], [], d;
      }
      UpdateData(d);
      ghost var rowGroups, columnGroups;
      cells, rowGroups, columnGroups := TransformData();
      TableNotEmpty();
      StateTable(cells);
      infos, p := valueTypeInfo, data;
    }

    /** A grid that transformData builds in the state updateData leaves is the table of the prepared model. */
    lemma StateTable(cells: Grid)
      requires Valid()
      requires Dims(cells, GridRows(), GridColumns())
      requires RowHeadersPlaced(cells, data.rowHeaders, columnLevels, 0, RowShowSums(), data.rowsConfig)
      requires ColumnHeadersPlaced(cells, data.columnHeaders, rowLevels, 0, ColumnShowSums(), NumberOfSums(), data.columnsConfig)
      ensures TableOf(data, cells)
    {
      assert GridRows() == TableRowsOf(data) && GridColumns() == TableColumnsOf(data);
    }

    /** A valid state whose model has some header has at least one grid row. */
    lemma TableNotEmpty()
      requires Valid() && !DataAreEmpty(data)
      ensures GridRows() > 0
    {
      if |data.rowHeaders| > 0 {
        FullCounts(data.rowHeaders, 0, rowLevels, RowShowSums(), 1);
      } else {
        assert HeaderFull(data.columnHeaders[0], 0, columnLevels);
      }
    }
  }
}
