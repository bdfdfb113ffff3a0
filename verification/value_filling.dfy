/**
 * Writing the aggregated values into the matrix (pivot-data-converter.ts: initMatrix, fillValues,
 * iterateThroughRowHeaders, iterateThroughColumnHeaders, aggregateValue). The matrix is indexed
 * by row-leaf and column-leaf target indexes; column `t` holds value attribute `t % n`.
 */
module ValueFilling {
  import opened Options
  import opened PivotData
  import opened HeaderCounts
  import opened KeyTree
  import opened Expressions

  /** initMatrix: `rows` rows of `columns` undefined entries. */
  method InitMatrix(rows: nat, columns: nat) returns (matrix: seq<seq<Option<real>>>)
    ensures |matrix| == rows
    ensures forall i :: 0 <= i < rows ==> |matrix[i]| == columns && forall j :: 0 <= j < columns ==> matrix[i][j].None?
  {
    matrix := [];
    var i := 0;
    while i < rows
      invariant 0 <= i <= rows && |matrix| == i
      invariant forall k :: 0 <= k < i ==> |matrix[k]| == columns && forall j :: 0 <= j < columns ==> matrix[k][j].None?
    {
      var row: seq<Option<real>> := [];
      var j := 0;
      while j < columns
        invariant 0 <= j <= columns && |row| == j
        invariant forall k :: 0 <= k < j ==> row[k].None?
      {
        row := row + [None];
        j := j + 1;
      }
      matrix := matrix + [row];
      i := i + 1;
    }
  }

  // ---------------------------------------------------------------------------------------------
  // aggregateValue

  /** The values of one resource, in order. */
  function ResourceValues(resource: ValueResource, items: seq<AggregatedValue>): (r: seq<real>)
    ensures |r| <= |items|
    ensures |r| == 0 <==> forall i :: 0 <= i < |items| ==> !BelongsTo(items[i], resource)
  {
    if items == [] then []
    else
      var k := |items| - 1;
      ResourceValues(resource, items[..k]) + (if BelongsTo(items[k], resource) then [items[k].value] else [])
  }

  /**
   * aggregateValue with the Sum aggregation: undefined when no aggregated value belongs to the
   * attribute's resource (same id and same type), otherwise the sum of those that do.
   */
  function AggregateValue(resource: ValueResource, items: seq<AggregatedValue>): (r: Option<real>)
    ensures r.None? <==> forall i :: 0 <= i < |items| ==> !BelongsTo(items[i], resource)
    ensures r.Some? ==> r.value == SumOf(ResourceValues(resource, items))
  {
    var values := ResourceValues(resource, items);
    if |values| > 0 then Some(SumOf(values)) else None
  }

  /** `currentMap[title] || {}`; an array has no such key. */
  function SubMap(currentMap: Tree, title: string): Tree
  {
    if currentMap.Map? then
      match Lookup(currentMap.entries, title)
      case Some(t) => t
      case None => Map([])
    else Map([])
  }

  /** `isArray(currentMap) ? currentMap : currentMap[title]`, as aggregated values. */
  function LeafItems(currentMap: Tree, title: string): seq<AggregatedValue>
  {
    if currentMap.Items? then currentMap.items
    else match Lookup(currentMap.entries, title)
      case Some(Items(xs)) => xs
      case _ => []
  }

  // ---------------------------------------------------------------------------------------------
  // iterateThroughColumnHeaders

  datatype Write = Write(column: nat, value: Option<real>)

  /** The writes iterateThroughColumnHeaders makes, in order. */
  function ColumnWrites(headers: seq<Header>, currentMap: Tree, valueAttributes: seq<ValueResource>): seq<Write>
    decreases headers, 0
  {
    if headers == [] then []
    else
      var k := |headers| - 1;
      ColumnWrites(headers[..k], currentMap, valueAttributes) + HeaderWrites(headers[k], currentMap, valueAttributes)
  }

  function HeaderWrites(h: Header, currentMap: Tree, valueAttributes: seq<ValueResource>): seq<Write>
    decreases h, 1
  {
    match h.node
    case Group(children) => ColumnWrites(children, SubMap(currentMap, h.title), valueAttributes)
    case Leaf(t) =>
      if |valueAttributes| > 0 then
        [Write(t, AggregateValue(valueAttributes[t % |valueAttributes|], LeafItems(currentMap, h.title)))]
      else []
  }

  function ApplyWrites(row: seq<Option<real>>, writes: seq<Write>): (r: seq<Option<real>>)
    requires forall m :: 0 <= m < |writes| ==> writes[m].column < |row|
    ensures |r| == |row|
  {
    if writes == [] then row
    else
      var k := |writes| - 1;
      ApplyWrites(row, writes[..k])[writes[k].column := writes[k].value]
  }

  function Columns(writes: seq<Write>): (r: seq<nat>)
    ensures |r| == |writes| && forall m :: 0 <= m < |writes| ==> r[m] == writes[m].column
  {
    if writes == [] then [] else Columns(writes[..|writes| - 1]) + [writes[|writes| - 1].column]
  }

  /** With at least one value attribute every leaf is written, in leaf order; with none, nothing is. */
  lemma {:induction false} WrittenColumnsAreTargets(headers: seq<Header>, currentMap: Tree, valueAttributes: seq<ValueResource>)
    ensures Columns(ColumnWrites(headers, currentMap, valueAttributes)) ==
      if |valueAttributes| > 0 then TargetIndexesOf(headers) else []
    decreases headers, 0
  {
    if headers != [] {
      var k := |headers| - 1;
      WrittenColumnsAreTargets(headers[..k], currentMap, valueAttributes);
      HeaderWrittenColumns(headers[k], currentMap, valueAttributes);
      ColumnsConcat(ColumnWrites(headers[..k], currentMap, valueAttributes), HeaderWrites(headers[k], currentMap, valueAttributes));
    }
  }

  lemma {:induction false} HeaderWrittenColumns(h: Header, currentMap: Tree, valueAttributes: seq<ValueResource>)
    ensures Columns(HeaderWrites(h, currentMap, valueAttributes)) ==
      if |valueAttributes| > 0 then TargetIndexesForHeader(h) else []
    decreases h, 1
  {
    if h.node.Group? {
      WrittenColumnsAreTargets(h.node.children, SubMap(currentMap, h.title), valueAttributes);
    }
  }

  lemma ColumnsConcat(a: seq<Write>, b: seq<Write>)
    ensures Columns(a + b) == Columns(a) + Columns(b)
  {
  }

  /** A column no write names keeps its entry; the row keeps its length. */
  lemma {:induction false} ApplyWritesFrame(row: seq<Option<real>>, writes: seq<Write>, c: nat)
    requires forall m :: 0 <= m < |writes| ==> writes[m].column < |row|
    ensures |ApplyWrites(row, writes)| == |row|
    ensures c < |row| && c !in Columns(writes) ==> ApplyWrites(row, writes)[c] == row[c]
  {
    if writes != [] {
      ApplyWritesFrame(row, writes[..|writes| - 1], c);
    }
  }

  /** When the written columns are distinct, each write's value is what the row ends up holding. */
  lemma {:induction false} ApplyWritesDistinct(row: seq<Option<real>>, writes: seq<Write>, m: nat)
    requires forall i :: 0 <= i < |writes| ==> writes[i].column < |row|
    requires forall i, j :: 0 <= i < j < |writes| ==> writes[i].column != writes[j].column
    requires m < |writes|
    ensures |ApplyWrites(row, writes)| == |row|
    ensures ApplyWrites(row, writes)[writes[m].column] == writes[m].value
  {
    var k := |writes| - 1;
    ApplyWritesFrame(row, writes, 0);
    if m < k {
      ApplyWritesDistinct(row, writes[..k], m);
    } else {
      ApplyWritesFrame(row, writes[..k], 0);
    }
  }

  /** Every write stays inside the row. */
  predicate WithinRow(writes: seq<Write>, width: nat)
  {
    forall m :: 0 <= m < |writes| ==> writes[m].column < width
  }

  lemma WritesWithinTargets(headers: seq<Header>, currentMap: Tree, valueAttributes: seq<ValueResource>, width: nat)
    requires forall t :: t in TargetIndexesOf(headers) ==> t < width
    ensures WithinRow(ColumnWrites(headers, currentMap, valueAttributes), width)
  {
    var ws := ColumnWrites(headers, currentMap, valueAttributes);
    WrittenColumnsAreTargets(headers, currentMap, valueAttributes);
    forall m | 0 <= m < |ws|
      ensures ws[m].column < width
    {
      assert Columns(ws)[m] == ws[m].column;
      assert Columns(ws)[m] in TargetIndexesOf(headers);
    }
  }

  /** iterateThroughColumnHeaders: the writes of the column tree, applied to row `rowIndex`. */
  method IterateThroughColumnHeaders(values: seq<seq<Option<real>>>, columnHeaders: seq<Header>, rowIndex: nat,
                                     valueAttributes: seq<ValueResource>, currentMap: Tree)
    returns (updated: seq<seq<Option<real>>>)
    requires rowIndex < |values|
    requires WithinRow(ColumnWrites(columnHeaders, currentMap, valueAttributes), |values[rowIndex]|)
    ensures updated == values[rowIndex := ApplyWrites(values[rowIndex], ColumnWrites(columnHeaders, currentMap, valueAttributes))]
    decreases columnHeaders, 1
  {
    updated := values;
    var i := 0;
    while i < |columnHeaders|
      invariant 0 <= i <= |columnHeaders|
      invariant |updated| == |values| && |updated[rowIndex]| == |values[rowIndex]|
      invariant WithinRow(ColumnWrites(columnHeaders[..i], currentMap, valueAttributes), |values[rowIndex]|)
      invariant updated == values[rowIndex := ApplyWrites(values[rowIndex], ColumnWrites(columnHeaders[..i], currentMap, valueAttributes))]
    {
      ColumnWritesStep(columnHeaders, i, currentMap, valueAttributes, |values[rowIndex]|);
      updated := FillColumnHeaderValues(values, updated, columnHeaders[i], rowIndex, valueAttributes, currentMap,
                                        ColumnWrites(columnHeaders[..i], currentMap, valueAttributes));
      i := i + 1;
    }
    assert columnHeaders[..i] == columnHeaders;
  }

  /** One round of the column loop: the writes of one column header, after the writes `before`. */
  method FillColumnHeaderValues(values: seq<seq<Option<real>>>, updated: seq<seq<Option<real>>>, columnHeader: Header,
                                rowIndex: nat, valueAttributes: seq<ValueResource>, currentMap: Tree, before: seq<Write>)
    returns (updated': seq<seq<Option<real>>>)
    requires rowIndex < |values| && WithinRow(before, |values[rowIndex]|)
    requires WithinRow(before + HeaderWrites(columnHeader, currentMap, valueAttributes), |values[rowIndex]|)
    requires updated == values[rowIndex := ApplyWrites(values[rowIndex], before)]
    ensures updated' == values[rowIndex := ApplyWrites(values[rowIndex], before + HeaderWrites(columnHeader, currentMap, valueAttributes))]
    decreases columnHeader, 0
  {
    var own := HeaderWrites(columnHeader, currentMap, valueAttributes);
    ApplyWritesConcat(values[rowIndex], before, own);
    match columnHeader.node {
      case Group(children) =>
        assert own == ColumnWrites(children, SubMap(currentMap, columnHeader.title), valueAttributes);
        updated' := IterateThroughColumnHeaders(updated, children, rowIndex, valueAttributes, SubMap(currentMap, columnHeader.title));
      case Leaf(t) =>
        updated' := updated;
        if |valueAttributes| > 0 {
          var valueIndex := t % |valueAttributes|;
          var value := AggregateValue(valueAttributes[valueIndex], LeafItems(currentMap, columnHeader.title));
          assert own == [Write(t, value)];
          assert own[0].column == t;
          updated' := updated[rowIndex := updated[rowIndex][t := value]];
        } else {
          assert before + own == before;
        }
    }
  }

  lemma {:induction false} ApplyWritesConcat(row: seq<Option<real>>, a: seq<Write>, b: seq<Write>)
    requires WithinRow(a + b, |row|)
    ensures WithinRow(a, |row|) && WithinRow(b, |row|)
    ensures ApplyWrites(row, a + b) == ApplyWrites(ApplyWrites(row, a), b)
  {
    assert forall m :: 0 <= m < |a| ==> a[m] == (a + b)[m];
    assert forall m :: 0 <= m < |b| ==> b[m] == (a + b)[|a| + m];
    ApplyWritesFrame(row, a, 0);
    if b != [] {
      var k := |b| - 1;
      assert (a + b)[..|a + b| - 1] == a + b[..k];
      ApplyWritesConcat(row, a, b[..k]);
    } else {
      assert a + b == a;
    }
  }

  /** The writes of one more column header follow those of the headers before it, and fit the row too. */
  lemma ColumnWritesStep(headers: seq<Header>, i: nat, currentMap: Tree, valueAttributes: seq<ValueResource>, width: nat)
    requires i < |headers|
    requires WithinRow(ColumnWrites(headers, currentMap, valueAttributes), width)
    ensures ColumnWrites(headers[..i + 1], currentMap, valueAttributes)
      == ColumnWrites(headers[..i], currentMap, valueAttributes) + HeaderWrites(headers[i], currentMap, valueAttributes)
    ensures WithinRow(ColumnWrites(headers[..i + 1], currentMap, valueAttributes), width)
    ensures WithinRow(HeaderWrites(headers[i], currentMap, valueAttributes), width)
  {
    assert headers[..i + 1][..i] == headers[..i];
    var before := ColumnWrites(headers[..i], currentMap, valueAttributes);
    var own := HeaderWrites(headers[i], currentMap, valueAttributes);
    PrefixWithinRow(headers, i + 1, currentMap, valueAttributes, width);
    assert forall m :: 0 <= m < |own| ==> own[m] == (before + own)[|before| + m];
  }

  lemma PrefixWithinRow(headers: seq<Header>, i: nat, currentMap: Tree, valueAttributes: seq<ValueResource>, width: nat)
    requires i <= |headers|
    requires WithinRow(ColumnWrites(headers, currentMap, valueAttributes), width)
    ensures WithinRow(ColumnWrites(headers[..i], currentMap, valueAttributes), width)
    decreases |headers| - i
  {
    if i < |headers| {
      PrefixWithinRow(headers, i + 1, currentMap, valueAttributes, width);
      assert headers[..i + 1][..i] == headers[..i];
      var a := ColumnWrites(headers[..i], currentMap, valueAttributes);
      var b := HeaderWrites(headers[i], currentMap, valueAttributes);
      assert forall m :: 0 <= m < |a| ==> a[m] == (a + b)[m];
    } else {
      assert headers[..i] == headers;
    }
  }

  // ---------------------------------------------------------------------------------------------
  // iterateThroughRowHeaders and fillValues

  /** The matrix after iterateThroughRowHeaders. */
  function RowFill(values: seq<seq<Option<real>>>, rowHeaders: seq<Header>, columnHeaders: seq<Header>,
                   valueAttributes: seq<ValueResource>, currentMap: Tree): seq<seq<Option<real>>>
    decreases rowHeaders, 0
  {
    if rowHeaders == [] then values
    else
      var k := |rowHeaders| - 1;
      RowHeaderFill(RowFill(values, rowHeaders[..k], columnHeaders, valueAttributes, currentMap),
                    rowHeaders[k], columnHeaders, valueAttributes, currentMap)
  }

  function RowHeaderFill(values: seq<seq<Option<real>>>, rowHeader: Header, columnHeaders: seq<Header>,
                         valueAttributes: seq<ValueResource>, currentMap: Tree): seq<seq<Option<real>>>
    decreases rowHeader, 1
  {
    var rowHeaderMap := SubMap(currentMap, rowHeader.title);
    match rowHeader.node
    case Group(children) => RowFill(values, children, columnHeaders, valueAttributes, rowHeaderMap)
    case Leaf(t) =>
      var writes := ColumnWrites(columnHeaders, rowHeaderMap, valueAttributes);
      if |columnHeaders| > 0 && t < |values| && WithinRow(writes, |values[t]|) then values[t := ApplyWrites(values[t], writes)]
      else values
  }

  /** The matrix has `width` columns in every row. */
  predicate Shaped(values: seq<seq<Option<real>>>, width: nat)
  {
    forall r :: 0 <= r < |values| ==> |values[r]| == width
  }

  /** Every row target fits the matrix, and every column tree's writes fit a row. */
  predicate Fits(values: seq<seq<Option<real>>>, width: nat, rowHeaders: seq<Header>, columnHeaders: seq<Header>)
  {
    && Shaped(values, width)
    && (forall t :: t in TargetIndexesOf(rowHeaders) ==> t < |values|)
    && (forall t :: t in TargetIndexesOf(columnHeaders) ==> t < width)
  }

  /** iterateThroughRowHeaders */
  method IterateThroughRowHeaders(values: seq<seq<Option<real>>>, width: nat, rowHeaders: seq<Header>, columnHeaders: seq<Header>,
                                  valueAttributes: seq<ValueResource>, currentMap: Tree)
    returns (updated: seq<seq<Option<real>>>)
    requires Fits(values, width, rowHeaders, columnHeaders)
    ensures updated == RowFill(values, rowHeaders, columnHeaders, valueAttributes, currentMap)
    ensures |updated| == |values| && Shaped(updated, width)
    decreases rowHeaders, 1
  {
    updated := values;
    var i := 0;
    while i < |rowHeaders|
      invariant 0 <= i <= |rowHeaders|
      invariant updated == RowFill(values, rowHeaders[..i], columnHeaders, valueAttributes, currentMap)
      invariant |updated| == |values| && Shaped(updated, width)
    {
      assert rowHeaders[..i + 1][..i] == rowHeaders[..i];
      TargetsOfMember(rowHeaders, i);
      updated := FillRowHeaderValues(updated, width, rowHeaders[i], columnHeaders, valueAttributes, currentMap);
      i := i + 1;
    }
    assert rowHeaders[..i] == rowHeaders;
  }

  /** One row header of iterateThroughRowHeaders: a group recurses, a leaf fills its own row. */
  method FillRowHeaderValues(values: seq<seq<Option<real>>>, width: nat, rowHeader: Header, columnHeaders: seq<Header>,
                             valueAttributes: seq<ValueResource>, currentMap: Tree)
    returns (updated: seq<seq<Option<real>>>)
    requires Shaped(values, width)
    requires forall t :: t in TargetIndexesForHeader(rowHeader) ==> t < |values|
    requires forall t :: t in TargetIndexesOf(columnHeaders) ==> t < width
    ensures updated == RowHeaderFill(values, rowHeader, columnHeaders, valueAttributes, currentMap)
    ensures |updated| == |values| && Shaped(updated, width)
    decreases rowHeader, 0
  {
    updated := values;
    var rowHeaderMap := SubMap(currentMap, rowHeader.title);
    match rowHeader.node {
      case Group(children) =>
        assert TargetIndexesForHeader(rowHeader) == TargetIndexesOf(children);
        updated := IterateThroughRowHeaders(values, width, children, columnHeaders, valueAttributes, rowHeaderMap);
      case Leaf(t) =>
        assert t in TargetIndexesForHeader(rowHeader);
        if |columnHeaders| > 0 {
          WritesWithinTargets(columnHeaders, rowHeaderMap, valueAttributes, width);
          updated := IterateThroughColumnHeaders(values, columnHeaders, t, valueAttributes, rowHeaderMap);
          ApplyWritesFrame(values[t], ColumnWrites(columnHeaders, rowHeaderMap, valueAttributes), 0);
        }
    }
  }

  /** fillValues: by rows when there are row headers, otherwise into row 0 by columns. */
  method FillValues(values: seq<seq<Option<real>>>, width: nat, rowHeaders: seq<Header>, columnHeaders: seq<Header>,
                    valueAttributes: seq<ValueResource>, dataMap: seq<Entry>)
    returns (updated: seq<seq<Option<real>>>)
    requires Fits(values, width, rowHeaders, columnHeaders) && |values| > 0
    ensures |rowHeaders| > 0 ==> updated == RowFill(values, rowHeaders, columnHeaders, valueAttributes, Map(dataMap))
    ensures |rowHeaders| == 0 ==>
      WithinRow(ColumnWrites(columnHeaders, Map(dataMap), valueAttributes), |values[0]|) &&
      updated == values[0 := ApplyWrites(values[0], ColumnWrites(columnHeaders, Map(dataMap), valueAttributes))]
  {
    if |rowHeaders| > 0 {
      updated := IterateThroughRowHeaders(values, width, rowHeaders, columnHeaders, valueAttributes, Map(dataMap));
    } else {
      WritesWithinTargets(columnHeaders, Map(dataMap), valueAttributes, width);
      updated := IterateThroughColumnHeaders(values, columnHeaders, 0, valueAttributes, Map(dataMap));
    }
  }

  /** Filling touches only the rows of row leaves, and only the columns of column leaves. */
  lemma {:induction false} RowFillFrame(values: seq<seq<Option<real>>>, width: nat, rowHeaders: seq<Header>, columnHeaders: seq<Header>,
                                        valueAttributes: seq<ValueResource>, currentMap: Tree, r: nat, c: nat)
    requires Fits(values, width, rowHeaders, columnHeaders)
    requires r < |values| && c < width
    requires r !in TargetIndexesOf(rowHeaders) || c !in TargetIndexesOf(columnHeaders)
    ensures var filled := RowFill(values, rowHeaders, columnHeaders, valueAttributes, currentMap);
      |filled| == |values| && Shaped(filled, width) && filled[r][c] == values[r][c]
    decreases rowHeaders, 0
  {
    if rowHeaders != [] {
      var k := |rowHeaders| - 1;
      var front := rowHeaders[..k];
      assert forall t :: t in TargetIndexesOf(front) ==> t in TargetIndexesOf(rowHeaders);
      RowFillFrame(values, width, front, columnHeaders, valueAttributes, currentMap, r, c);
      var mid := RowFill(values, front, columnHeaders, valueAttributes, currentMap);
      TargetsOfMember(rowHeaders, k);
      RowHeaderFillFrame(mid, width, rowHeaders[k], columnHeaders, valueAttributes, currentMap, r, c);
    }
  }

  lemma {:induction false} RowHeaderFillFrame(values: seq<seq<Option<real>>>, width: nat, rowHeader: Header, columnHeaders: seq<Header>,
                                              valueAttributes: seq<ValueResource>, currentMap: Tree, r: nat, c: nat)
    requires Shaped(values, width) && (forall t :: t in TargetIndexesOf(columnHeaders) ==> t < width)
    requires forall t :: t in TargetIndexesForHeader(rowHeader) ==> t < |values|
    requires r < |values| && c < width
    requires r !in TargetIndexesForHeader(rowHeader) || c !in TargetIndexesOf(columnHeaders)
    ensures var filled := RowHeaderFill(values, rowHeader, columnHeaders, valueAttributes, currentMap);
      |filled| == |values| && Shaped(filled, width) && filled[r][c] == values[r][c]
    decreases rowHeader, 1
  {
    var rowHeaderMap := SubMap(currentMap, rowHeader.title);
    match rowHeader.node {
      case Group(children) =>
        assert TargetIndexesForHeader(rowHeader) == TargetIndexesOf(children);
        RowFillFrame(values, width, children, columnHeaders, valueAttributes, rowHeaderMap, r, c);
      case Leaf(t) =>
        LeafFillFrame(values, width, rowHeader, columnHeaders, valueAttributes, currentMap, r, c);
    }
  }

  /** A row leaf writes only its own row, and only the columns of column leaves. */
  lemma LeafFillFrame(values: seq<seq<Option<real>>>, width: nat, rowHeader: Header, columnHeaders: seq<Header>,
                      valueAttributes: seq<ValueResource>, currentMap: Tree, r: nat, c: nat)
    requires rowHeader.node.Leaf? && Shaped(values, width)
    requires r < |values| && c < width
    requires r != rowHeader.node.targetIndex || c !in TargetIndexesOf(columnHeaders)
    ensures var filled := RowHeaderFill(values, rowHeader, columnHeaders, valueAttributes, currentMap);
      |filled| == |values| && Shaped(filled, width) && filled[r][c] == values[r][c]
  {
    var t := rowHeader.node.targetIndex;
    var writes := ColumnWrites(columnHeaders, SubMap(currentMap, rowHeader.title), valueAttributes);
    if |columnHeaders| > 0 && t < |values| && WithinRow(writes, |values[t]|) {
      WrittenColumnsAreTargets(columnHeaders, SubMap(currentMap, rowHeader.title), valueAttributes);
      ApplyWritesFrame(values[t], writes, c);
    }
  }

  /** Filling keeps the number of rows and the width of every row. */
  lemma {:induction false} RowFillShape(values: seq<seq<Option<real>>>, width: nat, rowHeaders: seq<Header>, columnHeaders: seq<Header>,
                                        valueAttributes: seq<ValueResource>, currentMap: Tree)
    requires Shaped(values, width)
    ensures var filled := RowFill(values, rowHeaders, columnHeaders, valueAttributes, currentMap);
      |filled| == |values| && Shaped(filled, width)
    decreases rowHeaders, 0
  {
    if rowHeaders != [] {
      var k := |rowHeaders| - 1;
      RowFillShape(values, width, rowHeaders[..k], columnHeaders, valueAttributes, currentMap);
      var mid := RowFill(values, rowHeaders[..k], columnHeaders, valueAttributes, currentMap);
      RowHeaderFillShape(mid, width, rowHeaders[k], columnHeaders, valueAttributes, currentMap);
    }
  }

  lemma {:induction false} RowHeaderFillShape(values: seq<seq<Option<real>>>, width: nat, rowHeader: Header, columnHeaders: seq<Header>,
                                              valueAttributes: seq<ValueResource>, currentMap: Tree)
    requires Shaped(values, width)
    ensures var filled := RowHeaderFill(values, rowHeader, columnHeaders, valueAttributes, currentMap);
      |filled| == |values| && Shaped(filled, width)
    decreases rowHeader, 1
  {
    var rowHeaderMap := SubMap(currentMap, rowHeader.title);
    match rowHeader.node {
      case Group(children) =>
        RowFillShape(values, width, children, columnHeaders, valueAttributes, rowHeaderMap);
      case Leaf(t) =>
        var writes := ColumnWrites(columnHeaders, rowHeaderMap, valueAttributes);
        if |columnHeaders| > 0 && t < |values| && WithinRow(writes, |values[t]|) {
          ApplyWritesFrame(values[t], writes, 0);
        }
    }
  }

  // ---------------------------------------------------------------------------------------------
  // What fillValues leaves at each pair of leaves

  /** Pairwise different targets. */
  predicate Distinct(xs: seq<nat>)
  {
    forall i, j :: 0 <= i < j < |xs| ==> xs[i] != xs[j]
  }

  /** A row leaf: its target row and the part of the aggregated map its column headers read. */
  datatype RowLeaf = RowLeaf(target: nat, rowMap: Tree)

  /** A column leaf under a map: its target column and the aggregated values it aggregates. */
  datatype ColumnLeaf = ColumnLeaf(target: nat, items: seq<AggregatedValue>)

  /** The row leaves in order, each with the map reached along its titles. */
  function RowLeaves(headers: seq<Header>, currentMap: Tree): (r: seq<RowLeaf>)
    ensures |r| == |TargetIndexesOf(headers)|
    ensures forall a :: 0 <= a < |r| ==> r[a].target == TargetIndexesOf(headers)[a]
    decreases headers, 0
  {
    if headers == [] then []
    else
      var k := |headers| - 1;
      RowLeaves(headers[..k], currentMap) + HeaderRowLeaves(headers[k], currentMap)
  }

  function HeaderRowLeaves(h: Header, currentMap: Tree): (r: seq<RowLeaf>)
    ensures |r| == |TargetIndexesForHeader(h)|
    ensures forall a :: 0 <= a < |r| ==> r[a].target == TargetIndexesForHeader(h)[a]
    decreases h, 1
  {
    match h.node
    case Group(children) => RowLeaves(children, SubMap(currentMap, h.title))
    case Leaf(t) => [RowLeaf(t, SubMap(currentMap, h.title))]
  }

  /** The column leaves in order, each with the aggregated values found along its titles. */
  function ColumnLeaves(headers: seq<Header>, currentMap: Tree): (r: seq<ColumnLeaf>)
    ensures |r| == |TargetIndexesOf(headers)|
    ensures forall b :: 0 <= b < |r| ==> r[b].target == TargetIndexesOf(headers)[b]
    decreases headers, 0
  {
    if headers == [] then []
    else
      var k := |headers| - 1;
      ColumnLeaves(headers[..k], currentMap) + HeaderColumnLeaves(headers[k], currentMap)
  }

  function HeaderColumnLeaves(h: Header, currentMap: Tree): (r: seq<ColumnLeaf>)
    ensures |r| == |TargetIndexesForHeader(h)|
    ensures forall b :: 0 <= b < |r| ==> r[b].target == TargetIndexesForHeader(h)[b]
    decreases h, 1
  {
    match h.node
    case Group(children) => ColumnLeaves(children, SubMap(currentMap, h.title))
    case Leaf(t) => [ColumnLeaf(t, LeafItems(currentMap, h.title))]
  }

  /** The writes are, one by one, the column leaves with their aggregated values. */
  predicate WritesAggregate(writes: seq<Write>, leaves: seq<ColumnLeaf>, valueAttributes: seq<ValueResource>)
    requires |valueAttributes| > 0
  {
    |writes| == |leaves| &&
    forall b :: 0 <= b < |writes| ==>
      writes[b] == Write(leaves[b].target, AggregateValue(valueAttributes[leaves[b].target % |valueAttributes|], leaves[b].items))
  }

  /** iterateThroughColumnHeaders writes one aggregated value per column leaf, in leaf order. */
  lemma {:induction false} ColumnWritesAggregate(headers: seq<Header>, currentMap: Tree, valueAttributes: seq<ValueResource>)
    requires |valueAttributes| > 0
    ensures WritesAggregate(ColumnWrites(headers, currentMap, valueAttributes), ColumnLeaves(headers, currentMap), valueAttributes)
    decreases headers, 0
  {
    if headers != [] {
      var k := |headers| - 1;
      ColumnWritesAggregate(headers[..k], currentMap, valueAttributes);
      HeaderWritesAggregate(headers[k], currentMap, valueAttributes);
      WritesAggregateConcat(ColumnWrites(headers[..k], currentMap, valueAttributes), ColumnLeaves(headers[..k], currentMap),
                            HeaderWrites(headers[k], currentMap, valueAttributes), HeaderColumnLeaves(headers[k], currentMap),
                            valueAttributes);
    }
  }

  lemma {:induction false} HeaderWritesAggregate(h: Header, currentMap: Tree, valueAttributes: seq<ValueResource>)
    requires |valueAttributes| > 0
    ensures WritesAggregate(HeaderWrites(h, currentMap, valueAttributes), HeaderColumnLeaves(h, currentMap), valueAttributes)
    decreases h, 1
  {
    if h.node.Group? {
      ColumnWritesAggregate(h.node.children, SubMap(currentMap, h.title), valueAttributes);
    }
  }

  lemma WritesAggregateConcat(w1: seq<Write>, l1: seq<ColumnLeaf>, w2: seq<Write>, l2: seq<ColumnLeaf>, valueAttributes: seq<ValueResource>)
    requires |valueAttributes| > 0
    requires WritesAggregate(w1, l1, valueAttributes) && WritesAggregate(w2, l2, valueAttributes)
    ensures WritesAggregate(w1 + w2, l1 + l2, valueAttributes)
  {
    forall b | 0 <= b < |w1 + w2|
      ensures (w1 + w2)[b] == Write((l1 + l2)[b].target,
        AggregateValue(valueAttributes[(l1 + l2)[b].target % |valueAttributes|], (l1 + l2)[b].items))
    {
      if b >= |w1| {
        assert (w1 + w2)[b] == w2[b - |w1|] && (l1 + l2)[b] == l2[b - |l1|];
      }
    }
  }

  /** Every value is below `bound`. */
  predicate Below(xs: seq<nat>, bound: nat)
  {
    forall x :: x in xs ==> x < bound
  }

  /** No value of one is a value of the other. */
  predicate Disjoint(xs: seq<nat>, ys: seq<nat>)
  {
    forall x :: x in xs ==> x !in ys
  }

  /** A distinct concatenation has distinct, disjoint halves. */
  lemma DistinctSplit(xs: seq<nat>, ys: seq<nat>)
    requires Distinct(xs + ys)
    ensures Distinct(xs) && Distinct(ys) && Disjoint(xs, ys)
  {
    assert forall i :: 0 <= i < |xs| ==> xs[i] == (xs + ys)[i];
    assert forall j :: 0 <= j < |ys| ==> ys[j] == (xs + ys)[|xs| + j];
  }

  /** The filled matrix holds, at a row leaf's row and a column leaf's column, that column leaf's aggregate. */
  predicate HoldsAggregate(filled: seq<seq<Option<real>>>, rl: RowLeaf, cl: ColumnLeaf, valueAttributes: seq<ValueResource>)
    requires |valueAttributes| > 0
  {
    MatrixAt(filled, rl.target, cl.target) == AggregateValue(valueAttributes[cl.target % |valueAttributes|], cl.items)
  }

  /**
   * With distinct row and column targets, the filled matrix holds, at the target row of every row
   * leaf and the target column of every column leaf below it, the aggregate of that pair's values.
   */
  lemma {:induction false} RowFillAtLeaves(values: seq<seq<Option<real>>>, width: nat, rowHeaders: seq<Header>, columnHeaders: seq<Header>,
                                           valueAttributes: seq<ValueResource>, currentMap: Tree, a: nat, b: nat)
    requires Fits(values, width, rowHeaders, columnHeaders) && |valueAttributes| > 0
    requires Distinct(TargetIndexesOf(rowHeaders)) && Distinct(TargetIndexesOf(columnHeaders))
    requires a < |RowLeaves(rowHeaders, currentMap)|
    requires b < |ColumnLeaves(columnHeaders, RowLeaves(rowHeaders, currentMap)[a].rowMap)|
    ensures var rl := RowLeaves(rowHeaders, currentMap)[a];
      HoldsAggregate(RowFill(values, rowHeaders, columnHeaders, valueAttributes, currentMap),
                     rl, ColumnLeaves(columnHeaders, rl.rowMap)[b], valueAttributes)
    decreases rowHeaders, 1
  {
    var k := |rowHeaders| - 1;
    DistinctSplit(TargetIndexesOf(rowHeaders[..k]), TargetIndexesForHeader(rowHeaders[k]));
    TargetsOfMember(rowHeaders, k);
    assert Below(TargetIndexesForHeader(rowHeaders[k]), |values|);
    if a < |RowLeaves(rowHeaders[..k], currentMap)| {
      FrontLeafKept(values, width, rowHeaders, columnHeaders, valueAttributes, currentMap, a, b);
    } else {
      LastLeafFilled(values, width, rowHeaders, columnHeaders, valueAttributes, currentMap, a, b);
    }
  }

  /** A leaf of the earlier headers: filled by them, then left alone by the last header. */
  lemma {:induction false} FrontLeafKept(values: seq<seq<Option<real>>>, width: nat, rowHeaders: seq<Header>, columnHeaders: seq<Header>,
                                         valueAttributes: seq<ValueResource>, currentMap: Tree, a: nat, b: nat)
    requires Fits(values, width, rowHeaders, columnHeaders) && |valueAttributes| > 0 && rowHeaders != []
    requires Distinct(TargetIndexesOf(rowHeaders[..|rowHeaders| - 1])) && Distinct(TargetIndexesOf(columnHeaders))
    requires Disjoint(TargetIndexesOf(rowHeaders[..|rowHeaders| - 1]), TargetIndexesForHeader(rowHeaders[|rowHeaders| - 1]))
    requires Below(TargetIndexesForHeader(rowHeaders[|rowHeaders| - 1]), |values|)
    requires a < |RowLeaves(rowHeaders[..|rowHeaders| - 1], currentMap)|
    requires b < |ColumnLeaves(columnHeaders, RowLeaves(rowHeaders, currentMap)[a].rowMap)|
    ensures var rl := RowLeaves(rowHeaders, currentMap)[a];
      HoldsAggregate(RowFill(values, rowHeaders, columnHeaders, valueAttributes, currentMap),
                     rl, ColumnLeaves(columnHeaders, rl.rowMap)[b], valueAttributes)
    decreases rowHeaders, 0
  {
    var k := |rowHeaders| - 1;
    var front := rowHeaders[..k];
    var rl := RowLeaves(rowHeaders, currentMap)[a];
    var cl := ColumnLeaves(columnHeaders, rl.rowMap)[b];
    assert rl == RowLeaves(front, currentMap)[a];
    assert forall t :: t in TargetIndexesOf(front) ==> t in TargetIndexesOf(rowHeaders);
    RowFillAtLeaves(values, width, front, columnHeaders, valueAttributes, currentMap, a, b);
    assert rl.target == TargetIndexesOf(front)[a];
    assert rl.target !in TargetIndexesForHeader(rowHeaders[k]);
    assert cl.target == TargetIndexesOf(columnHeaders)[b];
    assert cl.target in TargetIndexesOf(columnHeaders);
    var mid := RowFill(values, front, columnHeaders, valueAttributes, currentMap);
    RowFillShape(values, width, front, columnHeaders, valueAttributes, currentMap);
    RowHeaderFillFrame(mid, width, rowHeaders[k], columnHeaders, valueAttributes, currentMap, rl.target, cl.target);
  }

  /** A leaf of the last header: filled by it over what the earlier headers left. */
  lemma {:induction false} LastLeafFilled(values: seq<seq<Option<real>>>, width: nat, rowHeaders: seq<Header>, columnHeaders: seq<Header>,
                                          valueAttributes: seq<ValueResource>, currentMap: Tree, a: nat, b: nat)
    requires Fits(values, width, rowHeaders, columnHeaders) && |valueAttributes| > 0 && rowHeaders != []
    requires Distinct(TargetIndexesForHeader(rowHeaders[|rowHeaders| - 1])) && Distinct(TargetIndexesOf(columnHeaders))
    requires Below(TargetIndexesForHeader(rowHeaders[|rowHeaders| - 1]), |values|)
    requires |RowLeaves(rowHeaders[..|rowHeaders| - 1], currentMap)| <= a < |RowLeaves(rowHeaders, currentMap)|
    requires b < |ColumnLeaves(columnHeaders, RowLeaves(rowHeaders, currentMap)[a].rowMap)|
    ensures var rl := RowLeaves(rowHeaders, currentMap)[a];
      HoldsAggregate(RowFill(values, rowHeaders, columnHeaders, valueAttributes, currentMap),
                     rl, ColumnLeaves(columnHeaders, rl.rowMap)[b], valueAttributes)
    decreases rowHeaders, 0
  {
    var k := |rowHeaders| - 1;
    var front := rowHeaders[..k];
    var n := |RowLeaves(front, currentMap)|;
    assert RowLeaves(rowHeaders, currentMap)[a] == HeaderRowLeaves(rowHeaders[k], currentMap)[a - n];
    RowFillShape(values, width, front, columnHeaders, valueAttributes, currentMap);
    var mid := RowFill(values, front, columnHeaders, valueAttributes, currentMap);
    HeaderFillAtLeaves(mid, width, rowHeaders[k], columnHeaders, valueAttributes, currentMap, a - n, b);
  }

  lemma {:induction false} HeaderFillAtLeaves(values: seq<seq<Option<real>>>, width: nat, rowHeader: Header, columnHeaders: seq<Header>,
                                              valueAttributes: seq<ValueResource>, currentMap: Tree, a: nat, b: nat)
    requires Shaped(values, width) && |valueAttributes| > 0
    requires (forall t :: t in TargetIndexesForHeader(rowHeader) ==> t < |values|)
    requires (forall t :: t in TargetIndexesOf(columnHeaders) ==> t < width)
    requires Distinct(TargetIndexesForHeader(rowHeader)) && Distinct(TargetIndexesOf(columnHeaders))
    requires a < |HeaderRowLeaves(rowHeader, currentMap)|
    requires b < |ColumnLeaves(columnHeaders, HeaderRowLeaves(rowHeader, currentMap)[a].rowMap)|
    ensures var rl := HeaderRowLeaves(rowHeader, currentMap)[a];
      HoldsAggregate(RowHeaderFill(values, rowHeader, columnHeaders, valueAttributes, currentMap),
                     rl, ColumnLeaves(columnHeaders, rl.rowMap)[b], valueAttributes)
    decreases rowHeader, 2
  {
    match rowHeader.node {
      case Group(children) =>
        RowFillAtLeaves(values, width, children, columnHeaders, valueAttributes, SubMap(currentMap, rowHeader.title), a, b);
      case Leaf(t) =>
        assert t in TargetIndexesForHeader(rowHeader);
        LeafRowAtLeaves(values[t], width, columnHeaders, valueAttributes, SubMap(currentMap, rowHeader.title), b);
    }
  }

  /** One filled row: the column leaf's target holds its aggregate. */
  lemma LeafRowAtLeaves(row: seq<Option<real>>, width: nat, columnHeaders: seq<Header>,
                        valueAttributes: seq<ValueResource>, rowMap: Tree, b: nat)
    requires |row| == width && |valueAttributes| > 0
    requires (forall t :: t in TargetIndexesOf(columnHeaders) ==> t < width) && Distinct(TargetIndexesOf(columnHeaders))
    requires b < |ColumnLeaves(columnHeaders, rowMap)|
    ensures var ws := ColumnWrites(columnHeaders, rowMap, valueAttributes); var cl := ColumnLeaves(columnHeaders, rowMap)[b];
      |columnHeaders| > 0 && WithinRow(ws, |row|) && cl.target < |row|
      && ApplyWrites(row, ws)[cl.target] == AggregateValue(valueAttributes[cl.target % |valueAttributes|], cl.items)
  {
    var ws := ColumnWrites(columnHeaders, rowMap, valueAttributes);
    ColumnWritesAggregate(columnHeaders, rowMap, valueAttributes);
    WrittenColumnsAreTargets(columnHeaders, rowMap, valueAttributes);
    WritesWithinTargets(columnHeaders, rowMap, valueAttributes, width);
    assert forall i :: 0 <= i < |ws| ==> ws[i].column == TargetIndexesOf(columnHeaders)[i];
    assert TargetIndexesOf(columnHeaders)[b] in TargetIndexesOf(columnHeaders);
    ApplyWritesDistinct(row, ws, b);
  }
}
