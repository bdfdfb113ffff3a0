/**
 * Turning one stem's aggregated data into its pivot model (pivot-data-converter.ts:
 * convertAggregatedData, mapStickyValues, createValueTitle and the dimension settings taken from
 * the first configuration of a group).
 */
module StemConversion {
  import opened Options
  import opened PivotConfig
  import opened PivotData
  import opened HeaderCounts
  import opened KeyTree
  import opened HeaderBuilder
  import opened ValueFilling

  /** JavaScript truthiness of an optional flag. */
  predicate Truthy(flag: Option<bool>)
  {
    flag == Some(true)
  }

  /**
   * mapStickyValues: a level is sticky when it and every level before it asks for it, so the sticky
   * levels always form a prefix.
   */
  function MapStickyValues(values: seq<Option<bool>>): (r: seq<bool>)
    ensures |r| == |values|
    ensures forall i :: 0 <= i < |r| ==> (r[i] <==> forall j :: 0 <= j <= i ==> Truthy(values[j]))
  {
    if values == [] then []
    else
      var k := |values| - 1;
      var front := MapStickyValues(values[..k]);
      front + [Truthy(values[k]) && (k == 0 || front[k - 1])]
  }

  /** Only a prefix of the levels is sticky. */
  lemma StickyIsPrefix(values: seq<Option<bool>>, i: nat, j: nat)
    requires i <= j < |values| && MapStickyValues(values)[j]
    ensures MapStickyValues(values)[i]
  {
  }

  /** The settings of each row or column level, read from the first configuration of a group. */
  function DimensionConfigs(attributes: seq<PivotAttribute>): (r: seq<DimensionConfig>)
    ensures |r| == |attributes|
    ensures forall i :: 0 <= i < |r| ==>
      r[i].showSums == Truthy(attributes[i].showSums) && r[i].sort == attributes[i].sort
      && r[i].expressions == OrEmpty(attributes[i].expressions)
    ensures forall i :: 0 <= i < |r| ==> (r[i].sticky <==> forall j :: 0 <= j <= i ==> Truthy(attributes[j].sticky))
  {
    var flags := seq(|attributes|, i requires 0 <= i < |attributes| => attributes[i].sticky);
    var sticky := MapStickyValues(flags);
    assert forall j :: 0 <= j < |attributes| ==> flags[j] == attributes[j].sticky;
    seq(|attributes|, i requires 0 <= i < |attributes| =>
      DimensionConfig(Truthy(attributes[i].showSums), sticky[i], attributes[i].sort, OrEmpty(attributes[i].expressions)))
  }

  /**
   * hasAdditionalColumnLevel: the value titles form a header level of their own when there are no
   * column attributes but some value, or column attributes and more than one value.
   */
  function HasAdditionalColumnLevel(columnLevels: nat, valueTitlesCount: nat): (r: bool)
    ensures r <==> (columnLevels == 0 && valueTitlesCount > 0) || (columnLevels > 0 && valueTitlesCount > 1)
  {
    (columnLevels == 0 && valueTitlesCount > 0) || (columnLevels > 0 && valueTitlesCount > 1)
  }

  // ---------------------------------------------------------------------------------------------
  // createValueTitle

  /** The characters String.prototype.trim removes: white space and line terminators. */
  predicate IsWhitespace(c: char)
  {
    || c == ' ' || c == '\t' || c == '\n' || c == '\r' || c == '\U{000B}' || c == '\U{000C}'
    || c == '\U{00A0}' || c == '\U{FEFF}' || c == '\U{1680}' || ('\U{2000}' <= c <= '\U{200A}')
    || c == '\U{2028}' || c == '\U{2029}' || c == '\U{202F}' || c == '\U{205F}' || c == '\U{3000}'
  }

  /** `s` without its leading white space. */
  function TrimStart(s: string): (r: string)
    ensures |r| <= |s| && r == s[|s| - |r|..]
    ensures forall i :: 0 <= i < |s| - |r| ==> IsWhitespace(s[i])
    ensures r == [] || !IsWhitespace(r[0])
  {
    if s != [] && IsWhitespace(s[0]) then TrimStart(s[1..]) else s
  }

  /** `s` without its trailing white space. */
  function TrimEnd(s: string): (r: string)
    ensures |r| <= |s| && r == s[..|r|]
    ensures forall i :: |r| <= i < |s| ==> IsWhitespace(s[i])
    ensures r == [] || !IsWhitespace(r[|r| - 1])
  {
    if s != [] && IsWhitespace(s[|s| - 1]) then TrimEnd(s[..|s| - 1]) else s
  }

  function Trim(s: string): string
  {
    TrimEnd(TrimStart(s))
  }

  /** No white space at either end. */
  predicate Trimmed(s: string)
  {
    s == [] || (!IsWhitespace(s[0]) && !IsWhitespace(s[|s| - 1]))
  }

  /** createValueTitle: the aggregation's title and the attribute's name, separated by a space and trimmed. */
  function CreateValueTitle(aggregationTitle: string, attributeName: string): (r: string)
    ensures Trimmed(r)
  {
    Trim(aggregationTitle + " " + attributeName)
  }

  /**
   * With trimmed parts, the title is exactly `aggregation name`, or the aggregation alone when the
   * attribute has no name.
   */
  lemma ValueTitleOfTrimmedParts(aggregationTitle: string, attributeName: string)
    requires aggregationTitle != [] && Trimmed(aggregationTitle) && Trimmed(attributeName)
    ensures CreateValueTitle(aggregationTitle, attributeName) ==
      if attributeName == [] then aggregationTitle else aggregationTitle + " " + attributeName
  {
    var s := aggregationTitle + " " + attributeName;
    assert s[0] == aggregationTitle[0];
    var t := TrimStart(s);
    assert t == s;
    if attributeName == [] {
      assert s == aggregationTitle + " ";
      assert s[..|s| - 1] == aggregationTitle;
      assert TrimEnd(s) == TrimEnd(aggregationTitle);
      assert TrimEnd(aggregationTitle) == aggregationTitle;
    } else {
      assert s[|s| - 1] == attributeName[|attributeName| - 1];
    }
  }

  // ---------------------------------------------------------------------------------------------
  // convertAggregatedData

  datatype PivotColors = PivotColors(rows: seq<Option<string>>, columns: seq<Option<string>>, values: seq<Option<string>>)

  /** The map the column headers are built from: the columns map when there are row levels. */
  function ColumnsSource(data: AggregatedData): Tree
  {
    if data.rowLevels > 0 then Map(data.columnsMap) else Map(data.dataMap)
  }

  /** A cell fillValues never writes: off the filled rows or off the column leaves. */
  predicate Unwritten(rowHeaders: seq<Header>, columnHeaders: seq<Header>, r: nat, c: nat)
  {
    (if |rowHeaders| > 0 then r !in TargetIndexesOf(rowHeaders) else r != 0) || c !in TargetIndexesOf(columnHeaders)
  }

  /** The header attribute shown above a row level, when that level asks for it. */
  function RowHeaderAttributes(names: seq<string>, showHeader: seq<Option<bool>>, colors: seq<Option<string>>): (r: seq<Option<HeaderAttribute>>)
    requires |names| == |showHeader|
    ensures |r| == |names|
    ensures forall i :: 0 <= i < |r| ==> (r[i].Some? <==> Truthy(showHeader[i]))
    ensures forall i :: 0 <= i < |r| && r[i].Some? ==> r[i].value.title == names[i]
  {
    seq(|names|, i requires 0 <= i < |names| => if Truthy(showHeader[i]) then Some(HeaderAttribute(names[i], At(colors, i))) else None)
  }

  /**
   * convertAggregatedData: builds the row and the column headers, sizes the matrix by the largest
   * target index of each, and fills it. Every leaf then points inside the matrix, and only cells at a
   * row leaf and a column leaf hold a value.
   */
  method ConvertAggregatedData(data: AggregatedData, valueResources: seq<ValueResource>, valueTitles: seq<string>,
                               valueTypes: seq<Option<ValueType>>, colors: PivotColors,
                               rowAttributes: seq<PivotAttribute>, rowAttributeNames: seq<string>,
                               columnAttributes: seq<PivotAttribute>)
    returns (stem: StemData)
    requires UniformDepth(Map(data.dataMap), data.rowLevels) && UniformDepth(ColumnsSource(data), data.columnLevels)
    requires |rowAttributeNames| == |rowAttributes|
    ensures |stem.values| > 0 && Fits(stem.values, |stem.values[0]|, stem.rowHeaders, stem.columnHeaders)
    ensures forall r, c ::
      (0 <= r < |stem.values| && 0 <= c < |stem.values[0]| &&
       (|valueResources| == 0 || Unwritten(stem.rowHeaders, stem.columnHeaders, r, c))) ==> stem.values[r][c].None?
    ensures data.rowLevels > 0 ==> TargetIndexesOf(stem.rowHeaders) == Range(0, |TargetIndexesOf(stem.rowHeaders)|)
    ensures data.columnLevels > 0 ==> TargetIndexesOf(stem.columnHeaders) == Range(0, |TargetIndexesOf(stem.columnHeaders)|)
    ensures data.rowLevels == 0 ==> stem.rowHeaders == []
    ensures data.columnLevels == 0 ==> stem.columnHeaders == ValueHeaders(valueTitles, colors.values, 0)
    ensures stem.valueTitles == valueTitles && stem.valueTypes == valueTypes
    ensures stem.rowsConfig == DimensionConfigs(rowAttributes) && stem.columnsConfig == DimensionConfigs(columnAttributes)
    ensures stem.rowHeaderAttributes ==
      RowHeaderAttributes(rowAttributeNames, seq(|rowAttributes|, i requires 0 <= i < |rowAttributes| => rowAttributes[i].showHeader), colors.rows)
    ensures stem.hasAdditionalColumnLevel == HasAdditionalColumnLevel(data.columnLevels, |valueTitles|)
    ensures |valueResources| > 0 && stem.rowHeaders != [] ==>
      forall a, b :: 0 <= a < |RowLeaves(stem.rowHeaders, Map(data.dataMap))| &&
                     0 <= b < |ColumnLeaves(stem.columnHeaders, RowLeaves(stem.rowHeaders, Map(data.dataMap))[a].rowMap)| ==>
        HoldsAggregate(stem.values, RowLeaves(stem.rowHeaders, Map(data.dataMap))[a],
                       ColumnLeaves(stem.columnHeaders, RowLeaves(stem.rowHeaders, Map(data.dataMap))[a].rowMap)[b], valueResources)
    ensures |valueResources| > 0 && stem.rowHeaders == [] ==>
      forall b :: 0 <= b < |ColumnLeaves(stem.columnHeaders, Map(data.dataMap))| ==>
        HoldsAggregate(stem.values, RowLeaf(0, Map(data.dataMap)), ColumnLeaves(stem.columnHeaders, Map(data.dataMap))[b], valueResources)
  {
    var rowHeaders, rowMax := BuildHeaders(Map(data.dataMap), data.rowLevels, colors.rows, colors.values, []);
    var columnHeaders, columnMax := BuildHeaders(ColumnsSource(data), data.columnLevels, colors.columns, colors.values, valueTitles);
    var width := columnMax + 1;
    var values := InitMatrix(rowMax + 1, width);
    assert Fits(values, width, rowHeaders, columnHeaders);
    if |valueResources| > 0 {
      var initial := values;
      values := FillValues(values, width, rowHeaders, columnHeaders, valueResources, data.dataMap);
      FilledOnlyAtLeaves(initial, width, rowHeaders, columnHeaders, valueResources, data.dataMap, values);
      FilledAtLeaves(initial, width, rowHeaders, columnHeaders, valueResources, data.dataMap, values);
    }
    stem := StemData(
      rowHeaders, columnHeaders,
      RowHeaderAttributes(rowAttributeNames, seq(|rowAttributes|, i requires 0 <= i < |rowAttributes| => rowAttributes[i].showHeader), colors.rows),
      valueTitles, values, valueTypes,
      DimensionConfigs(rowAttributes), DimensionConfigs(columnAttributes),
      HasAdditionalColumnLevel(data.columnLevels, |valueTitles|));
  }

  /** convertMapToPivotDataHeader with no extra offset: every target is at most the returned index. */
  method BuildHeaders(dataMap: Tree, levels: nat, colors: seq<Option<string>>, valueColors: seq<Option<string>>, valueTitles: seq<string>)
    returns (headers: seq<Header>, maxIndex: nat)
    requires UniformDepth(dataMap, levels)
    ensures forall t :: t in TargetIndexesOf(headers) ==> t <= maxIndex
    ensures Distinct(TargetIndexesOf(headers))
    ensures levels > 0 ==> TargetIndexesOf(headers) == Range(0, |TargetIndexesOf(headers)|)
    ensures levels == 0 ==> headers == ValueHeaders(valueTitles, valueColors, 0)
  {
    var m;
    headers, m := ConvertMapToPivotDataHeader(dataMap, levels, colors, valueColors, valueTitles, 0);
    if levels == 0 {
      ValueHeadersTargets(valueTitles, valueColors, 0);
    }
    maxIndex := m;
    BuiltTargetsAreDistinct(0, |TargetIndexesOf(headers)|);
  }

  /** After fillValues, the cell of every row leaf and column leaf pair holds that pair's aggregate; with no row headers, row 0 does. */
  lemma FilledAtLeaves(initial: seq<seq<Option<real>>>, width: nat, rowHeaders: seq<Header>, columnHeaders: seq<Header>,
                       valueResources: seq<ValueResource>, dataMap: seq<Entry>, values: seq<seq<Option<real>>>)
    requires Fits(initial, width, rowHeaders, columnHeaders) && |initial| > 0 && |valueResources| > 0
    requires Distinct(TargetIndexesOf(rowHeaders)) && Distinct(TargetIndexesOf(columnHeaders))
    requires |rowHeaders| > 0 ==> values == RowFill(initial, rowHeaders, columnHeaders, valueResources, Map(dataMap))
    requires |rowHeaders| == 0 ==>
      WithinRow(ColumnWrites(columnHeaders, Map(dataMap), valueResources), |initial[0]|) &&
      values == initial[0 := ApplyWrites(initial[0], ColumnWrites(columnHeaders, Map(dataMap), valueResources))]
    ensures rowHeaders != [] ==>
      forall a, b :: 0 <= a < |RowLeaves(rowHeaders, Map(dataMap))| &&
                     0 <= b < |ColumnLeaves(columnHeaders, RowLeaves(rowHeaders, Map(dataMap))[a].rowMap)| ==>
        HoldsAggregate(values, RowLeaves(rowHeaders, Map(dataMap))[a],
                       ColumnLeaves(columnHeaders, RowLeaves(rowHeaders, Map(dataMap))[a].rowMap)[b], valueResources)
    ensures rowHeaders == [] ==>
      forall b :: 0 <= b < |ColumnLeaves(columnHeaders, Map(dataMap))| ==>
        HoldsAggregate(values, RowLeaf(0, Map(dataMap)), ColumnLeaves(columnHeaders, Map(dataMap))[b], valueResources)
  {
    if rowHeaders != [] {
      forall a, b | 0 <= a < |RowLeaves(rowHeaders, Map(dataMap))| &&
                    0 <= b < |ColumnLeaves(columnHeaders, RowLeaves(rowHeaders, Map(dataMap))[a].rowMap)|
        ensures HoldsAggregate(values, RowLeaves(rowHeaders, Map(dataMap))[a],
                               ColumnLeaves(columnHeaders, RowLeaves(rowHeaders, Map(dataMap))[a].rowMap)[b], valueResources)
      {
        RowFillAtLeaves(initial, width, rowHeaders, columnHeaders, valueResources, Map(dataMap), a, b);
      }
    } else {
      forall b | 0 <= b < |ColumnLeaves(columnHeaders, Map(dataMap))|
        ensures HoldsAggregate(values, RowLeaf(0, Map(dataMap)), ColumnLeaves(columnHeaders, Map(dataMap))[b], valueResources)
      {
        LeafRowAtLeaves(initial[0], width, columnHeaders, valueResources, Map(dataMap), b);
      }
    }
  }

  /** Every cell of an all-undefined matrix is still undefined after fillValues unless it sits at a row leaf and a column leaf. */
  lemma FilledOnlyAtLeaves(initial: seq<seq<Option<real>>>, width: nat, rowHeaders: seq<Header>, columnHeaders: seq<Header>,
                           valueResources: seq<ValueResource>, dataMap: seq<Entry>, values: seq<seq<Option<real>>>)
    requires Fits(initial, width, rowHeaders, columnHeaders) && |initial| > 0
    requires forall r, c :: 0 <= r < |initial| && 0 <= c < width ==> initial[r][c].None?
    requires |rowHeaders| > 0 ==> values == RowFill(initial, rowHeaders, columnHeaders, valueResources, Map(dataMap))
    requires |rowHeaders| == 0 ==>
      WithinRow(ColumnWrites(columnHeaders, Map(dataMap), valueResources), |initial[0]|) &&
      values == initial[0 := ApplyWrites(initial[0], ColumnWrites(columnHeaders, Map(dataMap), valueResources))]
    ensures |values| == |initial| && Shaped(values, width)
    ensures forall r: int, c: int :: 0 <= r < |values| && 0 <= c < width && Unwritten(rowHeaders, columnHeaders, r, c) ==> values[r][c].None?
  {
    if |rowHeaders| > 0 {
      RowsFilledOnlyAtLeaves(initial, width, rowHeaders, columnHeaders, valueResources, dataMap);
    } else {
      ColumnsFilledOnlyAtLeaves(initial, width, columnHeaders, valueResources, dataMap);
    }
  }

  lemma RowsFilledOnlyAtLeaves(initial: seq<seq<Option<real>>>, width: nat, rowHeaders: seq<Header>, columnHeaders: seq<Header>,
                               valueResources: seq<ValueResource>, dataMap: seq<Entry>)
    requires Fits(initial, width, rowHeaders, columnHeaders) && |rowHeaders| > 0
    requires forall r, c :: 0 <= r < |initial| && 0 <= c < width ==> initial[r][c].None?
    ensures var values := RowFill(initial, rowHeaders, columnHeaders, valueResources, Map(dataMap));
      |values| == |initial| && Shaped(values, width) &&
      forall r: int, c: int :: 0 <= r < |values| && 0 <= c < width && Unwritten(rowHeaders, columnHeaders, r, c) ==> values[r][c].None?
  {
    var values: seq<seq<Option<real>>> := RowFill(initial, rowHeaders, columnHeaders, valueResources, Map(dataMap));
    RowFillShape(initial, width, rowHeaders, columnHeaders, valueResources, Map(dataMap));
    forall r: int, c: int | 0 <= r < |values| && 0 <= c < width && Unwritten(rowHeaders, columnHeaders, r, c)
      ensures values[r][c].None?
    {
      RowFillFrame(initial, width, rowHeaders, columnHeaders, valueResources, Map(dataMap), r, c);
    }
  }

  lemma ColumnsFilledOnlyAtLeaves(initial: seq<seq<Option<real>>>, width: nat, columnHeaders: seq<Header>,
                                  valueResources: seq<ValueResource>, dataMap: seq<Entry>)
    requires |initial| > 0 && Shaped(initial, width)
    requires forall r, c :: 0 <= r < |initial| && 0 <= c < width ==> initial[r][c].None?
    requires WithinRow(ColumnWrites(columnHeaders, Map(dataMap), valueResources), |initial[0]|)
    ensures var values := initial[0 := ApplyWrites(initial[0], ColumnWrites(columnHeaders, Map(dataMap), valueResources))];
      Shaped(values, width) &&
      forall r: int, c: int :: 0 <= r < |values| && 0 <= c < width && Unwritten([], columnHeaders, r, c) ==> values[r][c].None?
  {
    var writes := ColumnWrites(columnHeaders, Map(dataMap), valueResources);
    var values: seq<seq<Option<real>>> := initial[0 := ApplyWrites(initial[0], writes)];
    WrittenColumnsAreTargets(columnHeaders, Map(dataMap), valueResources);
    ApplyWritesFrame(initial[0], writes, 0);
    forall c: int | 0 <= c < width && c !in TargetIndexesOf(columnHeaders)
      ensures values[0][c].None?
    {
      ApplyWritesFrame(initial[0], writes, c);
    }
  }
}
