/**
 * The geometry of the table the converter fills (pivot-table-converter.ts): the cells it writes,
 * the colours of subtotal levels, the shape of header trees it lays out, where every row and
 * column header cell lands, and how two states of the grid are compared.
 */
module GridLayout {
  import opened Options
  import opened PivotData
  import opened HeaderCounts
  import opened TableCells
  import HeaderBuilder

  // ---------------------------------------------------------------------------------------------
  // Classes and colours

  const EmptyClass: string := "pivot-empty-cell"
  const DataClass: string := "pivot-data-cell"
  const GroupDataClass: string := "pivot-data-group-cell"
  const RowHeaderClass: string := "pivot-row-header-cell"
  const RowGroupHeaderClass: string := "pivot-row-group-header-cell"
  const RowAttributeHeaderClass: string := "pivot-row-attribute-header-cell"
  const ColumnHeaderClass: string := "pivot-column-header-cell"
  const ColumnGroupHeaderClass: string := "pivot-column-group-header-cell"

  /** COLOR_GRAY100 to COLOR_GRAY500, the subtotal colours from the outermost level inwards. */
  const GroupColors: seq<string> := ["#f8f9fa", "#ecf0f1", "#dee2e6", "#ced4da", "#b4bcc2"]

  /** getSummaryBackground: the grey of a subtotal level; every level from the fifth on shares the darkest. */
  function SummaryBackground(level: nat): (r: string)
    ensures r in GroupColors
    ensures level < |GroupColors| ==> r == GroupColors[level]
    ensures level >= |GroupColors| ==> r == GroupColors[|GroupColors| - 1]
  {
    GroupColors[if level < |GroupColors| - 1 then level else |GroupColors| - 1]
  }

  /** The first five subtotal levels are told apart by their colour. */
  lemma SummaryLevelsDiffer(l1: nat, l2: nat)
    requires l1 < l2 < |GroupColors|
    ensures SummaryBackground(l1) != SummaryBackground(l2)
  {
  }

  /** getLevelOpacity, in percent: 50 at the top level, 5 more per level, at most 80. */
  function LevelOpacity(level: nat): (r: nat)
    ensures 50 <= r <= 80
    ensures level >= 6 ==> r == 80
  {
    if 50 + level * 5 < 80 then 50 + level * 5 else 80
  }

  /** Deeper header levels are never shaded less opaquely. */
  lemma OpacityGrowsWithLevel(l1: nat, l2: nat)
    requires l1 <= l2
    ensures LevelOpacity(l1) <= LevelOpacity(l2)
  {
  }

  /** getHeaderBackground: a header with a (non-empty) colour gets it shaded to its level's opacity. */
  function HeaderBackground(color: Option<string>, level: nat): (r: Option<Background>)
    ensures r.Some? <==> color.Some? && color.value != ""
    ensures r.Some? ==> r.value == Shade(color.value, LevelOpacity(level))
  {
    if color.Some? && color.value != "" then Some(Shade(color.value, LevelOpacity(level))) else None
  }

  /** `rowsConfig[level]?.sticky` */
  predicate RowSticky(configs: seq<DimensionConfig>, level: int)
  {
    0 <= level < |configs| && configs[level].sticky
  }

  /** isColumnLevelSticky: levels past the last column configuration read the last one. */
  predicate ColumnSticky(configs: seq<DimensionConfig>, level: nat)
  {
    |configs| > 0 && configs[if level < |configs| then level else |configs| - 1].sticky
  }

  // ---------------------------------------------------------------------------------------------
  // Cells

  /** A title shown by a cell; `undefined` shows nothing. */
  function TitleValue(title: Option<string>): CellValue
  {
    if title.Some? then Text(title.value) else NoValue
  }

  /** `isNotNullOrUndefined(v) ? String(v) : ''` with the value shown as it is. */
  function ValueOf(v: Option<real>): (r: CellValue)
    ensures v.None? ==> r == Text("")
    ensures v.Some? ==> r == Number(v.value)
  {
    if v.Some? then Number(v.value) else Text("")
  }

  /** A one-by-one value cell of a class, with an optional background. */
  function ValueCell(value: CellValue, cssClass: string, background: Option<Background>): (c: Cell)
    ensures c.isValue && c.rowSpan == 1 && c.colSpan == 1 && c.value == value
    ensures c.cssClass == cssClass && c.background == background && !c.isHeader && !c.isSummary
  {
    PlainCell(value, 1, 1, cssClass).(isValue := true, background := background)
  }

  /** The number of entries of a header cell's `childIndexes`: `header.children?.length || 1`. */
  function DirectChildren(h: Header): (r: nat)
    ensures r >= 1
    ensures h.node.Group? && |h.node.children| > 0 ==> r == |h.node.children|
  {
    if h.node.Group? && |h.node.children| > 0 then |h.node.children| else 1
  }

  /** The row header cell of `h` at grid row `row`. */
  function RowHeaderCell(h: Header, level: nat, row: nat, showSums: seq<bool>, sticky: bool): Cell
  {
    Cell(Text(h.title), None, DirectHeaderChildCount(h, level, showSums, 1), 1, RowHeaderClass,
         false, true, false, false, HeaderBackground(h.color, level), false, sticky,
         None, Some(HeaderBuilder.Range(row, row + DirectChildren(h))), None)
  }

  /** The column header cell of `h`. */
  function ColumnHeaderCell(h: Header, level: nat, showSums: seq<bool>, numberOfSums: nat, sticky: bool): Cell
  {
    Cell(Text(h.title), None, 1, DirectHeaderChildCount(h, level, showSums, numberOfSums), ColumnHeaderClass,
         false, true, false, false, HeaderBackground(h.color, level), sticky, false,
         None, None, None)
  }

  /** The summary cell splitRowGroupHeader leaves at the group's own column. */
  function GroupHeaderCell(title: Option<string>, summary: string, colSpan: int, background: string,
                           rowIndexes: seq<nat>, sticky: bool): Cell
  {
    Cell(TitleValue(title), Some(summary), 1, colSpan, RowGroupHeaderClass, false, false, false, true,
         Some(Color(background)), false, sticky, Some(rowIndexes), None, None)
  }

  /** The cell splitRowGroupHeader adds at the first non-sticky level. */
  function GroupHeaderTail(colSpan: int, background: string): Cell
  {
    Cell(NoValue, None, 1, colSpan, RowGroupHeaderClass, false, false, false, true,
         Some(Color(background)), false, false, None, None, None)
  }

  // ---------------------------------------------------------------------------------------------
  // Row and column group information

  /** HeaderGroupInfo: a subtotal or expression line, the lines it covers and its nesting level. */
  datatype GroupInfo = GroupInfo(background: string, indexes: seq<nat>, expression: Option<DataExpression>, level: nat)

  /** Group entries sit only at grid lines `lo` and beyond, and the array is no longer than `hi`. */
  predicate GroupsWithin(groups: seq<Option<GroupInfo>>, lo: nat, hi: nat)
  {
    |groups| <= hi && forall i :: 0 <= i < |groups| && groups[i].Some? ==> lo <= i
  }

  /** Recording a group at a line inside the bounds keeps the array inside them. */
  lemma PutWithin(groups: seq<Option<GroupInfo>>, lo: nat, hi: nat, line: nat, info: GroupInfo)
    requires GroupsWithin(groups, lo, hi) && lo <= line < hi
    ensures GroupsWithin(Put(groups, line, info), lo, hi)
  {
  }

  /** `array.findIndex(x => x === value)`: the first index holding `value`, or -1. */
  function FindIndex(t: seq<Option<nat>>, value: nat): (r: int)
    ensures -1 <= r < |t|
    ensures r >= 0 ==> t[r] == Some(value) && forall k :: 0 <= k < r ==> t[k] != Some(value)
    ensures r == -1 <==> forall k :: 0 <= k < |t| ==> t[k] != Some(value)
  {
    if t == [] then -1
    else if t[0] == Some(value) then 0
    else
      var rest := FindIndex(t[1..], value);
      assert forall k :: 1 <= k < |t| ==> t[k] == t[1..][k - 1];
      if rest < 0 then -1 else rest + 1
  }

  /** No two entries of a transformation array name the same grid line. */
  predicate Injective(t: seq<Option<nat>>)
  {
    forall k1, k2 :: 0 <= k1 < |t| && 0 <= k2 < |t| && t[k1].Some? && t[k1] == t[k2] ==> k1 == k2
  }

  /** Every defined entry lies in `lo..hi-1`. */
  predicate EntriesWithin(t: seq<Option<nat>>, lo: nat, hi: nat)
  {
    forall k :: 0 <= k < |t| && t[k].Some? ==> lo <= t[k].value < hi
  }

  /** Looking up a grid line of an injective array finds the one matrix line shown there. */
  lemma FindIndexInverts(t: seq<Option<nat>>, k: nat)
    requires Injective(t) && k < |t| && t[k].Some?
    ensures FindIndex(t, t[k].value) == k
  {
  }

  // ---------------------------------------------------------------------------------------------
  // Grids

  /** `cells[r][c]`, reading as `undefined` outside the grid. */
  function At(g: Grid, r: int, c: int): Option<Cell>
  {
    if 0 <= r < |g| && 0 <= c < |g[r]| then g[r][c] else None
  }

  predicate Dims(g: Grid, rows: nat, columns: nat)
  {
    |g| == rows && forall r :: 0 <= r < |g| ==> |g[r]| == columns
  }

  /** `cells[r][c] = x` */
  function Write(g: Grid, r: nat, c: nat, x: Cell): (g': Grid)
    requires r < |g| && c < |g[r]|
    ensures |g'| == |g| && forall i :: 0 <= i < |g| ==> |g'[i]| == |g[i]|
    ensures forall i, j :: At(g', i, j) == if i == r && j == c then Some(x) else At(g, i, j)
  {
    g[r := g[r][c := Some(x)]]
  }

  /** The grids agree on every cell of rows `r0..r1-1` and columns `c0..c1-1`. */
  predicate Kept(a: Grid, b: Grid, r0: int, r1: int, c0: int, c1: int)
  {
    forall r, c :: r0 <= r < r1 && c0 <= c < c1 ==> At(a, r, c) == At(b, r, c)
  }

  // ---------------------------------------------------------------------------------------------
  // Full header trees

  /**
   * The trees the builder produces for `levels` levels: every header sits above level `levels`,
   * leaves exactly on the last level, and no group is empty.
   */
  predicate Full(hs: seq<Header>, level: nat, levels: nat)
    decreases hs, 0
  {
    forall k :: 0 <= k < |hs| ==> HeaderFull(hs[k], level, levels)
  }

  predicate HeaderFull(h: Header, level: nat, levels: nat)
    decreases h, 1
  {
    match h.node
    case Leaf(_) => level + 1 == levels
    case Group(children) => level + 1 < levels && |children| > 0 && Full(children, level + 1, levels)
  }

  lemma FullPrefix(hs: seq<Header>, k: nat, level: nat, levels: nat)
    requires Full(hs, level, levels) && k <= |hs|
    ensures Full(hs[..k], level, levels)
  {
    assert forall i :: 0 <= i < k ==> hs[..k][i] == hs[i];
  }

  /** In a full tree every header spans a line of its own, so a sibling list spans at least one line per header. */
  lemma {:induction false} FullCounts(hs: seq<Header>, level: nat, levels: nat, showSums: seq<bool>, numberOfSums: nat)
    requires Full(hs, level, levels)
    ensures ChildrenCount(hs, level, showSums, numberOfSums) >= |hs|
    decreases hs, 0
  {
    if hs != [] {
      var k := |hs| - 1;
      FullPrefix(hs, k, level, levels);
      FullCounts(hs[..k], level, levels, showSums, numberOfSums);
      HeaderFullCounts(hs[k], level, levels, showSums, numberOfSums);
    }
  }

  lemma {:induction false} HeaderFullCounts(h: Header, level: nat, levels: nat, showSums: seq<bool>, numberOfSums: nat)
    requires HeaderFull(h, level, levels)
    ensures DirectHeaderChildCount(h, level, showSums, numberOfSums) >= 1
    ensures HeaderChildCount(h, level, showSums, numberOfSums) >= 1
    decreases h, 1
  {
    match h.node
    case Leaf(_) =>
    case Group(children) =>
      FullCounts(children, level + 1, levels, showSums, numberOfSums);
  }

  /** The lines of a prefix of a sibling list are among the lines of the list. */
  lemma PrefixCount(hs: seq<Header>, i: nat, level: nat, showSums: seq<bool>, numberOfSums: nat)
    requires i <= |hs|
    ensures ChildrenCount(hs[..i], level, showSums, numberOfSums) <= ChildrenCount(hs, level, showSums, numberOfSums)
  {
    assert hs == hs[..i] + hs[i..];
    ChildrenCountConcat(hs[..i], hs[i..], level, showSums, numberOfSums);
  }

  /** A header cell spans no more lines than the header reserves. */
  lemma DirectWithinSpan(h: Header, level: nat, showSums: seq<bool>, numberOfSums: nat)
    ensures DirectHeaderChildCount(h, level, showSums, numberOfSums) <= HeaderChildCount(h, level, showSums, numberOfSums)
  {
  }

  // ---------------------------------------------------------------------------------------------
  // Where header cells land

  /**
   * Every header of the list, and every header below it, has its row header cell at its own first
   * line: the list starts at grid row `start`, and each header follows the lines of the headers
   * before it.
   */
  predicate RowHeadersPlaced(g: Grid, hs: seq<Header>, start: nat, level: nat, showSums: seq<bool>, configs: seq<DimensionConfig>)
    decreases hs, 0
  {
    hs == [] ||
    (var k := |hs| - 1;
     RowHeadersPlaced(g, hs[..k], start, level, showSums, configs)
     && RowHeaderPlaced(g, hs[k], start + ChildrenCount(hs[..k], level, showSums, 1), level, showSums, configs))
  }

  predicate RowHeaderPlaced(g: Grid, h: Header, row: nat, level: nat, showSums: seq<bool>, configs: seq<DimensionConfig>)
    decreases h, 1
  {
    At(g, row, level) == Some(RowHeaderCell(h, level, row, showSums, RowSticky(configs, level)))
    && (h.node.Group? ==> RowHeadersPlaced(g, h.node.children, row, level + 1, showSums, configs))
  }

  /** Row header cells stay where they are while the rows their tree spans keep their first `levels` columns. */
  lemma {:induction false} RowHeadersStay(a: Grid, b: Grid, hs: seq<Header>, start: nat, level: nat, levels: nat,
                                          showSums: seq<bool>, configs: seq<DimensionConfig>)
    requires Full(hs, level, levels)
    requires Kept(a, b, start, start + ChildrenCount(hs, level, showSums, 1), 0, levels)
    requires RowHeadersPlaced(a, hs, start, level, showSums, configs)
    ensures RowHeadersPlaced(b, hs, start, level, showSums, configs)
    decreases hs, 0
  {
    if hs != [] {
      var k := |hs| - 1;
      FullPrefix(hs, k, level, levels);
      RowHeadersStay(a, b, hs[..k], start, level, levels, showSums, configs);
      DirectWithinSpan(hs[k], level, showSums, 1);
      RowHeaderStays(a, b, hs[k], start + ChildrenCount(hs[..k], level, showSums, 1), level, levels, showSums, configs);
    }
  }

  lemma {:induction false} RowHeaderStays(a: Grid, b: Grid, h: Header, row: nat, level: nat, levels: nat,
                                          showSums: seq<bool>, configs: seq<DimensionConfig>)
    requires HeaderFull(h, level, levels)
    requires Kept(a, b, row, row + DirectHeaderChildCount(h, level, showSums, 1), 0, levels)
    requires RowHeaderPlaced(a, h, row, level, showSums, configs)
    ensures RowHeaderPlaced(b, h, row, level, showSums, configs)
    decreases h, 1
  {
    HeaderFullCounts(h, level, levels, showSums, 1);
    assert At(a, row, level) == At(b, row, level);
    match h.node
    case Leaf(_) =>
    case Group(children) =>
      RowHeadersStay(a, b, children, row, level + 1, levels, showSums, configs);
  }

  /**
   * Every header of the list, and every header below it, has its column header cell in grid row
   * `level`, at its own first column.
   */
  predicate ColumnHeadersPlaced(g: Grid, hs: seq<Header>, start: nat, level: nat, showSums: seq<bool>,
                                numberOfSums: nat, configs: seq<DimensionConfig>)
    decreases hs, 0
  {
    hs == [] ||
    (var k := |hs| - 1;
     ColumnHeadersPlaced(g, hs[..k], start, level, showSums, numberOfSums, configs)
     && ColumnHeaderPlaced(g, hs[k], start + ChildrenCount(hs[..k], level, showSums, numberOfSums), level, showSums, numberOfSums, configs))
  }

  predicate ColumnHeaderPlaced(g: Grid, h: Header, column: nat, level: nat, showSums: seq<bool>,
                               numberOfSums: nat, configs: seq<DimensionConfig>)
    decreases h, 1
  {
    At(g, level, column) == Some(ColumnHeaderCell(h, level, showSums, numberOfSums, ColumnSticky(configs, level)))
    && (h.node.Group? ==> ColumnHeadersPlaced(g, h.node.children, column, level + 1, showSums, numberOfSums, configs))
  }

  /** Column header cells stay where they are while the columns their tree spans keep their first `levels` rows. */
  lemma {:induction false} ColumnHeadersStay(a: Grid, b: Grid, hs: seq<Header>, start: nat, level: nat, levels: nat,
                                             showSums: seq<bool>, numberOfSums: nat, configs: seq<DimensionConfig>)
    requires Full(hs, level, levels)
    requires Kept(a, b, 0, levels, start, start + ChildrenCount(hs, level, showSums, numberOfSums))
    requires ColumnHeadersPlaced(a, hs, start, level, showSums, numberOfSums, configs)
    ensures ColumnHeadersPlaced(b, hs, start, level, showSums, numberOfSums, configs)
    decreases hs, 0
  {
    if hs != [] {
      var k := |hs| - 1;
      FullPrefix(hs, k, level, levels);
      ColumnHeadersStay(a, b, hs[..k], start, level, levels, showSums, numberOfSums, configs);
      DirectWithinSpan(hs[k], level, showSums, numberOfSums);
      ColumnHeaderStays(a, b, hs[k], start + ChildrenCount(hs[..k], level, showSums, numberOfSums), level, levels,
                        showSums, numberOfSums, configs);
    }
  }

  lemma {:induction false} ColumnHeaderStays(a: Grid, b: Grid, h: Header, column: nat, level: nat, levels: nat,
                                             showSums: seq<bool>, numberOfSums: nat, configs: seq<DimensionConfig>)
    requires HeaderFull(h, level, levels)
    requires Kept(a, b, 0, levels, column, column + DirectHeaderChildCount(h, level, showSums, numberOfSums))
    requires ColumnHeaderPlaced(a, h, column, level, showSums, numberOfSums, configs)
    ensures ColumnHeaderPlaced(b, h, column, level, showSums, numberOfSums, configs)
    decreases h, 1
  {
    HeaderFullCounts(h, level, levels, showSums, numberOfSums);
    assert At(a, level, column) == At(b, level, column);
    match h.node
    case Leaf(_) =>
    case Group(children) =>
      ColumnHeadersStay(a, b, children, column, level + 1, levels, showSums, numberOfSums, configs);
  }

  /** Placing the next header of a list extends the placed prefix by one. */
  lemma RowHeadersPlacedAppend(g: Grid, hs: seq<Header>, i: nat, start: nat, level: nat, showSums: seq<bool>, configs: seq<DimensionConfig>)
    requires i < |hs|
    requires RowHeadersPlaced(g, hs[..i], start, level, showSums, configs)
    requires RowHeaderPlaced(g, hs[i], start + ChildrenCount(hs[..i], level, showSums, 1), level, showSums, configs)
    ensures RowHeadersPlaced(g, hs[..i + 1], start, level, showSums, configs)
  {
    assert hs[..i + 1][..i] == hs[..i];
  }

  lemma ColumnHeadersPlacedAppend(g: Grid, hs: seq<Header>, i: nat, start: nat, level: nat, showSums: seq<bool>,
                                  numberOfSums: nat, configs: seq<DimensionConfig>)
    requires i < |hs|
    requires ColumnHeadersPlaced(g, hs[..i], start, level, showSums, numberOfSums, configs)
    requires ColumnHeaderPlaced(g, hs[i], start + ChildrenCount(hs[..i], level, showSums, numberOfSums), level, showSums, numberOfSums, configs)
    ensures ColumnHeadersPlaced(g, hs[..i + 1], start, level, showSums, numberOfSums, configs)
  {
    assert hs[..i + 1][..i] == hs[..i];
  }
}
