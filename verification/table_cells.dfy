/**
 * The rendered pivot table (lmr-pivot-table.ts): a grid of cells, where a cell covered by a
 * neighbour's row or column span is absent (`None`, the JavaScript `undefined`).
 */
module TableCells {
  import opened Options

  /** What a cell displays: nothing, a text (titles, formatted values) or a number. */
  datatype CellValue = NoValue | Text(text: string) | Number(number: real)

  /**
   * A cell background: a colour as given, or a header colour lightened by `shadeColor` to the
   * opacity of its level, in percent.
   */
  datatype Background = Color(color: string) | Shade(color: string, opacityPercent: nat)

  /**
   * One table cell. The optional booleans of the source are plain booleans here: every reader
   * only tests them for truthiness, so `undefined` and `false` behave the same.
   */
  datatype Cell = Cell(
    value: CellValue,
    summary: Option<string>,
    rowSpan: int,
    colSpan: int,
    cssClass: string,
    isValue: bool,
    isHeader: bool,
    isAttributeHeader: bool,
    isSummary: bool,
    background: Option<Background>,
    stickyTop: bool,
    stickyStart: bool,
    rowIndexes: Option<seq<nat>>,
    childIndexes: Option<seq<nat>>,
    originalRowIndex: Option<int>)

  type Row = seq<Option<Cell>>

  type Grid = seq<Row>

  /** A plain cell with the given value, spans and class, every flag off and nothing optional set. */
  function PlainCell(value: CellValue, rowSpan: int, colSpan: int, cssClass: string): (c: Cell)
    ensures c.value == value && c.rowSpan == rowSpan && c.colSpan == colSpan && c.cssClass == cssClass
    ensures !c.isValue && !c.isHeader && !c.isAttributeHeader && !c.isSummary
    ensures c.rowIndexes.None? && c.childIndexes.None? && c.originalRowIndex.None?
  {
    Cell(value, None, rowSpan, colSpan, cssClass, false, false, false, false, None, false, false, None, None, None)
  }
}
