/**
 * The pivot model handed from the builder to the table converter (lmr-pivot-data.ts, as the two
 * converters actually use it): header trees whose leaves point into a `values[row][column]` matrix,
 * per-level dimension settings, and the header expressions.
 */
module PivotData {
  import opened Options
  import opened PivotConfig

  /** An operand once resolved against a sibling list: a header operand carries the matched headers. */
  datatype DataOperand =
    | DataHeaderOperand(pattern: string, headers: seq<Header>)
    | DataValueOperand(value: real)
    | DataExpressionOperand(expression: DataExpression)

  /** An expression attached to a header; `lastHeaderIndex` is the highest matched sibling, or -1. */
  datatype DataExpression = DataExpression(title: string, operation: Operation, lastHeaderIndex: int, operands: seq<DataOperand>)

  /**
   * A header of the row or column tree. A header whose `children` list is present (possibly empty)
   * is a `Group`; one without children is a `Leaf` pointing at a row or column of the values matrix.
   */
  datatype Header = Header(title: string, node: Node, color: Option<string>, isValueHeader: bool, expressions: seq<DataExpression>)

  datatype Node = Group(children: seq<Header>) | Leaf(targetIndex: nat)

  /** Settings of one row or column level. */
  datatype DimensionConfig = DimensionConfig(showSums: bool, sticky: bool, sort: Option<PivotSort>, expressions: seq<Expression>)

  datatype HeaderAttribute = HeaderAttribute(title: string, color: Option<string>)

  /** One stem's pivot model; `values` holds `None` for null, undefined or non-numeric entries. */
  datatype StemData = StemData(
    rowHeaders: seq<Header>,
    columnHeaders: seq<Header>,
    rowHeaderAttributes: seq<Option<HeaderAttribute>>,
    valueTitles: seq<string>,
    values: seq<seq<Option<real>>>,
    valueTypes: seq<Option<ValueType>>,
    rowsConfig: seq<DimensionConfig>,
    columnsConfig: seq<DimensionConfig>,
    hasAdditionalColumnLevel: bool)

  /** `matrix[row][column]`, reading as `None` outside the matrix. */
  function MatrixAt(matrix: seq<seq<Option<real>>>, row: int, column: int): Option<real>
  {
    if 0 <= row < |matrix| && 0 <= column < |matrix[row]| then matrix[row][column] else None
  }

  /** The `showSums` flags of a dimension, level by level. */
  function ShowSumsOf(configs: seq<DimensionConfig>): (r: seq<bool>)
    ensures |r| == |configs|
    ensures forall i :: 0 <= i < |r| ==> r[i] == configs[i].showSums
  {
    seq(|configs|, i requires 0 <= i < |configs| => configs[i].showSums)
  }
}
