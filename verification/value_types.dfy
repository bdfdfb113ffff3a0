/**
 * Percentage value types (pivot-table-converter.ts: divideValues, getNumericValuesSummary,
 * getValuesTypeInfo, getValueTypeInfo, computeValuesByValueType). The matrix has one column per
 * (column header leaf, value) pair; column `c` belongs to value `c % numValues`.
 */
module ValueTypes {
  import opened Options
  import opened PivotConfig
  import opened PivotData
  import opened Expressions

  /**
   * divideValues: null for a missing value or divider, 0 for a zero divider, else the quotient,
   * which multiplied by the divider gives the value back.
   */
  function DivideValues(value: Option<real>, divider: Option<real>): (r: Option<real>)
    ensures r.Some? <==> value.Some? && divider.Some?
    ensures r.Some? && divider.value == 0.0 ==> r.value == 0.0
    ensures r.Some? && divider.value != 0.0 ==> r.value * divider.value == value.value
  {
    if value.None? then None
    else if divider.Some? then
      if divider.value != 0.0 then Some(value.value / divider.value) else Some(0.0)
    else None
  }

  /** getNumericValuesSummary: the sum of the numeric entries at rows × columns. */
  method GetNumericValuesSummary(values: seq<seq<Option<real>>>, rows: seq<nat>, columns: seq<nat>) returns (sum: real)
    ensures sum == GridSum(values, rows, columns)
  {
    sum := 0.0;
    var i := 0;
    while i < |rows|
      invariant 0 <= i <= |rows|
      invariant sum == GridSum(values, rows[..i], columns)
    {
      assert rows[..i + 1][..i] == rows[..i];
      var j := 0;
      while j < |columns|
        invariant 0 <= j <= |columns|
        invariant sum == GridSum(values, rows[..i], columns) + RowSum(values, rows[i], columns[..j])
      {
        assert columns[..j + 1][..j] == columns[..j];
        var value := MatrixAt(values, rows[i], columns[j]);
        if value.Some? {
          sum := sum + value.value;
        }
        j := j + 1;
      }
      assert columns[..j] == columns;
      i := i + 1;
    }
    assert rows[..i] == rows;
  }

  lemma {:induction false} GridSumSplitRows(values: seq<seq<Option<real>>>, r1: seq<nat>, r2: seq<nat>, columns: seq<nat>)
    ensures GridSum(values, r1 + r2, columns) == GridSum(values, r1, columns) + GridSum(values, r2, columns)
    decreases |r2|
  {
    if r2 == [] {
      assert r1 + r2 == r1;
    } else {
      var k := |r2| - 1;
      assert (r1 + r2)[..|r1 + r2| - 1] == r1 + r2[..k];
      GridSumSplitRows(values, r1, r2[..k], columns);
    }
  }

  // ---------------------------------------------------------------------------------------------
  // Value type information

  datatype ValueTypeInfo = ValueTypeInfo(sum: Option<real>, sumsRows: map<nat, real>, sumsColumns: map<nat, real>)

  function Lookup(m: map<nat, real>, k: nat): Option<real>
  {
    if k in m then Some(m[k]) else None
  }

  /** `valueTypes && valueTypes[i]` */
  function TypeAt(valueTypes: seq<Option<ValueType>>, i: nat): Option<ValueType>
  {
    if i < |valueTypes| then valueTypes[i] else None
  }

  predicate IsPercentage(t: Option<ValueType>)
  {
    t == Some(AllPercentage) || t == Some(RowPercentage) || t == Some(ColumnPercentage)
  }

  /** `(values[0] && values[0].length) || 0` */
  function ColumnsCount(values: seq<seq<Option<real>>>): nat
  {
    if values == [] then 0 else |values[0]|
  }

  /** Every row is as long as the first. */
  predicate Rectangular(values: seq<seq<Option<real>>>)
  {
    forall r :: 0 <= r < |values| ==> |values[r]| == ColumnsCount(values)
  }

  function AllRows(values: seq<seq<Option<real>>>): (r: seq<nat>)
    ensures |r| == |values| && forall i :: 0 <= i < |r| ==> r[i] == i
  {
    seq(|values|, i requires 0 <= i < |values| => i)
  }

  /** The matrix columns of value `i`, ascending. */
  function ClassColumns(columnsCount: nat, numValues: nat, i: nat): (r: seq<nat>)
    requires numValues > 0
    ensures forall c :: c in r <==> 0 <= c < columnsCount && c % numValues == i
    ensures forall a, b :: 0 <= a < b < |r| ==> r[a] < r[b]
  {
    if columnsCount == 0 then []
    else
      var last := columnsCount - 1;
      var front := ClassColumns(last, numValues, i);
      var tail := if last % numValues == i then [last] else [];
      assert forall a :: 0 <= a < |front| ==> front[a] < last by {
        forall a | 0 <= a < |front|
          ensures front[a] < last
        {
          assert front[a] in front;
        }
      }
      assert forall c :: c in front + tail <==> c in front || c in tail;
      front + tail
  }

  /** getValueTypeInfo: the denominators a percentage type needs, over the value's rows and columns. */
  function GetValueTypeInfo(values: seq<seq<Option<real>>>, t: Option<ValueType>, rows: seq<nat>, columns: seq<nat>): (r: ValueTypeInfo)
    ensures t == Some(AllPercentage) ==> r.sum == Some(GridSum(values, rows, columns))
    ensures t == Some(RowPercentage) ==>
      forall row :: row in rows ==> Lookup(r.sumsRows, row) == Some(GridSum(values, [row], columns))
    ensures t == Some(ColumnPercentage) ==>
      forall c :: c in columns ==> Lookup(r.sumsColumns, c) == Some(GridSum(values, rows, [c]))
  {
    match t
    case Some(AllPercentage) => ValueTypeInfo(Some(GridSum(values, rows, columns)), map[], map[])
    case Some(RowPercentage) => ValueTypeInfo(None, map row | row in rows :: GridSum(values, [row], columns), map[])
    case Some(ColumnPercentage) => ValueTypeInfo(None, map[], map c | c in columns :: GridSum(values, rows, [c]))
    case _ => ValueTypeInfo(None, map[], map[])
  }

  /** The information of value `i` as getValuesTypeInfo computes it. */
  function InfoFor(values: seq<seq<Option<real>>>, valueTypes: seq<Option<ValueType>>, numValues: nat, i: nat): ValueTypeInfo
    requires numValues > 0
  {
    GetValueTypeInfo(values, TypeAt(valueTypes, i), AllRows(values), ClassColumns(ColumnsCount(values), numValues, i))
  }

  /** getValuesTypeInfo: one entry per value. */
  method GetValuesTypeInfo(values: seq<seq<Option<real>>>, valueTypes: seq<Option<ValueType>>, numValues: nat)
    returns (infos: seq<ValueTypeInfo>)
    requires numValues > 0
    ensures |infos| == numValues
    ensures forall i :: 0 <= i < numValues ==> infos[i] == InfoFor(values, valueTypes, numValues, i)
  {
    infos := [];
    var i := 0;
    while i < numValues
      invariant 0 <= i <= numValues && |infos| == i
      invariant forall k :: 0 <= k < i ==> infos[k] == InfoFor(values, valueTypes, numValues, k)
    {
      infos := infos + [GetValueTypeInfo(values, TypeAt(valueTypes, i), AllRows(values), ClassColumns(ColumnsCount(values), numValues, i))];
      i := i + 1;
    }
  }

  /** The denominator a percentage cell is divided by. */
  function Denominator(t: Option<ValueType>, info: ValueTypeInfo, row: nat, column: nat): Option<real>
  {
    match t
    case Some(AllPercentage) => info.sum
    case Some(RowPercentage) => Lookup(info.sumsRows, row)
    case Some(ColumnPercentage) => Lookup(info.sumsColumns, column)
    case _ => None
  }

  /** The entry computeValuesByValueType leaves at (row, column). */
  function PercentCell(values: seq<seq<Option<real>>>, valueTypes: seq<Option<ValueType>>, numValues: nat,
                       infos: seq<ValueTypeInfo>, row: nat, column: nat): Option<real>
    requires numValues > 0 && |infos| >= numValues
    requires row < |values| && column < |values[row]|
  {
    var i := column % numValues;
    var t := TypeAt(valueTypes, i);
    if column < ColumnsCount(values) && IsPercentage(t) then DivideValues(values[row][column], Denominator(t, infos[i], row, column))
    else values[row][column]
  }

  predicate SameShape(a: seq<seq<Option<real>>>, b: seq<seq<Option<real>>>)
  {
    |a| == |b| && forall r :: 0 <= r < |a| ==> |a[r]| == |b[r]|
  }

  /** The entry at (r, c) once values `0..i-1` are done and, of value `i`, the rows `0..row-1`. */
  function Staged(values: seq<seq<Option<real>>>, valueTypes: seq<Option<ValueType>>, numValues: nat,
                  infos: seq<ValueTypeInfo>, i: nat, row: nat, r: nat, c: nat): Option<real>
    requires numValues > 0 && |infos| >= numValues
    requires r < |values| && c < |values[r]|
  {
    if c % numValues < i || (c % numValues == i && r < row) then PercentCell(values, valueTypes, numValues, infos, r, c)
    else values[r][c]
  }

  predicate StagedMatrix(modified: seq<seq<Option<real>>>, values: seq<seq<Option<real>>>, valueTypes: seq<Option<ValueType>>,
                         numValues: nat, infos: seq<ValueTypeInfo>, i: nat, row: nat)
    requires numValues > 0 && |infos| >= numValues
  {
    SameShape(modified, values)
    && forall r, c :: 0 <= r < |values| && 0 <= c < |values[r]| ==>
         modified[r][c] == Staged(values, valueTypes, numValues, infos, i, row, r, c)
  }

  /** The inner loop of computeValuesByValueType: divides the given columns of one row. */
  method DivideRow(current: seq<Option<real>>, original: seq<Option<real>>, columnIndexes: seq<nat>,
                   t: Option<ValueType>, info: ValueTypeInfo, row: nat)
    returns (next: seq<Option<real>>)
    requires |current| == |original|
    requires forall j :: 0 <= j < |columnIndexes| ==> columnIndexes[j] < |original|
    ensures |next| == |current|
    ensures forall c :: 0 <= c < |next| ==>
      next[c] == if c in columnIndexes then DivideValues(original[c], Denominator(t, info, row, c)) else current[c]
  {
    next := current;
    var j := 0;
    while j < |columnIndexes|
      invariant 0 <= j <= |columnIndexes| && |next| == |current|
      invariant forall c :: 0 <= c < |next| ==>
        next[c] == if c in columnIndexes[..j] then DivideValues(original[c], Denominator(t, info, row, c)) else current[c]
    {
      var column := columnIndexes[j];
      assert columnIndexes[..j + 1] == columnIndexes[..j] + [column];
      next := next[column := DivideValues(original[column], Denominator(t, info, row, column))];
      j := j + 1;
    }
    assert columnIndexes[..j] == columnIndexes;
  }

  /** Skipping a value that is not a percentage leaves the staged matrix as it is. */
  lemma SkipValue(modified: seq<seq<Option<real>>>, values: seq<seq<Option<real>>>, valueTypes: seq<Option<ValueType>>,
                  numValues: nat, infos: seq<ValueTypeInfo>, i: nat)
    requires numValues > 0 && |infos| >= numValues && i < numValues
    requires !IsPercentage(TypeAt(valueTypes, i))
    requires StagedMatrix(modified, values, valueTypes, numValues, infos, i, 0)
    ensures StagedMatrix(modified, values, valueTypes, numValues, infos, i + 1, 0)
  {
  }

  /** Finishing every row of value `i` is the start of value `i + 1`. */
  lemma NextValue(modified: seq<seq<Option<real>>>, values: seq<seq<Option<real>>>, valueTypes: seq<Option<ValueType>>,
                  numValues: nat, infos: seq<ValueTypeInfo>, i: nat)
    requires numValues > 0 && |infos| >= numValues
    requires StagedMatrix(modified, values, valueTypes, numValues, infos, i, |values|)
    ensures StagedMatrix(modified, values, valueTypes, numValues, infos, i + 1, 0)
  {
  }

  /** Dividing the columns of value `i` in row `row` advances the staged matrix by one row. */
  lemma NextRow(modified: seq<seq<Option<real>>>, values: seq<seq<Option<real>>>, valueTypes: seq<Option<ValueType>>,
                numValues: nat, infos: seq<ValueTypeInfo>, i: nat, row: nat, next: seq<Option<real>>)
    requires numValues > 0 && |infos| >= numValues && i < numValues && row < |values|
    requires Rectangular(values) && IsPercentage(TypeAt(valueTypes, i))
    requires StagedMatrix(modified, values, valueTypes, numValues, infos, i, row)
    requires |next| == |values[row]|
    requires forall c :: 0 <= c < |next| ==>
      next[c] == if c in ClassColumns(ColumnsCount(values), numValues, i)
                 then DivideValues(values[row][c], Denominator(TypeAt(valueTypes, i), infos[i], row, c)) else modified[row][c]
    ensures StagedMatrix(modified[row := next], values, valueTypes, numValues, infos, i, row + 1)
  {
    var m := modified[row := next];
    forall r, c | 0 <= r < |values| && 0 <= c < |values[r]|
      ensures m[r][c] == Staged(values, valueTypes, numValues, infos, i, row + 1, r, c)
    {
      if r == row {
        assert c < ColumnsCount(values);
      }
    }
  }

  /**
   * computeValuesByValueType: a copy of the matrix in which every column of a percentage value is
   * divided by the denominator its type selects; other columns are copied unchanged.
   */
  lemma ClassColumnsBelow(columnsCount: nat, numValues: nat, i: nat)
    requires numValues > 0
    ensures forall j :: 0 <= j < |ClassColumns(columnsCount, numValues, i)| ==> ClassColumns(columnsCount, numValues, i)[j] < columnsCount
  {
    var r := ClassColumns(columnsCount, numValues, i);
    forall j | 0 <= j < |r|
      ensures r[j] < columnsCount
    {
      assert r[j] in r;
    }
  }

  /** The row loop for one percentage value: each row's columns of that value divided. */
  method DivideValueColumns(modified: seq<seq<Option<real>>>, values: seq<seq<Option<real>>>, valueTypes: seq<Option<ValueType>>,
                            numValues: nat, infos: seq<ValueTypeInfo>, i: nat)
    returns (modified': seq<seq<Option<real>>>)
    requires numValues > 0 && |infos| >= numValues && i < numValues
    requires Rectangular(values) && IsPercentage(TypeAt(valueTypes, i))
    requires StagedMatrix(modified, values, valueTypes, numValues, infos, i, 0)
    ensures StagedMatrix(modified', values, valueTypes, numValues, infos, i + 1, 0)
  {
    var t := TypeAt(valueTypes, i);
    var columnIndexes := ClassColumns(ColumnsCount(values), numValues, i);
    ClassColumnsBelow(ColumnsCount(values), numValues, i);
    modified' := modified;
    var row := 0;
    while row < |values|
      invariant 0 <= row <= |values|
      invariant StagedMatrix(modified', values, valueTypes, numValues, infos, i, row)
    {
      assert |values[row]| == ColumnsCount(values);
      var next := DivideRow(modified'[row], values[row], columnIndexes, t, infos[i], row);
      NextRow(modified', values, valueTypes, numValues, infos, i, row, next);
      modified' := modified'[row := next];
      row := row + 1;
    }
    NextValue(modified', values, valueTypes, numValues, infos, i);
  }

  method ComputeValuesByValueType(values: seq<seq<Option<real>>>, valueTypes: seq<Option<ValueType>>, numValues: nat,
                                  infos: seq<ValueTypeInfo>)
    returns (modified: seq<seq<Option<real>>>)
    requires numValues > 0 && |infos| >= numValues
    requires Rectangular(values)
    ensures SameShape(modified, values)
    ensures forall r, c :: 0 <= r < |values| && 0 <= c < |values[r]| ==>
      modified[r][c] == PercentCell(values, valueTypes, numValues, infos, r, c)
  {
    modified := values;
    var i := 0;
    while i < numValues
      invariant 0 <= i <= numValues
      invariant StagedMatrix(modified, values, valueTypes, numValues, infos, i, 0)
    {
      var t := TypeAt(valueTypes, i);
      if IsPercentage(t) {
        modified := DivideValueColumns(modified, values, valueTypes, numValues, infos, i);
      } else {
        SkipValue(modified, values, valueTypes, numValues, infos, i);
      }
      i := i + 1;
    }
    assert StagedMatrix(modified, values, valueTypes, numValues, infos, numValues, 0);
  }

  // ---------------------------------------------------------------------------------------------
  // Percentages add up to one

  lemma DivisionDistributes(a: real, b: real, s: real)
    requires s != 0.0
    ensures a / s + b / s == (a + b) / s
  {
  }

  lemma SelfDivision(s: real)
    requires s != 0.0
    ensures s / s == 1.0
  {
  }

  lemma DividedNumber(x: Option<real>, s: real)
    requires s != 0.0
    ensures NumberOf(DivideValues(x, Some(s))) == NumberOf(x) / s
  {
  }

  /** Dividing every entry of a region by the same non-zero divider divides its sum by it. */
  lemma {:induction false} DividedRowSum(values: seq<seq<Option<real>>>, divided: seq<seq<Option<real>>>, row: nat,
                                         columns: seq<nat>, s: real)
    requires s != 0.0
    requires forall c :: c in columns ==> MatrixAt(divided, row, c) == DivideValues(MatrixAt(values, row, c), Some(s))
    ensures RowSum(divided, row, columns) == RowSum(values, row, columns) / s
  {
    if columns != [] {
      var k := |columns| - 1;
      var front := columns[..k];
      assert forall c :: c in front ==> c in columns;
      DividedRowSum(values, divided, row, front, s);
      var x := MatrixAt(values, row, columns[k]);
      DividedNumber(x, s);
      DivisionDistributes(RowSum(values, row, front), NumberOf(x), s);
    }
  }

  lemma {:induction false} DividedGridSum(values: seq<seq<Option<real>>>, divided: seq<seq<Option<real>>>,
                                          rows: seq<nat>, columns: seq<nat>, s: real)
    requires s != 0.0
    requires forall r, c :: r in rows && c in columns ==> MatrixAt(divided, r, c) == DivideValues(MatrixAt(values, r, c), Some(s))
    ensures GridSum(divided, rows, columns) == GridSum(values, rows, columns) / s
  {
    if rows != [] {
      var k := |rows| - 1;
      var front := rows[..k];
      assert forall r :: r in front ==> r in rows;
      DividedGridSum(values, divided, front, columns, s);
      DividedRowSum(values, divided, rows[k], columns, s);
      DivisionDistributes(GridSum(values, front, columns), RowSum(values, rows[k], columns), s);
    }
  }

  /** The entries of value `i` after computeValuesByValueType, given the information of value `i`. */
  predicate ComputedFor(values: seq<seq<Option<real>>>, valueTypes: seq<Option<ValueType>>, numValues: nat,
                        infos: seq<ValueTypeInfo>, modified: seq<seq<Option<real>>>, i: nat)
  {
    && numValues > 0 && i < numValues && |infos| >= numValues && Rectangular(values)
    && infos[i] == InfoFor(values, valueTypes, numValues, i)
    && SameShape(modified, values)
    && forall r, c :: 0 <= r < |values| && 0 <= c < |values[r]| ==>
         modified[r][c] == PercentCell(values, valueTypes, numValues, infos, r, c)
  }

  /** A column-percentage column sums to 1 when its original sum is non-zero. */
  lemma ColumnPercentagesSumToOne(values: seq<seq<Option<real>>>, valueTypes: seq<Option<ValueType>>, numValues: nat,
                                  infos: seq<ValueTypeInfo>, modified: seq<seq<Option<real>>>, i: nat, column: nat)
    requires ComputedFor(values, valueTypes, numValues, infos, modified, i)
    requires TypeAt(valueTypes, i) == Some(ColumnPercentage)
    requires column in ClassColumns(ColumnsCount(values), numValues, i)
    requires GridSum(values, AllRows(values), [column]) != 0.0
    ensures GridSum(modified, AllRows(values), [column]) == 1.0
  {
    var rows := AllRows(values);
    var s := GridSum(values, rows, [column]);
    var t := TypeAt(valueTypes, i);
    var info := infos[i];
    assert Lookup(info.sumsColumns, column) == Some(s);
    forall r, c | r in rows && c in [column]
      ensures MatrixAt(modified, r, c) == DivideValues(MatrixAt(values, r, c), Some(s))
    {
      assert c == column;
      assert r < |values| && column < |values[r]|;
      assert Denominator(t, info, r, column) == Some(s);
      assert modified[r][column] == PercentCell(values, valueTypes, numValues, infos, r, column);
    }
    DividedGridSum(values, modified, rows, [column], s);
    SelfDivision(s);
  }

  /** A row-percentage value sums to 1 along a row whose original sum is non-zero. */
  lemma RowPercentagesSumToOne(values: seq<seq<Option<real>>>, valueTypes: seq<Option<ValueType>>, numValues: nat,
                               infos: seq<ValueTypeInfo>, modified: seq<seq<Option<real>>>, i: nat, row: nat)
    requires ComputedFor(values, valueTypes, numValues, infos, modified, i)
    requires TypeAt(valueTypes, i) == Some(RowPercentage)
    requires row < |values|
    requires GridSum(values, [row], ClassColumns(ColumnsCount(values), numValues, i)) != 0.0
    ensures GridSum(modified, [row], ClassColumns(ColumnsCount(values), numValues, i)) == 1.0
  {
    var cols := ClassColumns(ColumnsCount(values), numValues, i);
    var s := GridSum(values, [row], cols);
    var t := TypeAt(valueTypes, i);
    var info := infos[i];
    assert AllRows(values)[row] == row;
    assert Lookup(info.sumsRows, row) == Some(s);
    assert |values[row]| == ColumnsCount(values);
    forall r, c | r in [row] && c in cols
      ensures MatrixAt(modified, r, c) == DivideValues(MatrixAt(values, r, c), Some(s))
    {
      assert r == row;
      assert c < ColumnsCount(values) && c % numValues == i;
      assert Denominator(t, info, row, c) == Some(s);
      assert modified[row][c] == PercentCell(values, valueTypes, numValues, infos, row, c);
    }
    DividedGridSum(values, modified, [row], cols, s);
    SelfDivision(s);
  }

  /** An all-percentage value sums to 1 over the whole matrix when its original sum is non-zero. */
  lemma AllPercentagesSumToOne(values: seq<seq<Option<real>>>, valueTypes: seq<Option<ValueType>>, numValues: nat,
                               infos: seq<ValueTypeInfo>, modified: seq<seq<Option<real>>>, i: nat)
    requires ComputedFor(values, valueTypes, numValues, infos, modified, i)
    requires TypeAt(valueTypes, i) == Some(AllPercentage)
    requires GridSum(values, AllRows(values), ClassColumns(ColumnsCount(values), numValues, i)) != 0.0
    ensures GridSum(modified, AllRows(values), ClassColumns(ColumnsCount(values), numValues, i)) == 1.0
  {
    var cols := ClassColumns(ColumnsCount(values), numValues, i);
    var rows := AllRows(values);
    var s := GridSum(values, rows, cols);
    var t := TypeAt(valueTypes, i);
    assert infos[i].sum == Some(s);
    forall r, c | r in rows && c in cols
      ensures MatrixAt(modified, r, c) == DivideValues(MatrixAt(values, r, c), Some(s))
    {
      assert r < |values| && c < |values[r]|;
      assert Denominator(t, infos[i], r, c) == Some(s);
      assert modified[r][c] == PercentCell(values, valueTypes, numValues, infos, r, c);
    }
    DividedGridSum(values, modified, rows, cols, s);
    SelfDivision(s);
  }
}
