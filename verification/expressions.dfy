/**
 * Header expressions (pivot-table-converter.ts): resolving a configured expression against a
 * sibling list (extendPivotExpression), attaching expressions to headers level by level
 * (fillExpressionsToHeaders), and evaluating them (evaluateExpression, evaluateOperand).
 */
module Expressions {
  import opened Options
  import opened PivotConfig
  import opened PivotData
  import opened HeaderCounts

  // ---------------------------------------------------------------------------------------------
  // Matching header operands

  /**
   * Whether a header-operand pattern matches a title. The source builds a regular expression from
   * the pattern; the model reads the pattern literally and looks for it as a substring.
   */
  predicate Matches(pattern: string, title: string)
    decreases |title|
  {
    |pattern| <= |title| && (title[..|pattern|] == pattern || Matches(pattern, title[1..]))
  }

  /** getOperandIndexesInHeaders: the sibling positions whose title the pattern matches, ascending. */
  function OperandIndexesInHeaders(pattern: string, headers: seq<Header>): (r: seq<nat>)
    ensures forall i :: i in r <==> 0 <= i < |headers| && Matches(pattern, headers[i].title)
    ensures forall j :: 0 <= j < |r| ==> r[j] < |headers|
    ensures forall a, b :: 0 <= a < b < |r| ==> r[a] < r[b]
  {
    if headers == [] then []
    else
      var k := |headers| - 1;
      var front := OperandIndexesInHeaders(pattern, headers[..k]);
      assert forall i :: 0 <= i < k ==> headers[..k][i] == headers[i];
      assert forall a :: 0 <= a < |front| ==> front[a] < k;
      front + (if Matches(pattern, headers[k].title) then [k] else [])
  }

  /** `Math.max(acc, ...xs)` */
  function MaxOf(acc: int, xs: seq<nat>): (r: int)
    ensures r >= acc && forall i :: 0 <= i < |xs| ==> r >= xs[i]
    ensures r == acc || exists i :: 0 <= i < |xs| && r == xs[i]
  {
    if xs == [] then acc
    else
      var m := MaxOf(acc, xs[..|xs| - 1]);
      if xs[|xs| - 1] > m then xs[|xs| - 1] else m
  }

  /** `indexes.map(index => headers[index])` */
  function Pick(headers: seq<Header>, indexes: seq<nat>): (r: seq<Header>)
    requires forall i :: 0 <= i < |indexes| ==> indexes[i] < |headers|
    ensures |r| == |indexes| && forall i :: 0 <= i < |r| ==> r[i] == headers[indexes[i]]
  {
    seq(|indexes|, i requires 0 <= i < |indexes| => headers[indexes[i]])
  }

  /** Whether some header operand of the list, nested ones included, matches sibling `i`. */
  predicate AnyReferences(ops: seq<Operand>, headers: seq<Header>, i: nat)
    decreases ops, 1
  {
    ops != [] && (AnyReferences(ops[..|ops| - 1], headers, i) || OperandReferences(ops[|ops| - 1], headers, i))
  }

  predicate OperandReferences(op: Operand, headers: seq<Header>, i: nat)
    decreases op, 0
  {
    match op
    case HeaderOperand(pattern) => i < |headers| && Matches(pattern, headers[i].title)
    case ValueOperand(_) => false
    case ExpressionOperand(e) => AnyReferences(e.operands, headers, i)
  }

  // ---------------------------------------------------------------------------------------------
  // extendPivotExpression, corrected: nested expressions keep their own operation

  /** The resolved operands and the running `lastHeaderIndex` after a left-to-right traversal. */
  datatype Extension = Extension(operands: seq<DataOperand>, lastHeaderIndex: int)

  function ExtendOperand(op: Operand, headers: seq<Header>): (r: Extension)
    ensures |r.operands| == 1
    ensures r.lastHeaderIndex >= -1
    ensures r.lastHeaderIndex >= 0 ==> r.lastHeaderIndex < |headers| && OperandReferences(op, headers, r.lastHeaderIndex)
    ensures forall i: nat :: OperandReferences(op, headers, i) ==> i <= r.lastHeaderIndex
    decreases op, 1
  {
    match op
    case HeaderOperand(pattern) =>
      var indexes := OperandIndexesInHeaders(pattern, headers);
      var last := MaxOf(-1, indexes);
      Extension([DataHeaderOperand(pattern, Pick(headers, indexes))], last)
    case ValueOperand(v) => Extension([DataValueOperand(v)], -1)
    case ExpressionOperand(e) =>
      var x := ExtendOperands(e.operands, headers);
      Extension([DataExpressionOperand(DataExpression(e.title, e.operation, x.lastHeaderIndex, x.operands))], x.lastHeaderIndex)
  }

  function ExtendOperands(ops: seq<Operand>, headers: seq<Header>): (r: Extension)
    ensures |r.operands| == |ops|
    ensures r.lastHeaderIndex >= -1
    ensures r.lastHeaderIndex >= 0 ==> r.lastHeaderIndex < |headers| && AnyReferences(ops, headers, r.lastHeaderIndex)
    ensures forall i: nat :: AnyReferences(ops, headers, i) ==> i <= r.lastHeaderIndex
    decreases ops, 0
  {
    if ops == [] then Extension([], -1)
    else
      var front := ExtendOperands(ops[..|ops| - 1], headers);
      var last := ExtendOperand(ops[|ops| - 1], headers);
      Extension(front.operands + last.operands,
                if last.lastHeaderIndex > front.lastHeaderIndex then last.lastHeaderIndex else front.lastHeaderIndex)
  }

  /**
   * extendPivotExpression with nesting kept: the expression is attached after the highest sibling
   * any of its header operands (nested ones included) matches, or dropped (-1) when none matches.
   */
  function ExtendExpression(e: Expression, headers: seq<Header>): (r: DataExpression)
    ensures r.title == e.title && r.operation == e.operation && |r.operands| == |e.operands|
    ensures r.lastHeaderIndex >= 0 ==> r.lastHeaderIndex < |headers| && AnyReferences(e.operands, headers, r.lastHeaderIndex)
    ensures forall i: nat :: AnyReferences(e.operands, headers, i) ==> i <= r.lastHeaderIndex
    ensures r.lastHeaderIndex >= -1
  {
    var x := ExtendOperands(e.operands, headers);
    DataExpression(e.title, e.operation, x.lastHeaderIndex, x.operands)
  }

  /** An expression is dropped (index -1) exactly when none of its header operands matches a sibling. */
  lemma DroppedIffNothingMatches(e: Expression, headers: seq<Header>)
    ensures ExtendExpression(e, headers).lastHeaderIndex == -1 ==> forall i: nat :: !AnyReferences(e.operands, headers, i)
    ensures (forall i: nat :: !AnyReferences(e.operands, headers, i)) ==> ExtendExpression(e, headers).lastHeaderIndex == -1
  {
    var last := ExtendExpression(e, headers).lastHeaderIndex;
    if last >= 0 {
      var j: nat := last;
      assert AnyReferences(e.operands, headers, j);
      assert !(forall i: nat :: !AnyReferences(e.operands, headers, i));
    } else {
      assert last == -1;
    }
  }

  // ---------------------------------------------------------------------------------------------
  // extendPivotExpression as written: nested operands are spliced into the parent's list

  function FlattenOperand(op: Operand, headers: seq<Header>): (r: Extension)
    ensures r.lastHeaderIndex >= -1
    ensures r.lastHeaderIndex >= 0 ==> r.lastHeaderIndex < |headers| && OperandReferences(op, headers, r.lastHeaderIndex)
    ensures forall i: nat :: OperandReferences(op, headers, i) ==> i <= r.lastHeaderIndex
    ensures forall k :: 0 <= k < |r.operands| ==> !r.operands[k].DataExpressionOperand?
    decreases op, 1
  {
    match op
    case HeaderOperand(pattern) =>
      var indexes := OperandIndexesInHeaders(pattern, headers);
      Extension([DataHeaderOperand(pattern, Pick(headers, indexes))], MaxOf(-1, indexes))
    case ValueOperand(v) => Extension([DataValueOperand(v)], -1)
    case ExpressionOperand(e) => FlattenOperands(e.operands, headers)
  }

  function FlattenOperands(ops: seq<Operand>, headers: seq<Header>): (r: Extension)
    ensures r.lastHeaderIndex >= -1
    ensures r.lastHeaderIndex >= 0 ==> r.lastHeaderIndex < |headers| && AnyReferences(ops, headers, r.lastHeaderIndex)
    ensures forall i: nat :: AnyReferences(ops, headers, i) ==> i <= r.lastHeaderIndex
    ensures forall k :: 0 <= k < |r.operands| ==> !r.operands[k].DataExpressionOperand?
    decreases ops, 0
  {
    if ops == [] then Extension([], -1)
    else
      var front := FlattenOperands(ops[..|ops| - 1], headers);
      var last := FlattenOperand(ops[|ops| - 1], headers);
      Extension(front.operands + last.operands,
                if last.lastHeaderIndex > front.lastHeaderIndex then last.lastHeaderIndex else front.lastHeaderIndex)
  }

  /** The source's extendPivotExpression: the result carries no nested expression operand. */
  function ExtendExpressionAsWritten(e: Expression, headers: seq<Header>): (r: DataExpression)
    ensures r.title == e.title && r.operation == e.operation
    ensures r.lastHeaderIndex >= 0 ==> r.lastHeaderIndex < |headers| && AnyReferences(e.operands, headers, r.lastHeaderIndex)
    ensures forall i: nat :: AnyReferences(e.operands, headers, i) ==> i <= r.lastHeaderIndex
    ensures r.lastHeaderIndex >= -1
    ensures forall k :: 0 <= k < |r.operands| ==> !r.operands[k].DataExpressionOperand?
  {
    var x := FlattenOperands(e.operands, headers);
    DataExpression(e.title, e.operation, x.lastHeaderIndex, x.operands)
  }

  // ---------------------------------------------------------------------------------------------
  // fillExpressionsToHeaders

  /** The resolved expressions of a level that land on sibling `i`, in configuration order. */
  function AttachedAt(expressions: seq<Expression>, headers: seq<Header>, i: nat): seq<DataExpression>
  {
    if expressions == [] then []
    else
      var k := |expressions| - 1;
      var x := ExtendExpression(expressions[k], headers);
      AttachedAt(expressions[..k], headers, i) + (if x.lastHeaderIndex == i then [x] else [])
  }

  /** The loop over a level's expressions, applied to the copy `current` of the sibling list `headers`. */
  function AttachAll(current: seq<Header>, headers: seq<Header>, expressions: seq<Expression>): (r: seq<Header>)
    requires |current| == |headers|
    ensures |r| == |current|
    ensures forall i :: 0 <= i < |r| ==>
      r[i] == current[i].(expressions := current[i].expressions + AttachedAt(expressions, headers, i))
  {
    if expressions == [] then
      assert forall i :: 0 <= i < |current| ==> current[i].(expressions := current[i].expressions + []) == current[i];
      current
    else
      var k := |expressions| - 1;
      var before := AttachAll(current, headers, expressions[..k]);
      var x := ExtendExpression(expressions[k], headers);
      if x.lastHeaderIndex >= 0 then
        var last := x.lastHeaderIndex;
        before[last := before[last].(expressions := before[last].expressions + [x])]
      else before
  }

  function ChildrenOrEmpty(h: Header): seq<Header>
  {
    if h.node.Group? then h.node.children else []
  }

  /**
   * fillExpressionsToHeaders. When the next level has a configuration, every header's children are
   * filled in turn; a leaf then gets an empty children list, as `{...header, children: [...]}` does.
   */
  function FillExpressionsToHeaders(headers: seq<Header>, configs: seq<DimensionConfig>, index: nat): (r: seq<Header>)
    ensures |r| == |headers|
    ensures forall i :: 0 <= i < |r| ==> r[i].title == headers[i].title && r[i].color == headers[i].color
                                         && r[i].isValueHeader == headers[i].isValueHeader
    ensures forall i :: 0 <= i < |r| ==>
      r[i].expressions == headers[i].expressions
                          + AttachedAt(if index < |configs| then configs[index].expressions else [], headers, i)
    ensures index + 1 >= |configs| ==> forall i :: 0 <= i < |r| ==> r[i].node == headers[i].node
    ensures index + 1 < |configs| ==> forall i :: 0 <= i < |r| ==>
      r[i].node == Group(FillExpressionsToHeaders(ChildrenOrEmpty(headers[i]), configs, index + 1))
    decreases |configs| - index
  {
    var expressions := if index < |configs| then configs[index].expressions else [];
    var attached := AttachAll(headers, headers, expressions);
    if index + 1 < |configs| then
      seq(|attached|, i requires 0 <= i < |attached| =>
        attached[i].(node := Group(FillExpressionsToHeaders(ChildrenOrEmpty(attached[i]), configs, index + 1))))
    else attached
  }

  // ---------------------------------------------------------------------------------------------
  // Evaluation

  /** The evaluation of an operand or expression over some matrix columns. */
  datatype Evaluation = Evaluation(value: real, indexes: seq<nat>)

  /** The raw matrix and the rows' transformation array an evaluation reads. */
  datatype Source = Source(values: seq<seq<Option<real>>>, rowsTransformation: seq<Option<nat>>)

  function NumberOf(v: Option<real>): real
  {
    if v.Some? then v.value else 0.0
  }

  /** The Sum aggregation of `values[row][column]` over one row and some columns, skipping nulls. */
  function RowSum(values: seq<seq<Option<real>>>, row: int, columns: seq<nat>): real
  {
    if columns == [] then 0.0
    else RowSum(values, row, columns[..|columns| - 1]) + NumberOf(MatrixAt(values, row, columns[|columns| - 1]))
  }

  /** The Sum aggregation over all rows × columns, skipping nulls. */
  function GridSum(values: seq<seq<Option<real>>>, rows: seq<nat>, columns: seq<nat>): real
  {
    if rows == [] then 0.0
    else GridSum(values, rows[..|rows| - 1], columns) + RowSum(values, rows[|rows| - 1], columns)
  }

  /** transformRowIndexes: the grid rows of some matrix rows, skipping rows that have none. */
  function TransformIndexes(transformation: seq<Option<nat>>, indexes: seq<nat>): (r: seq<nat>)
    ensures forall x :: x in r <==> exists i :: 0 <= i < |indexes| && indexes[i] < |transformation|
                                               && transformation[indexes[i]] == Some(x)
  {
    if indexes == [] then []
    else
      var k := |indexes| - 1;
      var t := indexes[k];
      TransformIndexes(transformation, indexes[..k])
      + (if t < |transformation| && transformation[t].Some? then [transformation[t].value] else [])
  }

  /** One step of the reduce in evaluateExpression: `acc` is the running value, `index` the operand's position. */
  function Step(operation: Operation, acc: real, v: real, index: nat): real
  {
    match operation
    case Add => acc + v
    case Subtract => if index == 0 then v else acc - v
    case Multiply => if index == 0 then v else acc * v
    case Divide => if index == 0 then v else if v != 0.0 then acc / v else acc
  }

  function EvaluateOperand(op: DataOperand, src: Source, columns: seq<nat>): Evaluation
    decreases op, 2
  {
    match op
    case DataValueOperand(v) => Evaluation(v, [])
    case DataHeaderOperand(_, headers) =>
      var rows := TargetIndexesForHeaders(headers);
      Evaluation(GridSum(src.values, rows, columns), TransformIndexes(src.rowsTransformation, rows))
    case DataExpressionOperand(e) => EvaluateExpression(e, src, columns)
  }

  function EvaluateExpression(e: DataExpression, src: Source, columns: seq<nat>): Evaluation
    decreases e, 1
  {
    FoldOperands(e.operands, e.operation, src, columns)
  }

  /** The reduce over the operands, from `{value: 0, indexes: []}`. */
  function FoldOperands(ops: seq<DataOperand>, operation: Operation, src: Source, columns: seq<nat>): Evaluation
    decreases ops, 0
  {
    if ops == [] then Evaluation(0.0, [])
    else
      var k := |ops| - 1;
      var acc := FoldOperands(ops[..k], operation, src, columns);
      var x := EvaluateOperand(ops[k], src, columns);
      Evaluation(Step(operation, acc.value, x.value, k), acc.indexes + x.indexes)
  }

  /** The operand values of a list, in order. */
  function OperandValues(ops: seq<DataOperand>, src: Source, columns: seq<nat>): (r: seq<real>)
    ensures |r| == |ops|
    ensures forall k :: 0 <= k < |r| ==> r[k] == EvaluateOperand(ops[k], src, columns).value
  {
    seq(|ops|, k requires 0 <= k < |ops| => EvaluateOperand(ops[k], src, columns).value)
  }

  function SumOf(xs: seq<real>): real
  {
    if xs == [] then 0.0 else SumOf(xs[..|xs| - 1]) + xs[|xs| - 1]
  }

  function ProductOf(xs: seq<real>): real
  {
    if xs == [] then 1.0 else ProductOf(xs[..|xs| - 1]) * xs[|xs| - 1]
  }

  /** The product of the non-zero elements: what a divide expression divides by. */
  function NonZeroProductOf(xs: seq<real>): (r: real)
    ensures r != 0.0
  {
    if xs == [] then 1.0
    else if xs[|xs| - 1] == 0.0 then NonZeroProductOf(xs[..|xs| - 1])
    else NonZeroProductOf(xs[..|xs| - 1]) * xs[|xs| - 1]
  }

  /** The fold written with closed forms: what each operation computes from its operand values. */
  function Closed(operation: Operation, vs: seq<real>): real
  {
    if vs == [] then 0.0
    else
      match operation
      case Add => SumOf(vs)
      case Subtract => vs[0] - SumOf(vs[1..])
      case Multiply => vs[0] * ProductOf(vs[1..])
      case Divide => vs[0] / NonZeroProductOf(vs[1..])
  }

  lemma SumOfSplit(vs: seq<real>)
    requires vs != []
    ensures SumOf(vs) == vs[0] + SumOf(vs[1..])
  {
    if |vs| > 1 {
      var k := |vs| - 1;
      SumOfSplit(vs[..k]);
      assert vs[..k][1..] == vs[1..][..k - 1];
    }
  }

  lemma {:induction false} ClosedStep(operation: Operation, vs: seq<real>, v: real)
    requires vs != []
    ensures Closed(operation, vs + [v]) == Step(operation, Closed(operation, vs), v, |vs|)
  {
    var ws := vs + [v];
    assert ws[1..] == vs[1..] + [v];
    assert ws[1..][..|ws[1..]| - 1] == vs[1..];
    assert ws[0] == vs[0];
    match operation {
      case Add =>
        assert ws[..|ws| - 1] == vs;
      case Subtract =>
      case Multiply =>
      case Divide =>
        var p := NonZeroProductOf(vs[1..]);
        if v != 0.0 {
          assert NonZeroProductOf(ws[1..]) == p * v;
          assert vs[0] / (p * v) == (vs[0] / p) / v;
        }
    }
  }

  /**
   * The fold semantics of evaluateExpression: `add` sums every operand from 0; `subtract`,
   * `multiply` and `divide` start from the first operand and fold the rest left to right, a zero
   * divisor leaving the running value unchanged. An expression without operands is 0.
   */
  lemma {:induction false} FoldIsClosedForm(ops: seq<DataOperand>, operation: Operation, src: Source, columns: seq<nat>)
    ensures FoldOperands(ops, operation, src, columns).value == Closed(operation, OperandValues(ops, src, columns))
  {
    if ops != [] {
      var k := |ops| - 1;
      FoldIsClosedForm(ops[..k], operation, src, columns);
      var vs := OperandValues(ops[..k], src, columns);
      var v := EvaluateOperand(ops[k], src, columns).value;
      OperandValuesStep(ops, src, columns);
      assert FoldOperands(ops, operation, src, columns).value
          == Step(operation, FoldOperands(ops[..k], operation, src, columns).value, v, k);
      if k == 0 {
        ClosedOfOne(operation, v);
      } else {
        ClosedStep(operation, vs, v);
      }
    }
  }

  lemma OperandValuesStep(ops: seq<DataOperand>, src: Source, columns: seq<nat>)
    requires ops != []
    ensures OperandValues(ops, src, columns)
         == OperandValues(ops[..|ops| - 1], src, columns) + [EvaluateOperand(ops[|ops| - 1], src, columns).value]
  {
  }

  /** A single operand: the fold's first step from 0. */
  lemma ClosedOfOne(operation: Operation, v: real)
    ensures Closed(operation, [v]) == Step(operation, 0.0, v, 0)
  {
    assert [v][1..] == [];
    assert SumOf([v]) == v + SumOf([]);
  }

  /** Row indexes an evaluation reports: those of its header operands, in operand order. */
  lemma {:induction false} FoldIndexes(ops: seq<DataOperand>, operation: Operation, src: Source, columns: seq<nat>)
    ensures FoldOperands(ops, operation, src, columns).indexes
            == Flatten(seq(|ops|, k requires 0 <= k < |ops| => EvaluateOperand(ops[k], src, columns).indexes))
  {
    if ops != [] {
      var k := |ops| - 1;
      FoldIndexes(ops[..k], operation, src, columns);
      var parts := seq(|ops|, i requires 0 <= i < |ops| => EvaluateOperand(ops[i], src, columns).indexes);
      assert parts[..k] == seq(k, i requires 0 <= i < k => EvaluateOperand(ops[..k][i], src, columns).indexes);
    }
  }

  function Flatten(xss: seq<seq<nat>>): seq<nat>
  {
    if xss == [] then [] else Flatten(xss[..|xss| - 1]) + xss[|xss| - 1]
  }

  // ---------------------------------------------------------------------------------------------
  // The flattening finding

  /** `add(1, multiply(2, 3))` */
  function NestedExample(): Expression
  {
    Expression("e", Add, [ValueOperand(1.0), ExpressionOperand(Expression("m", Multiply, [ValueOperand(2.0), ValueOperand(3.0)]))])
  }

  lemma ValueOperandsExtend(a: real, b: real, headers: seq<Header>)
    ensures ExtendOperands([ValueOperand(a), ValueOperand(b)], headers) == Extension([DataValueOperand(a), DataValueOperand(b)], -1)
    ensures FlattenOperands([ValueOperand(a), ValueOperand(b)], headers) == Extension([DataValueOperand(a), DataValueOperand(b)], -1)
  {
    var ops := [ValueOperand(a), ValueOperand(b)];
    assert ops[..1] == [ValueOperand(a)] && ops[..1][..0] == [];
    assert ExtendOperand(ValueOperand(a), headers) == Extension([DataValueOperand(a)], -1);
    assert ExtendOperand(ValueOperand(b), headers) == Extension([DataValueOperand(b)], -1);
    assert ExtendOperands([ValueOperand(a)], headers) == Extension([] + [DataValueOperand(a)], -1);
    assert FlattenOperand(ValueOperand(a), headers) == Extension([DataValueOperand(a)], -1);
    assert FlattenOperand(ValueOperand(b), headers) == Extension([DataValueOperand(b)], -1);
    assert FlattenOperands([ValueOperand(a)], headers) == Extension([] + [DataValueOperand(a)], -1);
    assert [DataValueOperand(a)] + [DataValueOperand(b)] == [DataValueOperand(a), DataValueOperand(b)];
  }

  lemma ValueFold(operation: Operation, vs: seq<real>, src: Source, columns: seq<nat>)
    ensures FoldOperands(seq(|vs|, k requires 0 <= k < |vs| => DataValueOperand(vs[k])), operation, src, columns).value
            == Closed(operation, vs)
  {
    var ops := seq(|vs|, k requires 0 <= k < |vs| => DataValueOperand(vs[k]));
    FoldIsClosedForm(ops, operation, src, columns);
    assert OperandValues(ops, src, columns) == vs;
  }

  /** `multiply(2, 3)` with its operands resolved. */
  function MultiplyExample(): DataExpression
  {
    DataExpression("m", Multiply, -1, [DataValueOperand(2.0), DataValueOperand(3.0)])
  }

  lemma AsWrittenExample(headers: seq<Header>)
    ensures ExtendExpressionAsWritten(NestedExample(), headers)
         == DataExpression("e", Add, -1, [DataValueOperand(1.0), DataValueOperand(2.0), DataValueOperand(3.0)])
  {
    var inner := Expression("m", Multiply, [ValueOperand(2.0), ValueOperand(3.0)]);
    var outer := [ValueOperand(1.0), ExpressionOperand(inner)];
    assert outer[..1] == [ValueOperand(1.0)] && outer[..1][..0] == [];
    ValueOperandsExtend(2.0, 3.0, headers);
    assert FlattenOperand(ValueOperand(1.0), headers) == Extension([DataValueOperand(1.0)], -1);
    assert FlattenOperands([ValueOperand(1.0)], headers) == Extension([] + [DataValueOperand(1.0)], -1);
    assert FlattenOperand(ExpressionOperand(inner), headers) == Extension([DataValueOperand(2.0), DataValueOperand(3.0)], -1);
    assert [DataValueOperand(1.0)] + [DataValueOperand(2.0), DataValueOperand(3.0)]
        == [DataValueOperand(1.0), DataValueOperand(2.0), DataValueOperand(3.0)];
  }

  lemma CorrectedExample(headers: seq<Header>)
    ensures ExtendExpression(NestedExample(), headers)
         == DataExpression("e", Add, -1, [DataValueOperand(1.0), DataExpressionOperand(MultiplyExample())])
  {
    var inner := Expression("m", Multiply, [ValueOperand(2.0), ValueOperand(3.0)]);
    ValueOperandsExtend(2.0, 3.0, headers);
    var m := ExtendOperand(ExpressionOperand(inner), headers);
    assert m == Extension([DataExpressionOperand(MultiplyExample())], -1);
    ExtendOperandsPair(ValueOperand(1.0), ExpressionOperand(inner), headers);
    assert ExtendOperand(ValueOperand(1.0), headers) == Extension([DataValueOperand(1.0)], -1);
  }

  /** Extending a two-operand list: both extensions side by side, the larger header index. */
  lemma ExtendOperandsPair(a: Operand, b: Operand, headers: seq<Header>)
    ensures var x, y := ExtendOperand(a, headers), ExtendOperand(b, headers);
      ExtendOperands([a, b], headers)
      == Extension(x.operands + y.operands, if y.lastHeaderIndex > x.lastHeaderIndex then y.lastHeaderIndex else x.lastHeaderIndex)
  {
    assert [a, b][..1] == [a] && [a][..0] == [];
    assert ExtendOperands([a], headers) == Extension([] + ExtendOperand(a, headers).operands, ExtendOperand(a, headers).lastHeaderIndex);
  }

  lemma FlatExampleValue(src: Source, columns: seq<nat>)
    ensures EvaluateExpression(DataExpression("e", Add, -1, [DataValueOperand(1.0), DataValueOperand(2.0), DataValueOperand(3.0)]),
                               src, columns).value == 6.0
  {
    var vs := [1.0, 2.0, 3.0];
    var ops := [DataValueOperand(1.0), DataValueOperand(2.0), DataValueOperand(3.0)];
    assert ops == seq(3, k requires 0 <= k < 3 => DataValueOperand(vs[k]));
    ValueFold(Add, vs, src, columns);
    assert vs[..2] == [1.0, 2.0] && vs[..2][..1] == [1.0] && vs[..2][..1][..0] == [];
    assert SumOf([1.0]) == 1.0 && SumOf([1.0, 2.0]) == 3.0;
    assert Closed(Add, vs) == 6.0;
  }

  lemma NestedExampleValue(src: Source, columns: seq<nat>)
    ensures EvaluateExpression(DataExpression("e", Add, -1, [DataValueOperand(1.0), DataExpressionOperand(MultiplyExample())]),
                               src, columns).value == 7.0
  {
    var m := MultiplyExample();
    ValueFold(Multiply, [2.0, 3.0], src, columns);
    assert m.operands == seq(2, k requires 0 <= k < 2 => DataValueOperand([2.0, 3.0][k]));
    assert [2.0, 3.0][1..] == [3.0] && [3.0][..0] == [];
    assert EvaluateExpression(m, src, columns).value == 6.0;
    var ops := [DataValueOperand(1.0), DataExpressionOperand(m)];
    assert ops[..1] == [DataValueOperand(1.0)] && ops[..1][..0] == [];
    assert FoldOperands([DataValueOperand(1.0)], Add, src, columns).value == 1.0;
    assert EvaluateOperand(DataExpressionOperand(m), src, columns).value == 6.0;
  }

  /**
   * Flattening loses the nested operation: the source evaluates `add(1, multiply(2, 3))` to 6,
   * while keeping the nesting evaluates it to 7.
   */
  lemma FlatteningLosesNestedOperation(headers: seq<Header>, src: Source, columns: seq<nat>)
    ensures EvaluateExpression(ExtendExpressionAsWritten(NestedExample(), headers), src, columns).value == 6.0
    ensures EvaluateExpression(ExtendExpression(NestedExample(), headers), src, columns).value == 7.0
  {
    AsWrittenExample(headers);
    FlatExampleValue(src, columns);
    CorrectedExample(headers);
    NestedExampleValue(src, columns);
  }
}
