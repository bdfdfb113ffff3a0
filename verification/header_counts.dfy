/**
 * How many grid lines each header reserves (pivot-table-converter.ts, getHeaderChildCount and
 * friends), the layout of those lines, and the leaf target indexes under a header.
 */
module HeaderCounts {
  import opened Options
  import opened PivotData

  /** `showSums[level]`, false past the end. */
  predicate ShowSum(showSums: seq<bool>, level: nat)
  {
    level < |showSums| && showSums[level]
  }

  /** Lines reserved for the subtotals closing a sibling list at `level`. */
  function SumLines(showSums: seq<bool>, level: nat, numberOfSums: nat): nat
  {
    if ShowSum(showSums, level) then numberOfSums else 0
  }

  /** The lines a header at `level` reserves: its leaves, nested subtotals and expression lines. */
  function HeaderChildCount(h: Header, level: nat, showSums: seq<bool>, numberOfSums: nat): nat
  {
    match h.node
    case Leaf(_) => 1 + |h.expressions|
    case Group(children) =>
      ChildrenCount(children, level + 1, showSums, numberOfSums)
      + SumLines(showSums, level + 1, numberOfSums) + |h.expressions|
  }

  /** The sum of `HeaderChildCount` over a sibling list. */
  function ChildrenCount(hs: seq<Header>, level: nat, showSums: seq<bool>, numberOfSums: nat): nat
  {
    if hs == [] then 0
    else ChildrenCount(hs[..|hs| - 1], level, showSums, numberOfSums)
         + HeaderChildCount(hs[|hs| - 1], level, showSums, numberOfSums)
  }

  /** The span of a header cell: its children's lines without its own subtotal and expressions. */
  function DirectHeaderChildCount(h: Header, level: nat, showSums: seq<bool>, numberOfSums: nat): (r: nat)
    ensures h.node.Leaf? ==> r == 1
    ensures h.node.Group? ==> r + SumLines(showSums, level + 1, numberOfSums) + |h.expressions|
                              == HeaderChildCount(h, level, showSums, numberOfSums)
  {
    match h.node
    case Leaf(_) => 1
    case Group(children) => ChildrenCount(children, level + 1, showSums, numberOfSums)
  }

  /** All lines of a top-level sibling list, the grand total included. */
  function HeadersChildCount(hs: seq<Header>, showSums: seq<bool>, numberOfSums: nat): (r: nat)
    ensures r == SumLines(showSums, 0, numberOfSums) + ChildrenCount(hs, 0, showSums, numberOfSums)
    ensures ShowSum(showSums, 0) ==> r >= numberOfSums
  {
    SumLines(showSums, 0, numberOfSums) + ChildrenCount(hs, 0, showSums, numberOfSums)
  }

  lemma ChildrenCountAppend(hs: seq<Header>, h: Header, level: nat, showSums: seq<bool>, numberOfSums: nat)
    ensures ChildrenCount(hs + [h], level, showSums, numberOfSums)
            == ChildrenCount(hs, level, showSums, numberOfSums) + HeaderChildCount(h, level, showSums, numberOfSums)
  {
    assert (hs + [h])[..|hs + [h]| - 1] == hs;
  }

  lemma {:induction false} ChildrenCountConcat(a: seq<Header>, b: seq<Header>, level: nat, showSums: seq<bool>, numberOfSums: nat)
    ensures ChildrenCount(a + b, level, showSums, numberOfSums)
            == ChildrenCount(a, level, showSums, numberOfSums) + ChildrenCount(b, level, showSums, numberOfSums)
    decreases |b|
  {
    if b == [] {
      assert a + b == a;
    } else {
      var b' := b[..|b| - 1];
      ChildrenCountConcat(a, b', level, showSums, numberOfSums);
      assert (a + b)[..|a + b| - 1] == a + b';
      assert (a + b)[|a + b| - 1] == b[|b| - 1];
    }
  }

  lemma ChildrenCountPrefix(hs: seq<Header>, i: nat, level: nat, showSums: seq<bool>, numberOfSums: nat)
    requires i < |hs|
    ensures ChildrenCount(hs[..i + 1], level, showSums, numberOfSums)
            == ChildrenCount(hs[..i], level, showSums, numberOfSums) + HeaderChildCount(hs[i], level, showSums, numberOfSums)
  {
    assert hs[..i + 1] == hs[..i] + [hs[i]];
    ChildrenCountAppend(hs[..i], hs[i], level, showSums, numberOfSums);
  }

  // ---------------------------------------------------------------------------------------------
  // Target indexes

  /** The leaf target indexes under a header, in visit order. */
  function TargetIndexesForHeader(h: Header): seq<nat>
  {
    match h.node
    case Leaf(t) => [t]
    case Group(children) => TargetIndexesOf(children)
  }

  function TargetIndexesOf(hs: seq<Header>): seq<nat>
  {
    if hs == [] then [] else TargetIndexesOf(hs[..|hs| - 1]) + TargetIndexesForHeader(hs[|hs| - 1])
  }

  /** The targets of one member of a list are targets of the list. */
  lemma {:induction false} TargetsOfMember(hs: seq<Header>, i: nat)
    requires i < |hs|
    ensures forall t :: t in TargetIndexesForHeader(hs[i]) ==> t in TargetIndexesOf(hs)
  {
    var k := |hs| - 1;
    if i < k {
      TargetsOfMember(hs[..k], i);
      assert hs[..k][i] == hs[i];
    }
  }

  /** The targets of the first `i + 1` members of a list: those of the first `i`, then member `i`'s. */
  lemma TargetsStep(hs: seq<Header>, i: nat)
    requires i < |hs|
    ensures TargetIndexesOf(hs[..i + 1]) == TargetIndexesOf(hs[..i]) + TargetIndexesForHeader(hs[i])
  {
    assert hs[..i + 1][..i] == hs[..i];
  }

  /** Drops repeated elements, keeping each first occurrence in place. */
  function UniqueValues(xs: seq<nat>): (r: seq<nat>)
    ensures forall x :: x in r <==> x in xs
    ensures forall i, j :: 0 <= i < j < |r| ==> r[i] != r[j]
  {
    if xs == [] then []
    else
      var front := UniqueValues(xs[..|xs| - 1]);
      if xs[|xs| - 1] in front then front else front + [xs[|xs| - 1]]
  }

  lemma UniqueValuesOfDistinct(xs: seq<nat>)
    requires forall i, j :: 0 <= i < j < |xs| ==> xs[i] != xs[j]
    ensures UniqueValues(xs) == xs
  {
    if xs != [] {
      UniqueValuesOfDistinct(xs[..|xs| - 1]);
    }
  }

  /** getTargetIndexesForHeaders: every leaf target under the list, once each. */
  function TargetIndexesForHeaders(hs: seq<Header>): (r: seq<nat>)
    ensures forall t :: t in r <==> t in TargetIndexesOf(hs)
    ensures forall i, j :: 0 <= i < j < |r| ==> r[i] != r[j]
  {
    UniqueValues(TargetIndexesOf(hs))
  }

  // ---------------------------------------------------------------------------------------------
  // The layout of the reserved lines

  /** What occupies one reserved grid line. */
  datatype Line = LeafLine(target: nat) | SumLine(level: nat) | ExpressionLine(title: string)

  function SumLinesAt(showSums: seq<bool>, level: nat, numberOfSums: nat): (r: seq<Line>)
    ensures |r| == SumLines(showSums, level, numberOfSums)
    ensures forall k :: 0 <= k < |r| ==> r[k] == SumLine(level)
  {
    seq(SumLines(showSums, level, numberOfSums), _ => SumLine(level))
  }

  function ExpressionLines(es: seq<DataExpression>): (r: seq<Line>)
    ensures |r| == |es|
    ensures forall k :: 0 <= k < |r| ==> r[k] == ExpressionLine(es[k].title)
  {
    seq(|es|, k requires 0 <= k < |es| => ExpressionLine(es[k].title))
  }

  /**
   * The lines a header reserves, top to bottom (rows) or left to right (columns): the lines of its
   * children, then the subtotals closing its children, then one line per own expression.
   */
  function HeaderLines(h: Header, level: nat, showSums: seq<bool>, numberOfSums: nat): seq<Line>
  {
    match h.node
    case Leaf(t) => [LeafLine(t)] + ExpressionLines(h.expressions)
    case Group(children) =>
      ChildrenLines(children, level + 1, showSums, numberOfSums)
      + SumLinesAt(showSums, level + 1, numberOfSums) + ExpressionLines(h.expressions)
  }

  function ChildrenLines(hs: seq<Header>, level: nat, showSums: seq<bool>, numberOfSums: nat): seq<Line>
  {
    if hs == [] then []
    else ChildrenLines(hs[..|hs| - 1], level, showSums, numberOfSums)
         + HeaderLines(hs[|hs| - 1], level, showSums, numberOfSums)
  }

  /** Keeps the targets of the leaf lines. */
  function LeafTargets(lines: seq<Line>): seq<nat>
  {
    if lines == [] then []
    else LeafTargets(lines[..|lines| - 1]) + (if lines[|lines| - 1].LeafLine? then [lines[|lines| - 1].target] else [])
  }

  lemma LeafTargetsConcat(a: seq<Line>, b: seq<Line>)
    ensures LeafTargets(a + b) == LeafTargets(a) + LeafTargets(b)
    decreases |b|
  {
    if b == [] {
      assert a + b == a;
    } else {
      assert a + b == (a + b[..|b| - 1]) + [b[|b| - 1]];
      LeafTargetsConcat(a, b[..|b| - 1]);
    }
  }

  lemma LeafTargetsOfNonLeaves(lines: seq<Line>)
    requires forall k :: 0 <= k < |lines| ==> !lines[k].LeafLine?
    ensures LeafTargets(lines) == []
  {
  }

  /**
   * The count of a header is the length of its layout, and the leaf lines of the layout are exactly
   * its leaf targets in visit order: every other reserved line is a subtotal or an expression line.
   */
  lemma {:induction false} HeaderLinesMatchCount(h: Header, level: nat, showSums: seq<bool>, numberOfSums: nat)
    ensures |HeaderLines(h, level, showSums, numberOfSums)| == HeaderChildCount(h, level, showSums, numberOfSums)
    ensures LeafTargets(HeaderLines(h, level, showSums, numberOfSums)) == TargetIndexesForHeader(h)
    decreases h, 1
  {
    match h.node
    case Leaf(t) =>
      LeafTargetsOfNonLeaves(ExpressionLines(h.expressions));
      LeafTargetsConcat([LeafLine(t)], ExpressionLines(h.expressions));
      assert LeafTargets([LeafLine(t)]) == [t] by {
        assert [LeafLine(t)][..0] == [];
      }
    case Group(children) =>
      ChildrenLinesMatchCount(children, level + 1, showSums, numberOfSums);
      var a := ChildrenLines(children, level + 1, showSums, numberOfSums);
      var b := SumLinesAt(showSums, level + 1, numberOfSums);
      var c := ExpressionLines(h.expressions);
      LeafTargetsOfNonLeaves(b);
      LeafTargetsOfNonLeaves(c);
      LeafTargetsConcat(a + b, c);
      LeafTargetsConcat(a, b);
  }

  lemma {:induction false} ChildrenLinesMatchCount(hs: seq<Header>, level: nat, showSums: seq<bool>, numberOfSums: nat)
    ensures |ChildrenLines(hs, level, showSums, numberOfSums)| == ChildrenCount(hs, level, showSums, numberOfSums)
    ensures LeafTargets(ChildrenLines(hs, level, showSums, numberOfSums)) == TargetIndexesOf(hs)
    decreases hs, 0
  {
    if hs != [] {
      ChildrenLinesMatchCount(hs[..|hs| - 1], level, showSums, numberOfSums);
      HeaderLinesMatchCount(hs[|hs| - 1], level, showSums, numberOfSums);
      LeafTargetsConcat(ChildrenLines(hs[..|hs| - 1], level, showSums, numberOfSums),
                        HeaderLines(hs[|hs| - 1], level, showSums, numberOfSums));
    }
  }

  /** With no subtotals and no expressions, a header reserves exactly one line per leaf. */
  lemma {:induction false} CountWithoutSumsIsLeafCount(h: Header, level: nat, showSums: seq<bool>, numberOfSums: nat)
    requires forall l :: 0 <= l < |showSums| ==> !showSums[l]
    requires NoExpressions(h)
    ensures HeaderChildCount(h, level, showSums, numberOfSums) == |TargetIndexesForHeader(h)|
    decreases h, 1
  {
    match h.node
    case Leaf(_) =>
    case Group(children) =>
      ChildrenCountWithoutSumsIsLeafCount(children, level + 1, showSums, numberOfSums);
  }

  lemma {:induction false} ChildrenCountWithoutSumsIsLeafCount(hs: seq<Header>, level: nat, showSums: seq<bool>, numberOfSums: nat)
    requires forall l :: 0 <= l < |showSums| ==> !showSums[l]
    requires forall i :: 0 <= i < |hs| ==> NoExpressions(hs[i])
    ensures ChildrenCount(hs, level, showSums, numberOfSums) == |TargetIndexesOf(hs)|
    decreases hs, 0
  {
    if hs != [] {
      ChildrenCountWithoutSumsIsLeafCount(hs[..|hs| - 1], level, showSums, numberOfSums);
      CountWithoutSumsIsLeafCount(hs[|hs| - 1], level, showSums, numberOfSums);
    }
  }

  /** No header of the tree carries an expression. */
  predicate NoExpressions(h: Header)
  {
    h.expressions == [] && match h.node
      case Leaf(_) => true
      case Group(children) => forall i :: 0 <= i < |children| ==> NoExpressions(children[i])
  }

  /** A leaf of the rows-only example table: no colour, no expressions. */
  function ExampleLeaf(title: string, targetIndex: nat): Header
  {
    Header(title, Leaf(targetIndex), None, false, [])
  }

  /** The row tree of the rows-only example: A(a1, a2), B(a1), C(a2, a3, a4). */
  function ExampleRowHeaders(): seq<Header>
  {
    [ Header("A", Group([ExampleLeaf("a1", 0), ExampleLeaf("a2", 1)]), None, false, []),
      Header("B", Group([ExampleLeaf("a1", 2)]), None, false, []),
      Header("C", Group([ExampleLeaf("a2", 3), ExampleLeaf("a3", 4), ExampleLeaf("a4", 5)]), None, false, []) ]
  }

  /** A list of plain leaves reserves one line per leaf. */
  lemma {:induction false} LeavesCount(hs: seq<Header>, level: nat, showSums: seq<bool>, numberOfSums: nat)
    requires forall i :: 0 <= i < |hs| ==> hs[i].node.Leaf? && hs[i].expressions == []
    ensures ChildrenCount(hs, level, showSums, numberOfSums) == |hs|
  {
    if hs != [] {
      LeavesCount(hs[..|hs| - 1], level, showSums, numberOfSums);
    }
  }

  /** The rows-only example: six leaves plus one subtotal per group when the group level shows sums. */
  lemma ExampleGroupLines(showSums: seq<bool>)
    ensures ChildrenCount(ExampleRowHeaders(), 0, showSums, 1) == 6 + 3 * SumLines(showSums, 1, 1)
  {
    var hs := ExampleRowHeaders();
    LeavesCount(hs[0].node.children, 1, showSums, 1);
    LeavesCount(hs[1].node.children, 1, showSums, 1);
    LeavesCount(hs[2].node.children, 1, showSums, 1);
    assert hs[..2][..1] == hs[..1] && hs[..1][..0] == [] && hs[..3] == hs;
    assert ChildrenCount(hs[..1], 0, showSums, 1) == HeaderChildCount(hs[0], 0, showSums, 1);
    assert ChildrenCount(hs[..2], 0, showSums, 1) == ChildrenCount(hs[..1], 0, showSums, 1) + HeaderChildCount(hs[1], 0, showSums, 1);
  }

  /**
   * The rows-only example reserves ten lines with subtotals on both levels (six leaves, three
   * group subtotals and the grand total) and six without.
   */
  lemma RowsOnlyExampleLines()
    ensures HeadersChildCount(ExampleRowHeaders(), [true, true], 1) == 10
    ensures HeadersChildCount(ExampleRowHeaders(), [false, false], 1) == 6
  {
    ExampleGroupLines([true, true]);
    ExampleGroupLines([false, false]);
  }
}
