/**
 * The transformation arrays of pivot-table-converter.ts (createTransformationMap,
 * iterateThroughTransformationMap): for every row (column) of the values matrix, the grid row
 * (column) that displays it. The JavaScript array is sparse; entries never written read `None`.
 */
module TransformationMap {
  import opened Options
  import opened PivotData
  import opened HeaderCounts

  /** One write of the traversal: matrix line `target` is shown at grid line `position`. */
  datatype Placement = Placement(target: nat, position: nat)

  /** How far a header moves the running `additional` offset of its sibling loop. */
  function Advance(h: Header, level: nat, showSums: seq<bool>, numberOfSums: nat): nat
  {
    if h.node.Group? then HeaderChildCount(h, level, showSums, numberOfSums) else |h.expressions|
  }

  function AdvanceOf(hs: seq<Header>, level: nat, showSums: seq<bool>, numberOfSums: nat): nat
  {
    if hs == [] then 0
    else AdvanceOf(hs[..|hs| - 1], level, showSums, numberOfSums) + Advance(hs[|hs| - 1], level, showSums, numberOfSums)
  }

  /** The writes a header at sibling position `i` makes, with the running offset `additional`. */
  function HeaderPlacements(h: Header, i: nat, additional: nat, level: nat, showSums: seq<bool>, numberOfSums: nat): seq<Placement>
  {
    match h.node
    case Leaf(t) => [Placement(t, i + additional)]
    case Group(children) => Placements(children, additional, level + 1, showSums, numberOfSums)
  }

  /** The writes of a sibling list, in traversal order. */
  function Placements(hs: seq<Header>, additionalNum: nat, level: nat, showSums: seq<bool>, numberOfSums: nat): seq<Placement>
  {
    if hs == [] then []
    else
      var k := |hs| - 1;
      Placements(hs[..k], additionalNum, level, showSums, numberOfSums)
      + HeaderPlacements(hs[k], k, additionalNum + AdvanceOf(hs[..k], level, showSums, numberOfSums), level, showSums, numberOfSums)
  }

  /** The array after performing the writes in order. */
  function WriteAll(a: seq<Option<nat>>, ps: seq<Placement>): seq<Option<nat>>
  {
    if ps == [] then a
    else
      var p := ps[|ps| - 1];
      Put(WriteAll(a, ps[..|ps| - 1]), p.target, p.position)
  }

  lemma WriteOne(a: seq<Option<nat>>, p: Placement)
    ensures WriteAll(a, [p]) == Put(a, p.target, p.position)
  {
    assert [p][..0] == [];
  }

  lemma {:induction false} WriteAllConcat(a: seq<Option<nat>>, p1: seq<Placement>, p2: seq<Placement>)
    ensures WriteAll(a, p1 + p2) == WriteAll(WriteAll(a, p1), p2)
    decreases |p2|
  {
    if p2 == [] {
      assert p1 + p2 == p1;
    } else {
      var k := |p2| - 1;
      assert (p1 + p2)[..|p1 + p2| - 1] == p1 + p2[..k];
      WriteAllConcat(a, p1, p2[..k]);
    }
  }

  /** Every write leaves its target defined, and every defined entry of a fresh array comes from a write. */
  lemma {:induction false} WriteAllFacts(ps: seq<Placement>)
    ensures var r := WriteAll([], ps);
      (forall m :: 0 <= m < |ps| ==> ps[m].target < |r| && r[ps[m].target].Some?)
      && (forall k :: 0 <= k < |r| && r[k].Some? ==> exists m :: 0 <= m < |ps| && ps[m] == Placement(k, r[k].value))
  {
    if ps != [] {
      var front := ps[..|ps| - 1];
      WriteAllFacts(front);
      var r := WriteAll([], ps);
      forall k | 0 <= k < |r| && r[k].Some?
        ensures exists m :: 0 <= m < |ps| && ps[m] == Placement(k, r[k].value)
      {
        if k == ps[|ps| - 1].target {
          assert ps[|ps| - 1] == Placement(k, r[k].value);
        } else {
          var prev := WriteAll([], front);
          assert k < |prev| && prev[k] == r[k];
          var m :| 0 <= m < |front| && front[m] == Placement(k, r[k].value);
          assert ps[m] == front[m];
        }
      }
    }
  }

  /** Every sibling list holds only leaves or only groups, at every level. */
  predicate Uniform(hs: seq<Header>)
  {
    (forall i :: 0 <= i < |hs| ==> hs[i].node.Leaf?)
    || (forall i :: 0 <= i < |hs| ==> hs[i].node.Group? && Uniform(hs[i].node.children))
  }

  predicate PlacedOnLeafLines(ps: seq<Placement>, lines: seq<Line>, start: nat)
  {
    forall m :: 0 <= m < |ps| ==>
      start <= ps[m].position < start + |lines| && lines[ps[m].position - start] == LeafLine(ps[m].target)
  }

  predicate PositionsIncrease(ps: seq<Placement>)
  {
    forall m1, m2 :: 0 <= m1 < m2 < |ps| ==> ps[m1].position < ps[m2].position
  }

  /** In a uniform list, the running offset before sibling `k` is the number of lines its predecessors reserve. */
  lemma {:induction false} OffsetIsLineCount(hs: seq<Header>, k: nat, level: nat, showSums: seq<bool>, numberOfSums: nat)
    requires Uniform(hs) && k <= |hs|
    ensures (forall i :: 0 <= i < |hs| ==> hs[i].node.Leaf?) ==>
      k + AdvanceOf(hs[..k], level, showSums, numberOfSums) == ChildrenCount(hs[..k], level, showSums, numberOfSums)
    ensures (forall i :: 0 <= i < |hs| ==> hs[i].node.Group?) ==>
      AdvanceOf(hs[..k], level, showSums, numberOfSums) == ChildrenCount(hs[..k], level, showSums, numberOfSums)
  {
    if k > 0 {
      OffsetIsLineCount(hs, k - 1, level, showSums, numberOfSums);
      assert hs[..k][..k - 1] == hs[..k - 1];
    }
  }

  lemma PlacedExtendRight(ps: seq<Placement>, lines: seq<Line>, rest: seq<Line>, start: nat)
    requires PlacedOnLeafLines(ps, lines, start)
    ensures PlacedOnLeafLines(ps, lines + rest, start)
  {
    forall m | 0 <= m < |ps|
      ensures (lines + rest)[ps[m].position - start] == LeafLine(ps[m].target)
    {
      assert (lines + rest)[ps[m].position - start] == lines[ps[m].position - start];
    }
  }

  lemma PlacedShift(ps: seq<Placement>, lines: seq<Line>, front: seq<Line>, start: nat)
    requires PlacedOnLeafLines(ps, lines, start + |front|)
    ensures PlacedOnLeafLines(ps, front + lines, start)
  {
    forall m | 0 <= m < |ps|
      ensures (front + lines)[ps[m].position - start] == LeafLine(ps[m].target)
    {
      assert (front + lines)[ps[m].position - start] == lines[ps[m].position - start - |front|];
    }
  }

  lemma PlacedConcat(p1: seq<Placement>, p2: seq<Placement>, lines: seq<Line>, start: nat)
    requires PlacedOnLeafLines(p1, lines, start) && PlacedOnLeafLines(p2, lines, start)
    ensures PlacedOnLeafLines(p1 + p2, lines, start)
  {
    forall m | 0 <= m < |p1 + p2|
      ensures start <= (p1 + p2)[m].position < start + |lines|
      ensures lines[(p1 + p2)[m].position - start] == LeafLine((p1 + p2)[m].target)
    {
      if m >= |p1| {
        assert (p1 + p2)[m] == p2[m - |p1|];
      }
    }
  }

  lemma IncreasingConcat(p1: seq<Placement>, p2: seq<Placement>, bound: nat)
    requires PositionsIncrease(p1) && PositionsIncrease(p2)
    requires forall m :: 0 <= m < |p1| ==> p1[m].position < bound
    requires forall m :: 0 <= m < |p2| ==> bound <= p2[m].position
    ensures PositionsIncrease(p1 + p2)
  {
    forall m1, m2 | 0 <= m1 < m2 < |p1 + p2|
      ensures (p1 + p2)[m1].position < (p1 + p2)[m2].position
    {
      if m2 < |p1| {
      } else if m1 < |p1| {
        assert (p1 + p2)[m2] == p2[m2 - |p1|];
      } else {
        assert (p1 + p2)[m1] == p2[m1 - |p1|];
        assert (p1 + p2)[m2] == p2[m2 - |p1|];
      }
    }
  }

  lemma PlacementsStep(hs: seq<Header>, k: nat, start: nat, level: nat, showSums: seq<bool>, numberOfSums: nat)
    requires k < |hs|
    ensures Placements(hs[..k + 1], start, level, showSums, numberOfSums)
            == Placements(hs[..k], start, level, showSums, numberOfSums)
               + HeaderPlacements(hs[k], k, start + AdvanceOf(hs[..k], level, showSums, numberOfSums), level, showSums, numberOfSums)
    ensures AdvanceOf(hs[..k + 1], level, showSums, numberOfSums)
            == AdvanceOf(hs[..k], level, showSums, numberOfSums) + Advance(hs[k], level, showSums, numberOfSums)
  {
    assert hs[..k + 1][..k] == hs[..k];
  }

  /** The writes of one header of a uniform list land on the leaf lines of that header's own layout. */
  lemma {:induction false} HeaderPlacementsFollowLayout(h: Header, k: nat, additional: nat, base: nat, level: nat,
                                                        showSums: seq<bool>, numberOfSums: nat)
    requires h.node.Group? ==> Uniform(h.node.children) && additional == base
    requires h.node.Leaf? ==> k + additional == base
    ensures PlacedOnLeafLines(HeaderPlacements(h, k, additional, level, showSums, numberOfSums), HeaderLines(h, level, showSums, numberOfSums), base)
    ensures PositionsIncrease(HeaderPlacements(h, k, additional, level, showSums, numberOfSums))
    decreases h, 0
  {
    match h.node {
      case Leaf(t) =>
      case Group(children) =>
        PlacementsFollowLayout(children, base, level + 1, showSums, numberOfSums);
        PlacedExtendRight(Placements(children, base, level + 1, showSums, numberOfSums),
                          ChildrenLines(children, level + 1, showSums, numberOfSums),
                          SumLinesAt(showSums, level + 1, numberOfSums) + ExpressionLines(h.expressions), base);
        assert HeaderLines(h, level, showSums, numberOfSums)
               == ChildrenLines(children, level + 1, showSums, numberOfSums)
                  + (SumLinesAt(showSums, level + 1, numberOfSums) + ExpressionLines(h.expressions));
    }
  }

  /**
   * In a uniform tree, every write lands on the leaf line of its own target in the layout of
   * reserved lines, and the positions strictly increase in leaf-visit order.
   */
  lemma {:induction false} PlacementsFollowLayout(hs: seq<Header>, start: nat, level: nat, showSums: seq<bool>, numberOfSums: nat)
    requires Uniform(hs)
    ensures PlacedOnLeafLines(Placements(hs, start, level, showSums, numberOfSums), ChildrenLines(hs, level, showSums, numberOfSums), start)
    ensures PositionsIncrease(Placements(hs, start, level, showSums, numberOfSums))
    decreases hs, 1
  {
    if hs != [] {
      var k := |hs| - 1;
      var front := hs[..k];
      LastHeaderOffset(hs, start, level, showSums, numberOfSums);
      PlacementsFollowLayout(front, start, level, showSums, numberOfSums);
      var lf := ChildrenLines(front, level, showSums, numberOfSums);
      HeaderPlacementsFollowLayout(hs[k], k, start + AdvanceOf(front, level, showSums, numberOfSums), start + |lf|,
                                   level, showSums, numberOfSums);
      PlacedAppend(Placements(front, start, level, showSums, numberOfSums), lf,
                   HeaderPlacements(hs[k], k, start + AdvanceOf(front, level, showSums, numberOfSums), level, showSums, numberOfSums),
                   HeaderLines(hs[k], level, showSums, numberOfSums), start);
    }
  }

  /** How the last header of a uniform list is placed relative to the lines of its predecessors. */
  lemma LastHeaderOffset(hs: seq<Header>, start: nat, level: nat, showSums: seq<bool>, numberOfSums: nat)
    requires Uniform(hs) && hs != []
    ensures var k := |hs| - 1;
      var front := hs[..k];
      var additional := start + AdvanceOf(front, level, showSums, numberOfSums);
      var base := start + |ChildrenLines(front, level, showSums, numberOfSums)|;
      && Uniform(front)
      && (hs[k].node.Group? ==> Uniform(hs[k].node.children) && additional == base)
      && (hs[k].node.Leaf? ==> k + additional == base)
      && ChildrenLines(hs, level, showSums, numberOfSums)
         == ChildrenLines(front, level, showSums, numberOfSums) + HeaderLines(hs[k], level, showSums, numberOfSums)
      && Placements(hs, start, level, showSums, numberOfSums)
         == Placements(front, start, level, showSums, numberOfSums) + HeaderPlacements(hs[k], k, additional, level, showSums, numberOfSums)
  {
    var k := |hs| - 1;
    var front := hs[..k];
    assert Uniform(front);
    ChildrenLinesMatchCount(front, level, showSums, numberOfSums);
    OffsetIsLineCount(hs, k, level, showSums, numberOfSums);
  }

  /** The writes of the next header, on the lines after those of its predecessors, extend a placement. */
  lemma PlacedAppend(pf: seq<Placement>, lf: seq<Line>, ph: seq<Placement>, lh: seq<Line>, start: nat)
    requires PlacedOnLeafLines(pf, lf, start) && PlacedOnLeafLines(ph, lh, start + |lf|)
    requires PositionsIncrease(pf) && PositionsIncrease(ph)
    ensures PlacedOnLeafLines(pf + ph, lf + lh, start) && PositionsIncrease(pf + ph)
  {
    PlacedShift(ph, lh, lf, start);
    PlacedExtendRight(pf, lf, lh, start);
    PlacedConcat(pf, ph, lf + lh, start);
    IncreasingConcat(pf, ph, start + |lf|);
  }

  /** The targets are written in leaf-visit order, one write per leaf. */
  lemma {:induction false} PlacementTargets(hs: seq<Header>, start: nat, level: nat, showSums: seq<bool>, numberOfSums: nat)
    ensures var ps := Placements(hs, start, level, showSums, numberOfSums);
      |ps| == |TargetIndexesOf(hs)| && forall m :: 0 <= m < |ps| ==> ps[m].target == TargetIndexesOf(hs)[m]
    decreases hs
  {
    if hs != [] {
      var k := |hs| - 1;
      var additional := start + AdvanceOf(hs[..k], level, showSums, numberOfSums);
      PlacementTargets(hs[..k], start, level, showSums, numberOfSums);
      match hs[k].node {
        case Leaf(t) =>
        case Group(children) =>
          PlacementTargets(children, additional, level + 1, showSums, numberOfSums);
      }
      TargetsAppend(Placements(hs[..k], start, level, showSums, numberOfSums), TargetIndexesOf(hs[..k]),
                    HeaderPlacements(hs[k], k, additional, level, showSums, numberOfSums), TargetIndexesForHeader(hs[k]));
    }
  }

  /** Writes whose targets follow two target lists, one after the other, follow their concatenation. */
  lemma TargetsAppend(pf: seq<Placement>, tf: seq<nat>, ph: seq<Placement>, th: seq<nat>)
    requires |pf| == |tf| && forall m :: 0 <= m < |pf| ==> pf[m].target == tf[m]
    requires |ph| == |th| && forall m :: 0 <= m < |ph| ==> ph[m].target == th[m]
    ensures |pf + ph| == |tf + th| && forall m :: 0 <= m < |pf + ph| ==> (pf + ph)[m].target == (tf + th)[m]
  {
  }

  /** What a transformation array built from a uniform tree says about every matrix line. */
  predicate MapsOntoLeafLines(r: seq<Option<nat>>, hs: seq<Header>, offset: nat, showSums: seq<bool>, numberOfSums: nat)
  {
    (forall t :: t in TargetIndexesOf(hs) ==> t < |r| && r[t].Some?)
    && EntriesOnLeafLines(r, ChildrenLines(hs, 0, showSums, numberOfSums), offset)
  }

  lemma WrittenTargetsDefined(hs: seq<Header>, offset: nat, showSums: seq<bool>, numberOfSums: nat)
    ensures var r := WriteAll([], Placements(hs, offset, 0, showSums, numberOfSums));
      forall t :: t in TargetIndexesOf(hs) ==> t < |r| && r[t].Some?
  {
    var ps := Placements(hs, offset, 0, showSums, numberOfSums);
    PlacementTargets(hs, offset, 0, showSums, numberOfSums);
    WriteAllFacts(ps);
    var r := WriteAll([], ps);
    forall t | t in TargetIndexesOf(hs)
      ensures t < |r| && r[t].Some?
    {
      var m :| 0 <= m < |TargetIndexesOf(hs)| && TargetIndexesOf(hs)[m] == t;
      assert ps[m].target == t;
    }
  }

  /** Every defined entry of `r` points at the leaf line of its own target. */
  predicate EntriesOnLeafLines(r: seq<Option<nat>>, lines: seq<Line>, offset: nat)
  {
    forall k: nat {:trigger EntryOnLeafLine(r, lines, offset, k)} :: k < |r| ==> EntryOnLeafLine(r, lines, offset, k)
  }

  /** Entry `k` of `r`, if defined, points at the leaf line of `k`. */
  predicate EntryOnLeafLine(r: seq<Option<nat>>, lines: seq<Line>, offset: nat, k: nat)
  {
    k < |r| && r[k].Some? ==> offset <= r[k].value < offset + |lines| && lines[r[k].value - offset] == LeafLine(k)
  }

  lemma WrittenEntriesPlaced(ps: seq<Placement>, lines: seq<Line>, offset: nat)
    requires PlacedOnLeafLines(ps, lines, offset)
    ensures EntriesOnLeafLines(WriteAll([], ps), lines, offset)
  {
    forall k: nat
      ensures EntryOnLeafLine(WriteAll([], ps), lines, offset, k)
    {
      WrittenEntryPlaced(ps, lines, offset, k);
    }
  }

  lemma WrittenEntryPlaced(ps: seq<Placement>, lines: seq<Line>, offset: nat, k: nat)
    requires PlacedOnLeafLines(ps, lines, offset)
    ensures EntryOnLeafLine(WriteAll([], ps), lines, offset, k)
  {
    if k < |WriteAll([], ps)| && WriteAll([], ps)[k].Some? {
      var m := WriteOf(ps, k);
      PlacedAt(ps, lines, offset, m);
    }
  }

  /** The write a defined entry of a fresh array comes from. */
  lemma WriteOf(ps: seq<Placement>, k: nat) returns (m: nat)
    requires k < |WriteAll([], ps)| && WriteAll([], ps)[k].Some?
    ensures m < |ps| && ps[m] == Placement(k, WriteAll([], ps)[k].value)
  {
    WriteAllFacts(ps);
    m :| 0 <= m < |ps| && ps[m] == Placement(k, WriteAll([], ps)[k].value);
  }

  lemma PlacedAt(ps: seq<Placement>, lines: seq<Line>, offset: nat, m: nat)
    requires PlacedOnLeafLines(ps, lines, offset) && m < |ps|
    ensures offset <= ps[m].position < offset + |lines| && lines[ps[m].position - offset] == LeafLine(ps[m].target)
  {
  }

  lemma WrittenEntriesOnLeafLines(hs: seq<Header>, offset: nat, showSums: seq<bool>, numberOfSums: nat)
    requires Uniform(hs)
    ensures EntriesOnLeafLines(WriteAll([], Placements(hs, offset, 0, showSums, numberOfSums)),
                               ChildrenLines(hs, 0, showSums, numberOfSums), offset)
  {
    var ps := Placements(hs, offset, 0, showSums, numberOfSums);
    var lines := ChildrenLines(hs, 0, showSums, numberOfSums);
    PlacementsFollowLayout(hs, offset, 0, showSums, numberOfSums);
    assert PlacedOnLeafLines(ps, lines, offset);
    WrittenEntriesPlaced(ps, lines, offset);
  }

  lemma WrittenArrayFollowsLayout(hs: seq<Header>, offset: nat, showSums: seq<bool>, numberOfSums: nat)
    requires Uniform(hs)
    ensures MapsOntoLeafLines(WriteAll([], Placements(hs, offset, 0, showSums, numberOfSums)), hs, offset, showSums, numberOfSums)
  {
    WrittenTargetsDefined(hs, offset, showSums, numberOfSums);
    WrittenEntriesOnLeafLines(hs, offset, showSums, numberOfSums);
  }

  /** Two matrix lines are never shown on the same grid line. */
  lemma MapIsInjective(r: seq<Option<nat>>, hs: seq<Header>, offset: nat, showSums: seq<bool>, numberOfSums: nat, k1: nat, k2: nat)
    requires MapsOntoLeafLines(r, hs, offset, showSums, numberOfSums)
    requires k1 < |r| && k2 < |r| && r[k1].Some? && r[k1] == r[k2]
    ensures k1 == k2
  {
    var lines := ChildrenLines(hs, 0, showSums, numberOfSums);
    assert EntryOnLeafLine(r, lines, offset, k1) && EntryOnLeafLine(r, lines, offset, k2);
  }

  /** iterateThroughTransformationMap: the traversal performs exactly the writes `Placements` lists. */
  method IterateThroughTransformationMap(hs: seq<Header>, additionalNum: nat, written: seq<Option<nat>>, level: nat,
                                         showSums: seq<bool>, numberOfSums: nat)
    returns (result: seq<Option<nat>>)
    ensures result == WriteAll(written, Placements(hs, additionalNum, level, showSums, numberOfSums))
    decreases hs
  {
    var additional := additionalNum;
    result := written;
    var i := 0;
    while i < |hs|
      invariant 0 <= i <= |hs|
      invariant additional == additionalNum + AdvanceOf(hs[..i], level, showSums, numberOfSums)
      invariant result == WriteAll(written, Placements(hs[..i], additionalNum, level, showSums, numberOfSums))
    {
      var h := hs[i];
      ghost var before, from := result, additional;
      match h.node {
        case Group(children) =>
          result := IterateThroughTransformationMap(children, additional, result, level + 1, showSums, numberOfSums);
          additional := additional + HeaderChildCount(h, level, showSums, numberOfSums);
        case Leaf(t) =>
          WriteOne(result, Placement(t, i + additional));
          result := Put(result, t, i + additional);
          additional := additional + |h.expressions|;
      }
      TraversalStep(hs, i, additionalNum, from, additional, written, before, result, level, showSums, numberOfSums);
      i := i + 1;
    }
    assert hs[..|hs|] == hs;
  }

  /** One header of the traversal extends the writes and the offset by what that header contributes. */
  lemma TraversalStep(hs: seq<Header>, i: nat, additionalNum: nat, from: nat, additional: nat, written: seq<Option<nat>>,
                      before: seq<Option<nat>>, result: seq<Option<nat>>, level: nat, showSums: seq<bool>, numberOfSums: nat)
    requires i < |hs|
    requires from == additionalNum + AdvanceOf(hs[..i], level, showSums, numberOfSums)
    requires before == WriteAll(written, Placements(hs[..i], additionalNum, level, showSums, numberOfSums))
    requires result == WriteAll(before, HeaderPlacements(hs[i], i, from, level, showSums, numberOfSums))
    requires additional == from + Advance(hs[i], level, showSums, numberOfSums)
    ensures additional == additionalNum + AdvanceOf(hs[..i + 1], level, showSums, numberOfSums)
    ensures result == WriteAll(written, Placements(hs[..i + 1], additionalNum, level, showSums, numberOfSums))
  {
    PlacementsStep(hs, i, additionalNum, level, showSums, numberOfSums);
    WriteAllConcat(written, Placements(hs[..i], additionalNum, level, showSums, numberOfSums),
                   HeaderPlacements(hs[i], i, from, level, showSums, numberOfSums));
  }

  /**
   * createTransformationMap: for a uniform tree every leaf target gets a distinct grid line at or
   * beyond `additionalNum`, namely the line that the layout reserves for that leaf.
   */
  method CreateTransformationMap(hs: seq<Header>, showSums: seq<bool>, additionalNum: nat, numberOfSums: nat)
    returns (transformation: seq<Option<nat>>)
    ensures transformation == WriteAll([], Placements(hs, additionalNum, 0, showSums, numberOfSums))
    ensures Uniform(hs) ==> MapsOntoLeafLines(transformation, hs, additionalNum, showSums, numberOfSums)
  {
    transformation := IterateThroughTransformationMap(hs, additionalNum, [], 0, showSums, numberOfSums);
    if Uniform(hs) {
      WrittenArrayFollowsLayout(hs, additionalNum, showSums, numberOfSums);
    }
  }

  // ---------------------------------------------------------------------------------------------
  // Lines that show no matrix line

  /** Matrix line `x` has a grid line. */
  predicate ShownAt(t: seq<Option<nat>>, x: nat)
  {
    x < |t| && t[x].Some?
  }

  /** Every matrix line in `xs` has a grid line. */
  predicate Shown(t: seq<Option<nat>>, xs: seq<nat>)
  {
    forall x: nat {:trigger ShownAt(t, x)} :: x in xs ==> ShownAt(t, x)
  }

  /** A list's members show what the list shows. */
  lemma ShownMember(t: seq<Option<nat>>, hs: seq<Header>, i: nat)
    requires i < |hs| && Shown(t, TargetIndexesOf(hs))
    ensures Shown(t, TargetIndexesForHeader(hs[i]))
  {
    TargetsOfMember(hs, i);
  }

  /**
   * Of the lines `lines`, laid out from grid line `start` on, only leaf lines show a matrix line:
   * no entry of `t` points at a subtotal or an expression line among them.
   */
  predicate NonLeafLinesFree(t: seq<Option<nat>>, lines: seq<Line>, start: nat)
  {
    forall k: nat {:trigger LineFreeAt(t, lines, start, k)} :: k < |t| ==> LineFreeAt(t, lines, start, k)
  }

  /** Entry `k` of `t`, if it falls among the lines `lines` laid out from `start` on, falls on a leaf line. */
  predicate LineFreeAt(t: seq<Option<nat>>, lines: seq<Line>, start: nat, k: nat)
  {
    k < |t| && t[k].Some? && start <= t[k].value < start + |lines| ==> lines[t[k].value - start].LeafLine?
  }

  /** A subtotal or expression line of a free layout shows no matrix line. */
  lemma NonLeafLineFree(t: seq<Option<nat>>, lines: seq<Line>, start: nat, i: nat, line: nat)
    requires NonLeafLinesFree(t, lines, start) && i < |lines| && !lines[i].LeafLine? && line == start + i
    ensures Some(line) !in t
  {
    forall k | 0 <= k < |t|
      ensures t[k] != Some(line)
    {
      assert LineFreeAt(t, lines, start, k);
    }
  }

  lemma NonLeafLinesFreeSplit(t: seq<Option<nat>>, a: seq<Line>, b: seq<Line>, start: nat)
    requires NonLeafLinesFree(t, a + b, start)
    ensures NonLeafLinesFree(t, a, start) && NonLeafLinesFree(t, b, start + |a|)
  {
    forall k: nat
      ensures LineFreeAt(t, a, start, k)
    {
      assert LineFreeAt(t, a + b, start, k);
      if k < |t| && t[k].Some? && start <= t[k].value < start + |a| {
        assert (a + b)[t[k].value - start] == a[t[k].value - start];
      }
    }
    var middle := start + |a|;
    forall k: nat
      ensures LineFreeAt(t, b, middle, k)
    {
      assert LineFreeAt(t, a + b, start, k);
      if k < |t| && t[k].Some? && start + |a| <= t[k].value < start + |a| + |b| {
        assert (a + b)[t[k].value - start] == b[t[k].value - (start + |a|)];
      }
    }
  }

  /** The lines of member `i` of a sibling list come right after the lines of the members before it. */
  lemma {:induction false} MemberLinesFree(t: seq<Option<nat>>, hs: seq<Header>, i: nat, level: nat, showSums: seq<bool>,
                                           numberOfSums: nat, start: nat, at: nat)
    requires i < |hs| && at == start + ChildrenCount(hs[..i], level, showSums, numberOfSums)
    requires NonLeafLinesFree(t, ChildrenLines(hs, level, showSums, numberOfSums), start)
    ensures NonLeafLinesFree(t, HeaderLines(hs[i], level, showSums, numberOfSums), at)
  {
    var k := |hs| - 1;
    var front := ChildrenLines(hs[..k], level, showSums, numberOfSums);
    NonLeafLinesFreeSplit(t, front, HeaderLines(hs[k], level, showSums, numberOfSums), start);
    if i < k {
      assert hs[..k][i] == hs[i] && hs[..k][..i] == hs[..i];
      MemberLinesFree(t, hs[..k], i, level, showSums, numberOfSums, start, at);
    } else {
      ChildrenLinesMatchCount(hs[..k], level, showSums, numberOfSums);
    }
  }

  /**
   * A header's layout splits into its children's lines with their subtotal (a leaf: its own
   * line) and then its expression lines.
   */
  lemma HeaderLinesFree(t: seq<Option<nat>>, h: Header, level: nat, showSums: seq<bool>, numberOfSums: nat, start: nat)
    requires NonLeafLinesFree(t, HeaderLines(h, level, showSums, numberOfSums), start)
    ensures h.node.Group? ==>
      NonLeafLinesFree(t, ChildrenLines(h.node.children, level + 1, showSums, numberOfSums), start)
      && NonLeafLinesFree(t, SumLinesAt(showSums, level + 1, numberOfSums),
                          start + ChildrenCount(h.node.children, level + 1, showSums, numberOfSums))
  {
    if h.node.Group? {
      var a := ChildrenLines(h.node.children, level + 1, showSums, numberOfSums);
      var b := SumLinesAt(showSums, level + 1, numberOfSums);
      ChildrenLinesMatchCount(h.node.children, level + 1, showSums, numberOfSums);
      NonLeafLinesFreeSplit(t, a + b, ExpressionLines(h.expressions), start);
      NonLeafLinesFreeSplit(t, a, b, start);
    }
  }

  /** A header's expression lines end its layout. */
  lemma ExpressionLinesFree(t: seq<Option<nat>>, h: Header, level: nat, showSums: seq<bool>, numberOfSums: nat, start: nat,
                            end: nat)
    requires NonLeafLinesFree(t, HeaderLines(h, level, showSums, numberOfSums), start)
    requires end == start + HeaderChildCount(h, level, showSums, numberOfSums)
    ensures end >= |h.expressions| && NonLeafLinesFree(t, ExpressionLines(h.expressions), end - |h.expressions|)
  {
    match h.node
    case Leaf(x) =>
      NonLeafLinesFreeSplit(t, [LeafLine(x)], ExpressionLines(h.expressions), start);
    case Group(children) =>
      var a := ChildrenLines(children, level + 1, showSums, numberOfSums);
      var b := SumLinesAt(showSums, level + 1, numberOfSums);
      ChildrenLinesMatchCount(children, level + 1, showSums, numberOfSums);
      NonLeafLinesFreeSplit(t, a + b, ExpressionLines(h.expressions), start);
  }

  /**
   * A transformation array built from a uniform tree shows every leaf of the tree, and none of the
   * tree's subtotal or expression lines.
   */
  lemma TreeLaidOut(t: seq<Option<nat>>, hs: seq<Header>, offset: nat, showSums: seq<bool>, numberOfSums: nat)
    requires MapsOntoLeafLines(t, hs, offset, showSums, numberOfSums)
    ensures Shown(t, TargetIndexesOf(hs))
    ensures NonLeafLinesFree(t, ChildrenLines(hs, 0, showSums, numberOfSums), offset)
  {
    forall x: nat | x in TargetIndexesOf(hs)
      ensures ShownAt(t, x)
    {
    }
    forall k: nat
      ensures LineFreeAt(t, ChildrenLines(hs, 0, showSums, numberOfSums), offset, k)
    {
      assert k < |t| ==> EntryOnLeafLine(t, ChildrenLines(hs, 0, showSums, numberOfSums), offset, k);
    }
  }

  /** Nothing is laid out past the lines of a uniform tree, so its grand total lines show no matrix line. */
  lemma GrandTotalFree(t: seq<Option<nat>>, hs: seq<Header>, offset: nat, showSums: seq<bool>, numberOfSums: nat)
    requires MapsOntoLeafLines(t, hs, offset, showSums, numberOfSums)
    ensures NonLeafLinesFree(t, SumLinesAt(showSums, 0, numberOfSums), offset + ChildrenCount(hs, 0, showSums, numberOfSums))
  {
    ChildrenLinesMatchCount(hs, 0, showSums, numberOfSums);
    var end := offset + ChildrenCount(hs, 0, showSums, numberOfSums);
    forall k: nat
      ensures LineFreeAt(t, SumLinesAt(showSums, 0, numberOfSums), end, k)
    {
      assert k < |t| ==> EntryOnLeafLine(t, ChildrenLines(hs, 0, showSums, numberOfSums), offset, k);
    }
  }
}
