/**
 * Building the header trees from the aggregated data map (pivot-data-converter.ts:
 * convertMapToPivotDataHeader, iterateThroughPivotDataHeader). Leaves are numbered with
 * consecutive target indexes in visiting order; each sibling starts where the previous one's
 * numChildren ends, and a last-level header with several value titles gets one leaf per title.
 */
module HeaderBuilder {
  import opened Options
  import opened PivotData
  import opened HeaderCounts
  import opened TransformationMap
  import opened KeyTree

  /** `colors[i]`, undefined past the end. */
  function At(colors: seq<Option<string>>, i: nat): Option<string>
  {
    if i < |colors| then colors[i] else None
  }

  /** `(valueTitles && valueTitles.length) || 1` */
  function NumTitles(valueTitles: seq<string>): (r: nat)
    ensures r >= 1 && (|valueTitles| > 0 ==> r == |valueTitles|)
  {
    if |valueTitles| > 0 then |valueTitles| else 1
  }

  function Range(a: nat, b: nat): (r: seq<nat>)
    requires a <= b
    ensures |r| == b - a && forall i :: 0 <= i < |r| ==> r[i] == a + i
  {
    seq(b - a, i requires 0 <= i < b - a => a + i)
  }

  function Max(a: int, b: int): int
  {
    if a >= b then a else b
  }

  /** The running maximum after assigning the indexes `start..end-1`. */
  function Upto(maxIndex: int, start: nat, end: nat): int
  {
    if end > start then Max(maxIndex, end - 1) else maxIndex
  }

  lemma UptoCompose(maxIndex: int, a: nat, b: nat, c: nat)
    requires a <= b <= c
    ensures Upto(Upto(maxIndex, a, b), b, c) == Upto(maxIndex, a, c)
  {
  }

  lemma RangeConcat(a: nat, b: nat, c: nat)
    requires a <= b <= c
    ensures Range(a, b) + Range(b, c) == Range(a, c)
  {
  }

  lemma Distribute(x: nat, y: nat, n: nat)
    ensures (x + y) * n == x * n + y * n
  {
  }

  /** A map that holds nested objects down to `depth` levels. */
  predicate UniformDepth(t: Tree, depth: nat)
  {
    depth == 0 || (t.Map? && forall i :: 0 <= i < |t.entries| ==> UniformDepth(t.entries[i].value, depth - 1))
  }

  /** The value-title leaves: title `i` gets target `start + i`. */
  function ValueHeaders(valueTitles: seq<string>, valueColors: seq<Option<string>>, start: nat): (r: seq<Header>)
    ensures |r| == |valueTitles|
    ensures forall i :: 0 <= i < |r| ==> r[i] == Header(valueTitles[i], Leaf(start + i), At(valueColors, i), true, [])
  {
    seq(|valueTitles|, i requires 0 <= i < |valueTitles| => Header(valueTitles[i], Leaf(start + i), At(valueColors, i), true, []))
  }

  lemma {:induction false} ValueHeadersTargets(valueTitles: seq<string>, valueColors: seq<Option<string>>, start: nat)
    ensures TargetIndexesOf(ValueHeaders(valueTitles, valueColors, start)) == Range(start, start + |valueTitles|)
    ensures Uniform(ValueHeaders(valueTitles, valueColors, start))
  {
    var hs := ValueHeaders(valueTitles, valueColors, start);
    if valueTitles != [] {
      var k := |valueTitles| - 1;
      ValueHeadersTargets(valueTitles[..k], valueColors, start);
      assert hs[..k] == ValueHeaders(valueTitles[..k], valueColors, start);
      RangeConcat(start, start + k, start + k + 1);
    }
  }

  /**
   * iterateThroughPivotDataHeader: the children it assigns to a header whose sub-map is
   * `currentMap` and whose first target is `headerIndex` (none for a plain leaf), and the
   * running maximum index.
   */
  method IterateThroughPivotDataHeader(currentMap: Tree, headerIndex: nat, level: nat, maxLevels: nat,
                                       colors: seq<Option<string>>, valueColors: seq<Option<string>>,
                                       valueTitles: seq<string>, maxIndex: int)
    returns (children: Option<seq<Header>>, newMaxIndex: int)
    requires level <= maxLevels && UniformDepth(currentMap, maxLevels - level)
    ensures children.None? <==> level == maxLevels && |valueTitles| <= 1
    ensures children.None? ==> newMaxIndex == maxIndex
    ensures children.Some? ==>
      var count := NumChildren(currentMap, maxLevels - level, NumTitles(valueTitles));
      && TargetIndexesOf(children.value) == Range(headerIndex, headerIndex + count)
      && newMaxIndex == Upto(maxIndex, headerIndex, headerIndex + count)
      && Uniform(children.value)
    decreases currentMap, 1
  {
    if level == maxLevels {
      if |valueTitles| > 1 {
        children := Some(ValueHeaders(valueTitles, valueColors, headerIndex));
        ValueHeadersTargets(valueTitles, valueColors, headerIndex);
        newMaxIndex := Max(maxIndex, headerIndex + |valueTitles| - 1);
      } else {
        children := None;
        newMaxIndex := maxIndex;
      }
      return;
    }
    var headers, mx := BuildLevel(currentMap.entries, headerIndex, level, maxLevels, colors, valueColors, valueTitles, maxIndex);
    NumChildrenCountsNodes(currentMap, maxLevels - level, NumTitles(valueTitles));
    SameKindIsUniform(headers, level + 1 == maxLevels && |valueTitles| <= 1);
    children := Some(headers);
    newMaxIndex := mx;
  }

  /**
   * The `Object.keys(map).forEach` loop shared by convertMapToPivotDataHeader (level 0) and
   * iterateThroughPivotDataHeader: one header per key, in key order, numbered from `startIndex`.
   */
  method BuildLevel(es: seq<Entry>, startIndex: nat, level: nat, maxLevels: nat,
                    colors: seq<Option<string>>, valueColors: seq<Option<string>>,
                    valueTitles: seq<string>, maxIndex: int)
    returns (headers: seq<Header>, newMaxIndex: int)
    requires level < maxLevels && forall i :: 0 <= i < |es| ==> UniformDepth(es[i].value, maxLevels - level - 1)
    ensures |headers| == |es|
    ensures KeyHeaders(headers, es, At(colors, level))
    ensures var count := EntriesNodes(es, maxLevels - level - 1) * NumTitles(valueTitles);
      && TargetIndexesOf(headers) == Range(startIndex, startIndex + count)
      && newMaxIndex == Upto(maxIndex, startIndex, startIndex + count)
    ensures SameKind(headers, level + 1 == maxLevels && |valueTitles| <= 1)
    decreases es, 0
  {
    var n := NumTitles(valueTitles);
    var depth := maxLevels - level - 1;
    var leafLevel := level + 1 == maxLevels && |valueTitles| <= 1;
    headers := [];
    newMaxIndex := maxIndex;
    var currentIndex := startIndex;
    var i := 0;
    while i < |es|
      invariant 0 <= i <= |es| && |headers| == i
      invariant KeyHeaders(headers, es[..i], At(colors, level))
      invariant currentIndex == startIndex + EntriesNodes(es[..i], depth) * n
      invariant TargetIndexesOf(headers) == Range(startIndex, currentIndex)
      invariant newMaxIndex == Upto(maxIndex, startIndex, currentIndex)
      invariant SameKind(headers, leafLevel)
    {
      var step := NumChildren(es[i].value, depth, n);
      var header, mx := BuildHeader(es[i], currentIndex, level, maxLevels, colors, valueColors, valueTitles, newMaxIndex);
      LevelStep(es, i, depth, n, startIndex, currentIndex, maxIndex, headers, header);
      SameKindAppend(headers, header, leafLevel);
      KeyHeadersAppend(headers, header, es, i, At(colors, level));
      newMaxIndex := mx;
      headers := headers + [header];
      currentIndex := currentIndex + step;
      i := i + 1;
    }
    assert es[..i] == es;
  }

  /** One header per key, titled by it, in the level's colour, with no expressions yet. */
  predicate KeyHeaders(headers: seq<Header>, es: seq<Entry>, color: Option<string>)
  {
    |headers| == |es| &&
    forall j :: 0 <= j < |es| ==>
      headers[j].title == es[j].key && headers[j].color == color && !headers[j].isValueHeader && headers[j].expressions == []
  }

  lemma KeyHeadersAppend(headers: seq<Header>, header: Header, es: seq<Entry>, i: nat, color: Option<string>)
    requires i < |es| && KeyHeaders(headers, es[..i], color)
    requires header.title == es[i].key && header.color == color && !header.isValueHeader && header.expressions == []
    ensures KeyHeaders(headers + [header], es[..i + 1], color)
  {
  }

  /** All leaves, or all groups with uniform children. */
  predicate SameKind(hs: seq<Header>, leaves: bool)
  {
    if leaves then forall j :: 0 <= j < |hs| ==> hs[j].node.Leaf?
    else forall j :: 0 <= j < |hs| ==> hs[j].node.Group? && Uniform(hs[j].node.children)
  }

  lemma SameKindAppend(hs: seq<Header>, h: Header, leaves: bool)
    requires SameKind(hs, leaves)
    requires leaves ==> h.node.Leaf?
    requires !leaves ==> h.node.Group? && Uniform(h.node.children)
    ensures SameKind(hs + [h], leaves)
  {
  }

  lemma SameKindIsUniform(hs: seq<Header>, leaves: bool)
    requires SameKind(hs, leaves)
    ensures Uniform(hs)
  {
  }

  /** The body of the forEach: the header of one key and its subtree. */
  method BuildHeader(entry: Entry, currentIndex: nat, level: nat, maxLevels: nat,
                     colors: seq<Option<string>>, valueColors: seq<Option<string>>,
                     valueTitles: seq<string>, maxIndex: int)
    returns (header: Header, newMaxIndex: int)
    requires level < maxLevels && UniformDepth(entry.value, maxLevels - level - 1)
    ensures header.title == entry.key && header.color == At(colors, level) && !header.isValueHeader && header.expressions == []
    ensures var step := NumChildren(entry.value, maxLevels - level - 1, NumTitles(valueTitles));
      && TargetIndexesForHeader(header) == Range(currentIndex, currentIndex + step)
      && newMaxIndex == Upto(maxIndex, currentIndex, currentIndex + step)
    ensures level + 1 == maxLevels && |valueTitles| <= 1 ==> header.node.Leaf?
    ensures !(level + 1 == maxLevels && |valueTitles| <= 1) ==> header.node.Group? && Uniform(header.node.children)
    decreases entry.value, 2
  {
    if level + 1 == maxLevels && |valueTitles| <= 1 {
      header := Header(entry.key, Leaf(currentIndex), At(colors, level), false, []);
      newMaxIndex := Max(maxIndex, currentIndex);
      // the call for the new leaf returns at once: it is at the last level with at most one value title
      var none, same := IterateThroughPivotDataHeader(entry.value, currentIndex, level + 1, maxLevels, colors, valueColors, valueTitles, newMaxIndex);
    } else {
      var nested, mx := IterateThroughPivotDataHeader(entry.value, currentIndex, level + 1, maxLevels, colors, valueColors, valueTitles, maxIndex);
      header := Header(entry.key, Group(nested.value), At(colors, level), false, []);
      newMaxIndex := mx;
    }
  }

  /** One turn of the BuildLevel loop keeps the numbering consecutive. */
  lemma LevelStep(es: seq<Entry>, i: nat, depth: nat, n: nat, startIndex: nat, currentIndex: nat, maxIndex: int,
                  headers: seq<Header>, header: Header)
    requires i < |es|
    requires currentIndex == startIndex + EntriesNodes(es[..i], depth) * n
    requires TargetIndexesOf(headers) == Range(startIndex, currentIndex)
    requires TargetIndexesForHeader(header) == Range(currentIndex, currentIndex + NumChildren(es[i].value, depth, n))
    ensures currentIndex + NumChildren(es[i].value, depth, n) == startIndex + EntriesNodes(es[..i + 1], depth) * n
    ensures TargetIndexesOf(headers + [header]) == Range(startIndex, currentIndex + NumChildren(es[i].value, depth, n))
    ensures Upto(Upto(maxIndex, startIndex, currentIndex), currentIndex, currentIndex + NumChildren(es[i].value, depth, n))
         == Upto(maxIndex, startIndex, currentIndex + NumChildren(es[i].value, depth, n))
  {
    var step := NumChildren(es[i].value, depth, n);
    assert es[..i + 1][..i] == es[..i];
    NumChildrenCountsNodes(es[i].value, depth, n);
    Distribute(EntriesNodes(es[..i], depth), NodesAtDepth(es[i].value, depth), n);
    assert (headers + [header])[..|headers|] == headers;
    RangeConcat(startIndex, currentIndex, currentIndex + step);
    UptoCompose(maxIndex, startIndex, currentIndex, currentIndex + step);
  }

  /**
   * convertMapToPivotDataHeader: with no levels, one leaf per value title numbered from
   * `additionalNum`; otherwise the header tree of the map, its leaves numbered consecutively from
   * `additionalNum`, with the largest assigned index.
   */
  method ConvertMapToPivotDataHeader(dataMap: Tree, levels: nat, colors: seq<Option<string>>,
                                     valueColors: seq<Option<string>>, valueTitles: seq<string>, additionalNum: nat)
    returns (headers: seq<Header>, maxIndex: int)
    requires UniformDepth(dataMap, levels)
    ensures levels == 0 ==> (headers == ValueHeaders(valueTitles, valueColors, additionalNum)
      && maxIndex == if |valueTitles| > 0 then |valueTitles| - 1 + additionalNum else 0)
    ensures levels > 0 ==>
      var count := NumChildren(dataMap, levels, NumTitles(valueTitles));
      && dataMap.Map? && KeyHeaders(headers, dataMap.entries, At(colors, 0))
      && TargetIndexesOf(headers) == Range(additionalNum, additionalNum + count)
      && maxIndex == (if count > 0 then additionalNum + count - 1 else 0)
      && Uniform(headers)
  {
    headers := [];
    maxIndex := 0;
    if levels == 0 {
      if |valueTitles| > 0 {
        headers := ValueHeaders(valueTitles, valueColors, additionalNum);
        maxIndex := |valueTitles| - 1 + additionalNum;
      }
    } else {
      headers, maxIndex := BuildLevel(dataMap.entries, additionalNum, 0, levels, colors, valueColors, valueTitles, 0);
      NumChildrenCountsNodes(dataMap, levels, NumTitles(valueTitles));
      SameKindIsUniform(headers, 1 == levels && |valueTitles| <= 1);
    }
  }

  /** Leaf targets numbered by the builder are distinct, so the matrix gets one column (row) per leaf. */
  lemma BuiltTargetsAreDistinct(a: nat, b: nat)
    requires a <= b
    ensures forall i, j :: 0 <= i < j < |Range(a, b)| ==> Range(a, b)[i] != Range(a, b)[j]
    ensures forall t :: t in Range(a, b) <==> a <= t < b
  {
    forall t | a <= t < b
      ensures t in Range(a, b)
    {
      assert Range(a, b)[t - a] == t;
    }
  }
}
