/**
 * Sorting the header trees level by level (pivot-table-converter.ts: sortPivotData,
 * sortPivotDataHeadersRecursive, isValuesHeaders, createHeadersValuesMap, sortValueTargetIndexes,
 * filterIndexesByMod). A level is ordered either by header title or by the sum of the values that
 * a configured column (or row) of the other side holds for each header.
 */
module HeaderSorting {
  import opened Options
  import opened PivotConfig
  import opened PivotData
  import opened HeaderCounts
  import opened TransformationMap
  import opened Expressions
  import HeaderBuilder

  // ---------------------------------------------------------------------------------------------
  // sortValueTargetIndexes

  /** `valueTitles.findIndex(title)`: the first index holding the title, or -1. */
  function FindTitle(titles: seq<string>, title: string): (r: int)
    ensures -1 <= r < |titles|
    ensures r >= 0 ==> titles[r] == title && forall j :: 0 <= j < r ==> titles[j] != title
    ensures r == -1 ==> forall j :: 0 <= j < |titles| ==> titles[j] != title
  {
    if titles == [] then -1
    else if titles[0] == title then 0
    else
      var k := FindTitle(titles[1..], title);
      if k == -1 then -1 else k + 1
  }

  /** `headers.find(h => h.title === title)`, as the index of the first such header or -1. */
  function FindHeader(headers: seq<Header>, title: string): (r: int)
    ensures -1 <= r < |headers|
    ensures r >= 0 ==> headers[r].title == title && forall j :: 0 <= j < r ==> headers[j].title != title
    ensures r == -1 ==> forall j :: 0 <= j < |headers| ==> headers[j].title != title
  {
    if headers == [] then -1
    else if headers[0].title == title then 0
    else
      var k := FindHeader(headers[1..], title);
      if k == -1 then -1 else k + 1
  }

  /** filterIndexesByMod: the indexes congruent to `value` modulo `mod`, in their order. */
  function FilterIndexesByMod(indexes: seq<nat>, mod: nat, value: nat): (r: seq<nat>)
    requires mod > 0
    ensures |r| <= |indexes|
    ensures forall x :: x in r <==> x in indexes && x % mod == value
  {
    if indexes == [] then []
    else
      var k := |indexes| - 1;
      FilterIndexesByMod(indexes[..k], mod, value) + (if indexes[k] % mod == value then [indexes[k]] else [])
  }

  /** The value a sort list refers to: its title's index, or the only value when the title is unknown. */
  function ValueIndexFor(list: SortList, valueTitles: seq<string>): (r: Option<nat>)
    ensures r.Some? ==> r.value < |valueTitles|
  {
    var i := FindTitle(valueTitles, list.valueTitle);
    if i >= 0 then Some(i) else if |valueTitles| == 1 then Some(0) else None
  }

  /** The target indexes of the header reached when the list of sort values runs out. */
  function FinishWalk(pivot: Option<Header>, current: seq<Header>, mod: nat, valueIndex: nat): Option<seq<nat>>
    requires mod > 0
  {
    match pivot
    case None => None
    case Some(h) =>
      var targets := if h.node.Leaf? then [h.node.targetIndex] else TargetIndexesForHeaders(current);
      Some(FilterIndexesByMod(targets, mod, valueIndex))
  }

  /**
   * The walk down the other side's tree along the sort values: a summary value takes every leaf
   * below the current level, a title descends into the first header with that title, and a title
   * no header has ends the walk with nothing.
   */
  function WalkTargets(values: seq<SortValue>, current: seq<Header>, pivot: Option<Header>, mod: nat, valueIndex: nat): Option<seq<nat>>
    requires mod > 0
  {
    if values == [] then FinishWalk(pivot, current, mod, valueIndex)
    else if values[0].isSummary then Some(FilterIndexesByMod(TargetIndexesForHeaders(current), mod, valueIndex))
    else
      var found := FindHeader(current, values[0].title);
      if found == -1 then None
      else WalkTargets(values[1..], ChildrenOrEmpty(current[found]), Some(current[found]), mod, valueIndex)
  }

  /** The other side's lines whose values decide the order, or `None` when the level is sorted by title. */
  function ValueTargetIndexes(sort: Option<PivotSort>, otherSide: seq<Header>, valueTitles: seq<string>): Option<seq<nat>>
  {
    if sort.Some? && sort.value.list.Some? then
      match ValueIndexFor(sort.value.list.value, valueTitles)
      case None => None
      case Some(valueIndex) => WalkTargets(sort.value.list.value.values, otherSide, None, |valueTitles|, valueIndex)
    else None
  }

  /** sortValueTargetIndexes */
  method SortValueTargetIndexes(sort: Option<PivotSort>, otherSide: seq<Header>, valueTitles: seq<string>)
    returns (r: Option<seq<nat>>)
    ensures r == ValueTargetIndexes(sort, otherSide, valueTitles)
  {
    if sort.Some? && sort.value.list.Some? {
      var list := sort.value.list.value;
      var valueIndex := FindTitle(valueTitles, list.valueTitle);
      if valueIndex == -1 {
        if |valueTitles| == 1 {
          valueIndex := 0;
        } else {
          return None;
        }
      }
      var mod := |valueTitles|;
      var pivot: Option<Header> := None;
      var current := otherSide;
      var i := 0;
      while i < |list.values|
        invariant 0 <= i <= |list.values|
        invariant WalkTargets(list.values[i..], current, pivot, mod, valueIndex) == WalkTargets(list.values, otherSide, None, mod, valueIndex)
      {
        var value := list.values[i];
        assert list.values[i..][1..] == list.values[i + 1..];
        if value.isSummary {
          return Some(FilterIndexesByMod(TargetIndexesForHeaders(current), mod, valueIndex));
        }
        var found := FindHeader(current, value.title);
        if found == -1 {
          return None;
        }
        pivot := Some(current[found]);
        current := ChildrenOrEmpty(current[found]);
        i := i + 1;
      }
      if pivot.Some? {
        var targets := if pivot.value.node.Leaf? then [pivot.value.node.targetIndex] else TargetIndexesForHeaders(current);
        return Some(FilterIndexesByMod(targets, mod, valueIndex));
      }
    }
    return None;
  }

  /** Every leaf the walk can reach lies under the list it starts from. */
  predicate WalkInside(current: seq<Header>, pivot: Option<Header>, targets: seq<nat>)
  {
    && (forall x :: x in TargetIndexesOf(current) ==> x in targets)
    && (pivot.Some? && pivot.value.node.Leaf? ==> pivot.value.node.targetIndex in targets)
  }

  lemma {:induction false} WalkStaysInside(values: seq<SortValue>, current: seq<Header>, pivot: Option<Header>, mod: nat, valueIndex: nat, targets: seq<nat>)
    requires mod > 0 && WalkInside(current, pivot, targets)
    ensures var r := WalkTargets(values, current, pivot, mod, valueIndex);
      r.Some? ==> forall x :: x in r.value ==> x in targets && x % mod == valueIndex
  {
    if values == [] {
      if pivot.Some? && !pivot.value.node.Leaf? {
        var targets' := TargetIndexesForHeaders(current);
        assert forall x :: x in targets' ==> x in targets;
      }
    } else if values[0].isSummary {
      var targets' := TargetIndexesForHeaders(current);
      assert forall x :: x in targets' ==> x in targets;
    } else {
      var found := FindHeader(current, values[0].title);
      if found != -1 {
        var h := current[found];
        TargetsOfMember(current, found);
        assert WalkInside(ChildrenOrEmpty(h), Some(h), targets) by {
          if h.node.Leaf? {
            assert h.node.targetIndex in TargetIndexesForHeader(h);
          } else {
            assert TargetIndexesOf(ChildrenOrEmpty(h)) == TargetIndexesForHeader(h);
          }
        }
        WalkStaysInside(values[1..], ChildrenOrEmpty(h), Some(h), mod, valueIndex, targets);
      }
    }
  }

  /**
   * A sort by values only ever reads leaves of the other side's tree, and only those holding the
   * value the sort list names.
   */
  lemma SortTargetsAreOtherSideLeaves(sort: Option<PivotSort>, otherSide: seq<Header>, valueTitles: seq<string>)
    ensures var r := ValueTargetIndexes(sort, otherSide, valueTitles);
      r.Some? ==> (sort.Some? && sort.value.list.Some? && ValueIndexFor(sort.value.list.value, valueTitles).Some? &&
        forall x :: x in r.value ==>
          x in TargetIndexesOf(otherSide) && x % |valueTitles| == ValueIndexFor(sort.value.list.value, valueTitles).value)
  {
    if sort.Some? && sort.value.list.Some? {
      var vi := ValueIndexFor(sort.value.list.value, valueTitles);
      if vi.Some? {
        WalkStaysInside(sort.value.list.value.values, otherSide, None, |valueTitles|, vi.value, TargetIndexesOf(otherSide));
      }
    }
  }

  // ---------------------------------------------------------------------------------------------
  // The comparison

  /** The value a header is compared by: its title, or the sum of its values. */
  datatype SortKey = TitleKey(title: string) | NumberKey(number: real)

  /** Code-point lexicographic order on titles. */
  predicate LexLe(a: string, b: string)
  {
    a == [] || (b != [] && (a[0] < b[0] || (a[0] == b[0] && LexLe(a[1..], b[1..]))))
  }

  lemma LexLeTotal(a: string, b: string)
    ensures LexLe(a, b) || LexLe(b, a)
  {
  }

  lemma {:induction false} LexLeTransitive(a: string, b: string, c: string)
    requires LexLe(a, b) && LexLe(b, c)
    ensures LexLe(a, c)
  {
    if a != [] && a[0] == b[0] && b[0] == c[0] {
      LexLeTransitive(a[1..], b[1..], c[1..]);
    }
  }

  /** A total preorder on keys; numbers come before titles (one level never mixes the two). */
  predicate KeyLe(a: SortKey, b: SortKey)
  {
    match (a, b)
    case (NumberKey(x), NumberKey(y)) => x <= y
    case (TitleKey(s), TitleKey(t)) => LexLe(s, t)
    case (NumberKey(_), TitleKey(_)) => true
    case (TitleKey(_), NumberKey(_)) => false
  }

  /** `compareTo(...) * multiplier <= 0`: ascending unless the sort says otherwise. */
  predicate Before(a: SortKey, b: SortKey, asc: bool)
  {
    if asc then KeyLe(a, b) else KeyLe(b, a)
  }

  lemma BeforeTotal(a: SortKey, b: SortKey, asc: bool)
    ensures Before(a, b, asc) || Before(b, a, asc)
  {
    if a.TitleKey? && b.TitleKey? {
      LexLeTotal(a.title, b.title);
    }
  }

  lemma BeforeTransitive(a: SortKey, b: SortKey, c: SortKey, asc: bool)
    requires Before(a, b, asc) && Before(b, c, asc)
    ensures Before(a, c, asc)
  {
    if a.TitleKey? && b.TitleKey? && c.TitleKey? {
      if asc {
        LexLeTransitive(a.title, b.title, c.title);
      } else {
        LexLeTransitive(c.title, b.title, a.title);
      }
    }
  }

  function KeyOf(valuesMap: map<string, SortKey>, h: Header): SortKey
  {
    if h.title in valuesMap then valuesMap[h.title] else TitleKey(h.title)
  }

  // ---------------------------------------------------------------------------------------------
  // createHeadersValuesMap

  function KeyFor(h: Header, sortTargets: Option<seq<nat>>, values: seq<seq<Option<real>>>, isRows: bool): SortKey
  {
    match sortTargets
    case None => TitleKey(h.title)
    case Some(targets) =>
      NumberKey(if isRows then GridSum(values, TargetIndexesForHeader(h), targets) else GridSum(values, targets, TargetIndexesForHeader(h)))
  }

  /**
   * createHeadersValuesMap: each title maps to its key; a title repeated among the headers keeps the
   * key of its last header.
   */
  function HeadersValuesMap(headers: seq<Header>, sortTargets: Option<seq<nat>>, values: seq<seq<Option<real>>>, isRows: bool)
    : (r: map<string, SortKey>)
    ensures forall i :: 0 <= i < |headers| ==> headers[i].title in r
    ensures forall t :: t in r ==> exists i :: 0 <= i < |headers| && headers[i].title == t
    ensures sortTargets.None? ==> forall t :: t in r ==> r[t] == TitleKey(t)
  {
    if headers == [] then map[]
    else
      var k := |headers| - 1;
      var front := HeadersValuesMap(headers[..k], sortTargets, values, isRows);
      assert forall i :: 0 <= i < k ==> headers[..k][i] == headers[i];
      front[headers[k].title := KeyFor(headers[k], sortTargets, values, isRows)]
  }

  // ---------------------------------------------------------------------------------------------
  // The stable sort

  /** Places `x` after every header of `sorted` that does not come after it. */
  function Insert(x: Header, sorted: seq<Header>, valuesMap: map<string, SortKey>, asc: bool): (r: seq<Header>)
    ensures multiset(r) == multiset(sorted) + multiset{x}
  {
    if sorted == [] then [x]
    else
      var k := |sorted| - 1;
      assert sorted == sorted[..k] + [sorted[k]];
      if Before(KeyOf(valuesMap, sorted[k]), KeyOf(valuesMap, x), asc) then sorted + [x]
      else Insert(x, sorted[..k], valuesMap, asc) + [sorted[k]]
  }

  /** `Array.prototype.sort` with the key comparison: a stable insertion sort. */
  function SortBy(headers: seq<Header>, valuesMap: map<string, SortKey>, asc: bool): (r: seq<Header>)
    ensures multiset(r) == multiset(headers)
  {
    if headers == [] then []
    else
      var k := |headers| - 1;
      assert headers == headers[..k] + [headers[k]];
      Insert(headers[k], SortBy(headers[..k], valuesMap, asc), valuesMap, asc)
  }

  predicate SortedBy(headers: seq<Header>, valuesMap: map<string, SortKey>, asc: bool)
  {
    forall i, j :: 0 <= i < j < |headers| ==> Before(KeyOf(valuesMap, headers[i]), KeyOf(valuesMap, headers[j]), asc)
  }

  lemma {:induction false} InsertSorted(x: Header, sorted: seq<Header>, valuesMap: map<string, SortKey>, asc: bool)
    requires SortedBy(sorted, valuesMap, asc)
    ensures SortedBy(Insert(x, sorted, valuesMap, asc), valuesMap, asc)
  {
    if sorted != [] {
      var k := |sorted| - 1;
      if Before(KeyOf(valuesMap, sorted[k]), KeyOf(valuesMap, x), asc) {
        InsertAtEnd(x, sorted, valuesMap, asc);
      } else {
        assert SortedBy(sorted[..k], valuesMap, asc);
        InsertSorted(x, sorted[..k], valuesMap, asc);
        InsertBeforeLast(x, sorted, valuesMap, asc);
      }
    }
  }

  lemma InsertAtEnd(x: Header, sorted: seq<Header>, valuesMap: map<string, SortKey>, asc: bool)
    requires SortedBy(sorted, valuesMap, asc) && sorted != []
    requires Before(KeyOf(valuesMap, sorted[|sorted| - 1]), KeyOf(valuesMap, x), asc)
    ensures SortedBy(sorted + [x], valuesMap, asc)
  {
    var k := |sorted| - 1;
    forall i | 0 <= i < |sorted|
      ensures Before(KeyOf(valuesMap, sorted[i]), KeyOf(valuesMap, x), asc)
    {
      if i < k {
        BeforeTransitive(KeyOf(valuesMap, sorted[i]), KeyOf(valuesMap, sorted[k]), KeyOf(valuesMap, x), asc);
      }
    }
    SortedAppend(sorted, x, valuesMap, asc);
  }

  lemma InsertBeforeLast(x: Header, sorted: seq<Header>, valuesMap: map<string, SortKey>, asc: bool)
    requires SortedBy(sorted, valuesMap, asc) && sorted != []
    requires !Before(KeyOf(valuesMap, sorted[|sorted| - 1]), KeyOf(valuesMap, x), asc)
    requires SortedBy(Insert(x, sorted[..|sorted| - 1], valuesMap, asc), valuesMap, asc)
    ensures SortedBy(Insert(x, sorted[..|sorted| - 1], valuesMap, asc) + [sorted[|sorted| - 1]], valuesMap, asc)
  {
    var k := |sorted| - 1;
    var last := sorted[k];
    BeforeTotal(KeyOf(valuesMap, last), KeyOf(valuesMap, x), asc);
    var front := Insert(x, sorted[..k], valuesMap, asc);
    InsertMembers(x, sorted[..k], valuesMap, asc);
    forall i | 0 <= i < |front|
      ensures Before(KeyOf(valuesMap, front[i]), KeyOf(valuesMap, last), asc)
    {
      assert front[i] in front;
      if front[i] != x {
        var j :| 0 <= j < k && sorted[..k][j] == front[i];
        assert sorted[j] == front[i];
      }
    }
    SortedAppend(front, last, valuesMap, asc);
  }

  /** Appending a header that comes after every header of a sorted list keeps it sorted. */
  lemma SortedAppend(hs: seq<Header>, y: Header, valuesMap: map<string, SortKey>, asc: bool)
    requires SortedBy(hs, valuesMap, asc)
    requires forall i :: 0 <= i < |hs| ==> Before(KeyOf(valuesMap, hs[i]), KeyOf(valuesMap, y), asc)
    ensures SortedBy(hs + [y], valuesMap, asc)
  {
    var r := hs + [y];
    forall i, j | 0 <= i < j < |r|
      ensures Before(KeyOf(valuesMap, r[i]), KeyOf(valuesMap, r[j]), asc)
    {
      assert r[i] == hs[i];
      if j < |hs| {
        assert r[j] == hs[j];
      } else {
        assert r[j] == y;
      }
    }
  }

  /** An insertion holds the inserted header and the headers it was inserted among, and nothing else. */
  lemma InsertMembers(x: Header, sorted: seq<Header>, valuesMap: map<string, SortKey>, asc: bool)
    ensures forall y :: y in Insert(x, sorted, valuesMap, asc) ==> y == x || exists j :: 0 <= j < |sorted| && sorted[j] == y
  {
    var r := Insert(x, sorted, valuesMap, asc);
    forall y | y in r
      ensures y == x || exists j :: 0 <= j < |sorted| && sorted[j] == y
    {
      assert y in multiset(r);
      if y != x {
        assert y in multiset(sorted);
        assert y in sorted;
      }
    }
  }

  lemma {:induction false} SortBySorted(headers: seq<Header>, valuesMap: map<string, SortKey>, asc: bool)
    ensures SortedBy(SortBy(headers, valuesMap, asc), valuesMap, asc)
  {
    if headers != [] {
      var k := |headers| - 1;
      SortBySorted(headers[..k], valuesMap, asc);
      InsertSorted(headers[k], SortBy(headers[..k], valuesMap, asc), valuesMap, asc);
    }
  }

  /** Sorting a level moves whole headers: the leaves below it stay the same, counted with repetition. */
  lemma {:induction false} InsertKeepsTargets(x: Header, sorted: seq<Header>, valuesMap: map<string, SortKey>, asc: bool)
    ensures multiset(TargetIndexesOf(Insert(x, sorted, valuesMap, asc))) ==
      multiset(TargetIndexesOf(sorted)) + multiset(TargetIndexesForHeader(x))
  {
    if sorted != [] {
      var k := |sorted| - 1;
      assert (sorted + [x])[..|sorted|] == sorted;
      if !Before(KeyOf(valuesMap, sorted[k]), KeyOf(valuesMap, x), asc) {
        InsertKeepsTargets(x, sorted[..k], valuesMap, asc);
        var front := Insert(x, sorted[..k], valuesMap, asc);
        assert (front + [sorted[k]])[..|front|] == front;
      }
    } else {
      assert [x][..0] == [];
    }
  }

  lemma {:induction false} SortByKeepsTargets(headers: seq<Header>, valuesMap: map<string, SortKey>, asc: bool)
    ensures multiset(TargetIndexesOf(SortBy(headers, valuesMap, asc))) == multiset(TargetIndexesOf(headers))
  {
    if headers != [] {
      var k := |headers| - 1;
      SortByKeepsTargets(headers[..k], valuesMap, asc);
      InsertKeepsTargets(headers[k], SortBy(headers[..k], valuesMap, asc), valuesMap, asc);
    }
  }

  // ---------------------------------------------------------------------------------------------
  // sortPivotDataHeadersRecursive

  /** isValuesHeaders: more than one value title, and the headers are exactly the value-title leaves in order. */
  predicate IsValuesHeaders(headers: seq<Header>, valueTitles: seq<string>)
  {
    |valueTitles| > 1 && forall i :: 0 <= i < |headers| ==> headers[i].node.Leaf? && i < |valueTitles| && headers[i].title == valueTitles[i]
  }

  /** The value-title level the builder makes for several values is recognised, and column sorting leaves it in value order. */
  lemma ValueLevelIsNotSorted(valueTitles: seq<string>, valueColors: seq<Option<string>>, start: nat, index: nat,
                              sorts: seq<Option<PivotSort>>, otherSide: seq<Header>, values: seq<seq<Option<real>>>)
    requires |valueTitles| > 1
    ensures var level := HeaderBuilder.ValueHeaders(valueTitles, valueColors, start);
      IsValuesHeaders(level, valueTitles) && SortHeaders(level, index, sorts, otherSide, values, valueTitles, false) == level
  {
  }

  function Ascending(sort: Option<PivotSort>): bool
  {
    sort.None? || sort.value.asc
  }

  function SortAt(sorts: seq<Option<PivotSort>>, index: nat): Option<PivotSort>
  {
    if index < |sorts| then sorts[index] else None
  }

  /** sortPivotDataHeadersRecursive: the value-title level of the columns stays as it is. */
  function SortHeaders(headers: seq<Header>, index: nat, sorts: seq<Option<PivotSort>>, otherSide: seq<Header>,
                       values: seq<seq<Option<real>>>, valueTitles: seq<string>, isRows: bool): (r: seq<Header>)
    ensures |r| == |headers|
    decreases headers, 1
  {
    if !isRows && IsValuesHeaders(headers, valueTitles) then headers
    else
      var sort := SortAt(sorts, index);
      var valuesMap := HeadersValuesMap(headers, ValueTargetIndexes(sort, otherSide, valueTitles), values, isRows);
      var mapped := SortChildren(headers, index, sorts, otherSide, values, valueTitles, isRows);
      assert |multiset(mapped)| == |headers|;
      SortBy(SortChildren(headers, index, sorts, otherSide, values, valueTitles, isRows), valuesMap, Ascending(sort))
  }

  /** `headers.map(...)`: every header with its children sorted one level deeper. */
  function SortChildren(headers: seq<Header>, index: nat, sorts: seq<Option<PivotSort>>, otherSide: seq<Header>,
                        values: seq<seq<Option<real>>>, valueTitles: seq<string>, isRows: bool): (r: seq<Header>)
    ensures |r| == |headers|
    decreases headers, 0
  {
    if headers == [] then []
    else
      var k := |headers| - 1;
      SortChildren(headers[..k], index, sorts, otherSide, values, valueTitles, isRows)
        + [SortHeader(headers[k], index, sorts, otherSide, values, valueTitles, isRows)]
  }

  function SortHeader(h: Header, index: nat, sorts: seq<Option<PivotSort>>, otherSide: seq<Header>,
                      values: seq<seq<Option<real>>>, valueTitles: seq<string>, isRows: bool): Header
    decreases h, 2
  {
    match h.node
    case Leaf(_) => h
    case Group(children) => h.(node := Group(SortHeaders(children, index + 1, sorts, otherSide, values, valueTitles, isRows)))
  }

  lemma {:induction false} SortChildrenAt(headers: seq<Header>, index: nat, sorts: seq<Option<PivotSort>>, otherSide: seq<Header>,
                                          values: seq<seq<Option<real>>>, valueTitles: seq<string>, isRows: bool, i: nat)
    requires i < |headers|
    ensures SortChildren(headers, index, sorts, otherSide, values, valueTitles, isRows)[i] ==
      SortHeader(headers[i], index, sorts, otherSide, values, valueTitles, isRows)
  {
    var k := |headers| - 1;
    if i < k {
      SortChildrenAt(headers[..k], index, sorts, otherSide, values, valueTitles, isRows, i);
    }
  }

  /** Each level comes out in key order: ascending, or descending when the level's sort says so. */
  lemma LevelIsSorted(headers: seq<Header>, index: nat, sorts: seq<Option<PivotSort>>, otherSide: seq<Header>,
                      values: seq<seq<Option<real>>>, valueTitles: seq<string>, isRows: bool)
    requires isRows || !IsValuesHeaders(headers, valueTitles)
    ensures var sort := SortAt(sorts, index);
      SortedBy(SortHeaders(headers, index, sorts, otherSide, values, valueTitles, isRows),
               HeadersValuesMap(headers, ValueTargetIndexes(sort, otherSide, valueTitles), values, isRows), Ascending(sort))
  {
    var sort := SortAt(sorts, index);
    SortBySorted(SortChildren(headers, index, sorts, otherSide, values, valueTitles, isRows),
                 HeadersValuesMap(headers, ValueTargetIndexes(sort, otherSide, valueTitles), values, isRows), Ascending(sort));
  }

  /** Sorting rearranges headers only: every tree keeps its leaves, counted with repetition. */
  lemma {:induction false} SortKeepsTargets(headers: seq<Header>, index: nat, sorts: seq<Option<PivotSort>>, otherSide: seq<Header>,
                                            values: seq<seq<Option<real>>>, valueTitles: seq<string>, isRows: bool)
    ensures multiset(TargetIndexesOf(SortHeaders(headers, index, sorts, otherSide, values, valueTitles, isRows))) ==
      multiset(TargetIndexesOf(headers))
    decreases headers, 1
  {
    if isRows || !IsValuesHeaders(headers, valueTitles) {
      var sort := SortAt(sorts, index);
      var valuesMap := HeadersValuesMap(headers, ValueTargetIndexes(sort, otherSide, valueTitles), values, isRows);
      SortChildrenKeepsTargets(headers, index, sorts, otherSide, values, valueTitles, isRows);
      SortByKeepsTargets(SortChildren(headers, index, sorts, otherSide, values, valueTitles, isRows), valuesMap, Ascending(sort));
    }
  }

  lemma {:induction false} SortChildrenKeepsTargets(headers: seq<Header>, index: nat, sorts: seq<Option<PivotSort>>, otherSide: seq<Header>,
                                                    values: seq<seq<Option<real>>>, valueTitles: seq<string>, isRows: bool)
    ensures multiset(TargetIndexesOf(SortChildren(headers, index, sorts, otherSide, values, valueTitles, isRows))) ==
      multiset(TargetIndexesOf(headers))
    decreases headers, 0
  {
    if headers != [] {
      var k := |headers| - 1;
      var front := SortChildren(headers[..k], index, sorts, otherSide, values, valueTitles, isRows);
      var h := SortHeader(headers[k], index, sorts, otherSide, values, valueTitles, isRows);
      assert (front + [h])[..|front|] == front;
      SortChildrenKeepsTargets(headers[..k], index, sorts, otherSide, values, valueTitles, isRows);
      if headers[k].node.Group? {
        SortKeepsTargets(headers[k].node.children, index + 1, sorts, otherSide, values, valueTitles, isRows);
      }
    }
  }

  predicate AllLeaves(hs: seq<Header>)
  {
    forall i :: 0 <= i < |hs| ==> hs[i].node.Leaf?
  }

  predicate AllUniformGroups(hs: seq<Header>)
  {
    forall i :: 0 <= i < |hs| ==> hs[i].node.Group? && Uniform(hs[i].node.children)
  }

  /** A rearrangement of a list keeps its headers, so it stays all leaves or all uniform groups. */
  lemma RearrangedKinds(hs: seq<Header>, r: seq<Header>)
    requires multiset(r) == multiset(hs)
    ensures AllLeaves(hs) ==> AllLeaves(r)
    ensures AllUniformGroups(hs) ==> AllUniformGroups(r)
  {
    forall i | 0 <= i < |r|
      ensures exists j :: 0 <= j < |hs| && r[i] == hs[j]
    {
      assert r[i] in multiset(hs);
    }
  }

  /** Sorting the children of each header keeps the kind of every header and the uniformity of its children. */
  lemma {:induction false} SortChildrenKinds(headers: seq<Header>, index: nat, sorts: seq<Option<PivotSort>>, otherSide: seq<Header>,
                                             values: seq<seq<Option<real>>>, valueTitles: seq<string>, isRows: bool)
    requires Uniform(headers)
    ensures var mapped := SortChildren(headers, index, sorts, otherSide, values, valueTitles, isRows);
      (AllLeaves(headers) ==> AllLeaves(mapped)) && (AllUniformGroups(headers) ==> AllUniformGroups(mapped))
    decreases headers, 0
  {
    var mapped := SortChildren(headers, index, sorts, otherSide, values, valueTitles, isRows);
    forall i | 0 <= i < |mapped|
      ensures mapped[i].node.Leaf? <==> headers[i].node.Leaf?
      ensures headers[i].node.Group? && Uniform(headers[i].node.children) ==> Uniform(mapped[i].node.children)
    {
      SortChildrenAt(headers, index, sorts, otherSide, values, valueTitles, isRows, i);
      if headers[i].node.Group? && Uniform(headers[i].node.children) {
        SortKeepsUniform(headers[i].node.children, index + 1, sorts, otherSide, values, valueTitles, isRows);
      }
    }
  }

  /** Sorting keeps a tree uniform, so its leaves can still be laid out line by line. */
  lemma {:induction false} SortKeepsUniform(headers: seq<Header>, index: nat, sorts: seq<Option<PivotSort>>, otherSide: seq<Header>,
                                            values: seq<seq<Option<real>>>, valueTitles: seq<string>, isRows: bool)
    requires Uniform(headers)
    ensures Uniform(SortHeaders(headers, index, sorts, otherSide, values, valueTitles, isRows))
    decreases headers, 1
  {
    if isRows || !IsValuesHeaders(headers, valueTitles) {
      var sort := SortAt(sorts, index);
      var valuesMap := HeadersValuesMap(headers, ValueTargetIndexes(sort, otherSide, valueTitles), values, isRows);
      var mapped := SortChildren(headers, index, sorts, otherSide, values, valueTitles, isRows);
      SortChildrenKinds(headers, index, sorts, otherSide, values, valueTitles, isRows);
      RearrangedKinds(mapped, SortBy(mapped, valuesMap, Ascending(sort)));
    }
  }

  function RowSorts(data: StemData): seq<Option<PivotSort>>
  {
    seq(|data.rowsConfig|, i requires 0 <= i < |data.rowsConfig| => data.rowsConfig[i].sort)
  }

  function ColumnSorts(data: StemData): seq<Option<PivotSort>>
  {
    seq(|data.columnsConfig|, i requires 0 <= i < |data.columnsConfig| => data.columnsConfig[i].sort)
  }

  /** sortPivotData: both trees are sorted by their levels' sorts, each against the other; nothing else changes. */
  function SortPivotData(data: StemData): (r: StemData)
    ensures r == data.(rowHeaders := r.rowHeaders, columnHeaders := r.columnHeaders)
    ensures |r.rowHeaders| == |data.rowHeaders| && |r.columnHeaders| == |data.columnHeaders|
  {
    var rows := SortHeaders(data.rowHeaders, 0, RowSorts(data), data.columnHeaders, data.values, data.valueTitles, true);
    var columns := SortHeaders(data.columnHeaders, 0, ColumnSorts(data), data.rowHeaders, data.values, data.valueTitles, false);
    data.(rowHeaders := rows, columnHeaders := columns)
  }

  /** Sorting the model keeps every leaf of both trees, and keeps uniform trees uniform. */
  lemma SortPivotDataKeepsLeaves(data: StemData)
    ensures var r := SortPivotData(data);
      && multiset(TargetIndexesOf(r.rowHeaders)) == multiset(TargetIndexesOf(data.rowHeaders))
      && multiset(TargetIndexesOf(r.columnHeaders)) == multiset(TargetIndexesOf(data.columnHeaders))
      && (Uniform(data.rowHeaders) ==> Uniform(r.rowHeaders))
      && (Uniform(data.columnHeaders) ==> Uniform(r.columnHeaders))
  {
    SortKeepsTargets(data.rowHeaders, 0, RowSorts(data), data.columnHeaders, data.values, data.valueTitles, true);
    SortKeepsTargets(data.columnHeaders, 0, ColumnSorts(data), data.rowHeaders, data.values, data.valueTitles, false);
    if Uniform(data.rowHeaders) {
      SortKeepsUniform(data.rowHeaders, 0, RowSorts(data), data.columnHeaders, data.values, data.valueTitles, true);
    }
    if Uniform(data.columnHeaders) {
      SortKeepsUniform(data.columnHeaders, 0, ColumnSorts(data), data.rowHeaders, data.values, data.valueTitles, false);
    }
  }
}
