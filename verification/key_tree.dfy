/**
 * The aggregated data map (pivot-data-converter.ts): a nested object keyed by header titles whose
 * innermost values are arrays of aggregated data. Object keys are kept in insertion order, as
 * `Object.keys` returns them for non-numeric keys. An aggregated data value is reduced to the
 * resource it belongs to (id and type) and a number.
 * The source's `map` field is called `dataMap` here (`map` is a Dafny keyword).
 */
module KeyTree {
  import opened Options

  datatype Tree = Map(entries: seq<Entry>) | Items(items: seq<AggregatedValue>)
  datatype Entry = Entry(key: string, value: Tree)

  /** Whether a resource is a collection (documents) or a link type (link instances). */
  datatype ResourceType = CollectionResource | LinkTypeResource

  /** The resource a value attribute reads: its id and its type. */
  datatype ValueResource = ValueResource(resourceId: string, resourceType: ResourceType)

  /** One aggregated data value: the resource it belongs to and its number. */
  datatype AggregatedValue = AggregatedValue(resourceId: string, resourceType: ResourceType, value: real)

  /** `agg.resourceId === valueAttribute.resourceId && agg.type === valueAttribute.resourceType`. */
  predicate BelongsTo(item: AggregatedValue, resource: ValueResource)
  {
    item.resourceId == resource.resourceId && item.resourceType == resource.resourceType
  }

  function Keys(es: seq<Entry>): (r: seq<string>)
    ensures |r| == |es| && forall i :: 0 <= i < |es| ==> r[i] == es[i].key
  {
    if es == [] then [] else Keys(es[..|es| - 1]) + [es[|es| - 1].key]
  }

  /** An object never holds the same key twice. */
  predicate DistinctKeys(es: seq<Entry>)
  {
    forall i, j :: 0 <= i < j < |es| ==> es[i].key != es[j].key
  }

  /** `m[key]`, undefined when the key is missing. */
  function Lookup(es: seq<Entry>, key: string): (r: Option<Tree>)
    ensures r.None? <==> key !in Keys(es)
    ensures r.Some? ==> exists i :: 0 <= i < |es| && es[i] == Entry(key, r.value)
  {
    if es == [] then None
    else if es[|es| - 1].key == key && key !in Keys(es[..|es| - 1]) then Some(es[|es| - 1].value)
    else
      var r := Lookup(es[..|es| - 1], key);
      if r.Some? then
        var i :| 0 <= i < |es| - 1 && es[..|es| - 1][i] == Entry(key, r.value);
        assert es[i] == Entry(key, r.value);
        r
      else r
  }

  lemma LookupOfDistinct(es: seq<Entry>, i: nat)
    requires DistinctKeys(es) && i < |es|
    ensures Lookup(es, es[i].key) == Some(es[i].value)
  {
    if i < |es| - 1 {
      assert es[|es| - 1].key != es[i].key;
      LookupOfDistinct(es[..|es| - 1], i);
    } else {
      var front := es[..|es| - 1];
      assert forall j :: 0 <= j < |front| ==> Keys(front)[j] == front[j].key && front[j] == es[j] && es[j].key != es[i].key;
    }
  }

  // ---------------------------------------------------------------------------------------------
  // mergeMaps

  /** The value a merged key ends up with: arrays concatenate, objects merge, mismatches keep `v1`. */
  function MergeValue(v1: Tree, v2: Tree): (r: Tree)
    ensures v1.Items? && v2.Items? ==> r == Items(v1.items + v2.items)
    ensures v1.Map? && v2.Map? ==> r == Map(MergeEntries(v1.entries, v2.entries))
    ensures v1.Items? != v2.Items? ==> r == v1
    decreases v2, 0
  {
    if v1.Items? && v2.Items? then Items(v1.items + v2.items)
    else if v1.Map? && v2.Map? then Map(MergeEntries(v1.entries, v2.entries))
    else v1
  }

  /** One key of `m2` merged into `m1`: an existing key is combined in place, a new one appended. */
  function MergeKey(m1: seq<Entry>, key: string, v2: Tree): seq<Entry>
    decreases v2, 1
  {
    if key in Keys(m1) then
      var i := IndexOfKey(m1, key);
      m1[i := Entry(key, MergeValue(m1[i].value, v2))]
    else m1 + [Entry(key, v2)]
  }

  /** mergeMaps(m1, m2): the keys of `m2` in order, each merged into the map built so far. */
  function MergeEntries(m1: seq<Entry>, m2: seq<Entry>): seq<Entry>
    decreases m2, 2
  {
    if m2 == [] then m1
    else MergeKey(MergeEntries(m1, m2[..|m2| - 1]), m2[|m2| - 1].key, m2[|m2| - 1].value)
  }

  function IndexOfKey(es: seq<Entry>, key: string): (i: nat)
    requires key in Keys(es)
    ensures i < |es| && es[i].key == key && forall j :: 0 <= j < i ==> es[j].key != key
  {
    if es[0].key == key then 0
    else
      assert key in Keys(es[1..]) by {
        var j :| 0 <= j < |es| && Keys(es)[j] == key;
        assert Keys(es[1..])[j - 1] == key;
      }
      1 + IndexOfKey(es[1..], key)
  }

  /** mergeMaps, as the loop over `Object.keys(m2)` that updates `m1`. */
  method MergeMaps(m1: seq<Entry>, m2: seq<Entry>) returns (merged: seq<Entry>)
    ensures merged == MergeEntries(m1, m2)
    decreases m2
  {
    merged := m1;
    var i := 0;
    while i < |m2|
      invariant 0 <= i <= |m2|
      invariant merged == MergeEntries(m1, m2[..i])
    {
      assert m2[..i + 1][..i] == m2[..i];
      var key := m2[i].key;
      var v2 := m2[i].value;
      if key in Keys(merged) {
        var at := IndexOfKey(merged, key);
        var v1 := merged[at].value;
        if v1.Items? && v2.Items? {
          merged := merged[at := Entry(key, Items(v1.items + v2.items))];
        } else if v1.Map? && v2.Map? {
          var inner := MergeMaps(v1.entries, v2.entries);
          merged := merged[at := Entry(key, Map(inner))];
        }
      } else {
        merged := merged + [Entry(key, v2)];
      }
      i := i + 1;
    }
    assert m2[..i] == m2;
  }

  /** How a key's two values combine. */
  function Combine(v1: Option<Tree>, v2: Option<Tree>): Option<Tree>
  {
    if v1.None? then v2 else if v2.None? then v1 else Some(MergeValue(v1.value, v2.value))
  }

  lemma MergeKeyKeys(m: seq<Entry>, key: string, v2: Tree)
    ensures forall k :: k in Keys(MergeKey(m, key, v2)) <==> k in Keys(m) || k == key
    ensures |m| <= |MergeKey(m, key, v2)| && Keys(MergeKey(m, key, v2))[..|m|] == Keys(m)
  {
    var r := MergeKey(m, key, v2);
    if key in Keys(m) {
      var i := IndexOfKey(m, key);
      assert Keys(r) == Keys(m);
    } else {
      assert Keys(r) == Keys(m) + [key];
    }
  }

  lemma MergeKeyDistinct(m: seq<Entry>, key: string, v2: Tree)
    requires DistinctKeys(m)
    ensures DistinctKeys(MergeKey(m, key, v2))
  {
    if key !in Keys(m) {
      var r := MergeKey(m, key, v2);
      forall i, j | 0 <= i < j < |r|
        ensures r[i].key != r[j].key
      {
        if j == |m| {
          assert Keys(m)[i] == r[i].key;
        }
      }
    }
  }

  lemma MergeKeyLookup(m: seq<Entry>, key: string, v2: Tree, k: string)
    requires DistinctKeys(m)
    ensures Lookup(MergeKey(m, key, v2), k) == if k == key then Combine(Lookup(m, key), Some(v2)) else Lookup(m, k)
  {
    MergeKeyDistinct(m, key, v2);
    MergeKeyKeys(m, key, v2);
    if key in Keys(m) {
      MergeExistingKeyLookup(m, key, v2, k);
    } else {
      MergeNewKeyLookup(m, key, v2, k);
    }
  }

  /** Merging a key that is already present replaces its value and leaves the other keys alone. */
  lemma MergeExistingKeyLookup(m: seq<Entry>, key: string, v2: Tree, k: string)
    requires DistinctKeys(m) && key in Keys(m) && DistinctKeys(MergeKey(m, key, v2))
    ensures Lookup(MergeKey(m, key, v2), k) == if k == key then Combine(Lookup(m, key), Some(v2)) else Lookup(m, k)
  {
    var r := MergeKey(m, key, v2);
    var i := IndexOfKey(m, key);
    LookupOfDistinct(m, i);
    LookupOfDistinct(r, i);
    if k != key {
      if k in Keys(m) {
        var j :| 0 <= j < |m| && Keys(m)[j] == k;
        LookupOfDistinct(m, j);
        LookupOfDistinct(r, j);
      } else {
        assert Keys(r) == Keys(m);
      }
    }
  }

  /** Merging a new key appends it and leaves the other keys alone. */
  lemma MergeNewKeyLookup(m: seq<Entry>, key: string, v2: Tree, k: string)
    requires DistinctKeys(m) && key !in Keys(m)
    ensures Lookup(MergeKey(m, key, v2), k) == if k == key then Combine(Lookup(m, key), Some(v2)) else Lookup(m, k)
  {
    var r := MergeKey(m, key, v2);
    assert r[..|m|] == m;
    LookupBeforeLast(r, k);
  }

  /**
   * After mergeMaps every key of either map is present; a key of one map only keeps its value,
   * and a key of both gets the combination of the two values.
   */
  lemma {:induction false} MergeLookup(m1: seq<Entry>, m2: seq<Entry>, key: string)
    requires DistinctKeys(m1) && DistinctKeys(m2)
    ensures DistinctKeys(MergeEntries(m1, m2))
    ensures Lookup(MergeEntries(m1, m2), key) == Combine(Lookup(m1, key), Lookup(m2, key))
  {
    if m2 != [] {
      var k := |m2| - 1;
      var front := m2[..k];
      assert DistinctKeys(front);
      MergeLookup(m1, front, key);
      var prev := MergeEntries(m1, front);
      MergeKeyDistinct(prev, m2[k].key, m2[k].value);
      MergeKeyLookup(prev, m2[k].key, m2[k].value, key);
      LastKeyIsFresh(m2);
      LookupBeforeLast(m2, key);
    }
  }

  /** In an object with distinct keys, the last key is not among the earlier ones. */
  lemma LastKeyIsFresh(es: seq<Entry>)
    requires DistinctKeys(es) && es != []
    ensures Lookup(es[..|es| - 1], es[|es| - 1].key).None?
    ensures Lookup(es, es[|es| - 1].key) == Some(es[|es| - 1].value)
  {
    var front := es[..|es| - 1];
    var key := es[|es| - 1].key;
    forall j | 0 <= j < |front|
      ensures Keys(front)[j] != key
    {
      assert es[j].key != es[|es| - 1].key;
    }
  }

  /** A key other than the last one is looked up among the earlier entries. */
  lemma LookupBeforeLast(es: seq<Entry>, key: string)
    requires es != []
    ensures key != es[|es| - 1].key ==> Lookup(es, key) == Lookup(es[..|es| - 1], key)
  {
  }

  /** The keys of `m1` keep their positions, and the new keys of `m2` follow. */
  lemma {:induction false} MergeKeepsKeyOrder(m1: seq<Entry>, m2: seq<Entry>)
    ensures |m1| <= |MergeEntries(m1, m2)| && Keys(MergeEntries(m1, m2))[..|m1|] == Keys(m1)
    ensures forall k :: k in Keys(MergeEntries(m1, m2)) <==> k in Keys(m1) || k in Keys(m2)
  {
    if m2 != [] {
      var k := |m2| - 1;
      MergeKeepsKeyOrder(m1, m2[..k]);
      var prev := MergeEntries(m1, m2[..k]);
      MergeKeyKeys(prev, m2[k].key, m2[k].value);
      assert Keys(m2) == Keys(m2[..k]) + [m2[k].key];
    }
  }

  // ---------------------------------------------------------------------------------------------
  // mergeAggregatedData

  datatype AggregatedData = AggregatedData(dataMap: seq<Entry>, columnsMap: seq<Entry>, rowLevels: nat, columnLevels: nat)

  /** mergeAggregatedData: a missing side yields the other; otherwise both maps merge and the levels are the larger. */
  method MergeAggregatedData(a1: Option<AggregatedData>, a2: Option<AggregatedData>) returns (r: Option<AggregatedData>)
    ensures a1.None? ==> r == a2
    ensures a1.Some? && a2.None? ==> r == a1
    ensures a1.Some? && a2.Some? ==> (r.Some?
      && r.value.dataMap == MergeEntries(a1.value.dataMap, a2.value.dataMap)
      && r.value.columnsMap == MergeEntries(a1.value.columnsMap, a2.value.columnsMap)
      && r.value.rowLevels >= a1.value.rowLevels && r.value.rowLevels >= a2.value.rowLevels
      && (r.value.rowLevels == a1.value.rowLevels || r.value.rowLevels == a2.value.rowLevels)
      && r.value.columnLevels >= a1.value.columnLevels && r.value.columnLevels >= a2.value.columnLevels
      && (r.value.columnLevels == a1.value.columnLevels || r.value.columnLevels == a2.value.columnLevels))
  {
    if a1.None? || a2.None? {
      return if a1.Some? then a1 else a2;
    }
    var dataMap := MergeMaps(a1.value.dataMap, a2.value.dataMap);
    var columnsMap := MergeMaps(a1.value.columnsMap, a2.value.columnsMap);
    var rowLevels := if a1.value.rowLevels >= a2.value.rowLevels then a1.value.rowLevels else a2.value.rowLevels;
    var columnLevels := if a1.value.columnLevels >= a2.value.columnLevels then a1.value.columnLevels else a2.value.columnLevels;
    r := Some(AggregatedData(dataMap, columnsMap, rowLevels, columnLevels));
  }

  // ---------------------------------------------------------------------------------------------
  // numChildren

  /** `Object.keys(map || {}).length`; an array's keys are its indexes. */
  function KeyCount(t: Tree): nat
  {
    match t
    case Map(es) => |es|
    case Items(xs) => |xs|
  }

  /** The sum of numChildrenRecursive over a sibling list. */
  function EntriesRecursive(es: seq<Entry>, level: nat, maxLevels: nat): nat
    decreases es, 0
  {
    if es == [] then 0
    else EntriesRecursive(es[..|es| - 1], level, maxLevels) + NumChildrenRecursive(es[|es| - 1].value, level, maxLevels)
  }

  /** numChildrenRecursive; the elements of an array have no nested keys here. */
  function NumChildrenRecursive(t: Tree, level: nat, maxLevels: nat): nat
    decreases t, 1
  {
    if level >= maxLevels then 0
    else if level + 1 == maxLevels then KeyCount(t)
    else if t.Map? then EntriesRecursive(t.entries, level + 1, maxLevels)
    else 0
  }

  /** numChildren: the number of grid lines (targets) a map of the given depth spans. */
  function NumChildren(t: Tree, maxLevels: nat, numTitles: nat): nat
  {
    if maxLevels == 0 then numTitles
    else if maxLevels == 1 then KeyCount(t) * numTitles
    else (if t.Map? then EntriesRecursive(t.entries, 1, maxLevels) else 0) * numTitles
  }

  /** The number of nodes `depth` levels below `t`. */
  function NodesAtDepth(t: Tree, depth: nat): nat
    decreases t, 1
  {
    if depth == 0 then 1
    else match t
      case Map(es) => EntriesNodes(es, depth - 1)
      case Items(xs) => if depth == 1 then |xs| else 0
  }

  function EntriesNodes(es: seq<Entry>, depth: nat): nat
    decreases es, 0
  {
    if es == [] then 0 else EntriesNodes(es[..|es| - 1], depth) + NodesAtDepth(es[|es| - 1].value, depth)
  }

  lemma {:induction false} EntriesNodesAtDepthZero(es: seq<Entry>)
    ensures EntriesNodes(es, 0) == |es|
  {
    if es != [] {
      EntriesNodesAtDepthZero(es[..|es| - 1]);
    }
  }

  lemma {:induction false} RecursiveCountsNodes(t: Tree, level: nat, maxLevels: nat)
    requires level < maxLevels
    ensures NumChildrenRecursive(t, level, maxLevels) == NodesAtDepth(t, maxLevels - level)
    decreases t, 1
  {
    if level + 1 == maxLevels {
      if t.Map? {
        EntriesNodesAtDepthZero(t.entries);
      }
    } else if t.Map? {
      EntriesRecursiveCountsNodes(t.entries, level + 1, maxLevels);
    }
  }

  lemma {:induction false} EntriesRecursiveCountsNodes(es: seq<Entry>, level: nat, maxLevels: nat)
    requires level < maxLevels
    ensures EntriesRecursive(es, level, maxLevels) == EntriesNodes(es, maxLevels - level)
    decreases es, 0
  {
    if es != [] {
      EntriesRecursiveCountsNodes(es[..|es| - 1], level, maxLevels);
      RecursiveCountsNodes(es[|es| - 1].value, level, maxLevels);
    }
  }

  /** numChildren is the number of nodes at depth `maxLevels` times the number of value titles. */
  lemma NumChildrenCountsNodes(t: Tree, maxLevels: nat, numTitles: nat)
    ensures NumChildren(t, maxLevels, numTitles) == NodesAtDepth(t, maxLevels) * numTitles
  {
    if maxLevels == 1 && t.Map? {
      EntriesNodesAtDepthZero(t.entries);
    } else if maxLevels > 1 && t.Map? {
      EntriesRecursiveCountsNodes(t.entries, 1, maxLevels);
    }
  }
}
