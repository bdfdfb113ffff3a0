/**
 * Grouping the stem configurations into pivot tables (pivot-data-converter.ts): dropping empty
 * configurations, classifying each by which attribute lists it has, and collecting mergeable
 * configurations into one table each.
 */
module StemMerging {
  import opened Options
  import opened PivotConfig

  datatype ConfigType = Values | Rows | Columns | RowsAndColumns

  /** getPivotStemConfigType */
  function GetPivotStemConfigType(config: StemConfig): (r: ConfigType)
    ensures r == RowsAndColumns <==> |OrEmpty(config.rowAttributes)| > 0 && |OrEmpty(config.columnAttributes)| > 0
    ensures r == Rows <==> |OrEmpty(config.rowAttributes)| > 0 && |OrEmpty(config.columnAttributes)| == 0
    ensures r == Columns <==> |OrEmpty(config.rowAttributes)| == 0 && |OrEmpty(config.columnAttributes)| > 0
    ensures r == Values <==> |OrEmpty(config.rowAttributes)| == 0 && |OrEmpty(config.columnAttributes)| == 0
  {
    var rowLength := |OrEmpty(config.rowAttributes)|;
    var columnLength := |OrEmpty(config.columnAttributes)|;
    if rowLength > 0 && columnLength > 0 then RowsAndColumns
    else if rowLength > 0 then Rows
    else if columnLength > 0 then Columns
    else Values
  }

  /** canMergeConfigsByType: only the attribute counts the type uses are compared. */
  predicate CanMergeConfigsByType(t: ConfigType, c1: StemConfig, c2: StemConfig)
  {
    var sameRows := |OrEmpty(c1.rowAttributes)| == |OrEmpty(c2.rowAttributes)|;
    var sameColumns := |OrEmpty(c1.columnAttributes)| == |OrEmpty(c2.columnAttributes)|;
    if t == Rows then sameRows
    else if t == Columns then sameColumns
    else sameRows && sameColumns
  }

  /** Configurations of one type merge when their counts agree; the relation is an equivalence. */
  lemma CanMergeIsEquivalence(t: ConfigType, c1: StemConfig, c2: StemConfig, c3: StemConfig)
    ensures CanMergeConfigsByType(t, c1, c1)
    ensures CanMergeConfigsByType(t, c1, c2) ==> CanMergeConfigsByType(t, c2, c1)
    ensures CanMergeConfigsByType(t, c1, c2) && CanMergeConfigsByType(t, c2, c3) ==> CanMergeConfigsByType(t, c1, c3)
  {
  }

  // ---------------------------------------------------------------------------------------------
  // filterEmptyConfigs

  /** `(query.stems || [])[index]`: undefined past the end. */
  function StemAt(stems: seq<QueryStem>, index: nat): Option<QueryStem>
  {
    if index < |stems| then Some(stems[index]) else None
  }

  /** The positions of the non-empty configurations, ascending. */
  function NonEmptyIndexes(configs: seq<StemConfig>): (r: seq<nat>)
    ensures forall i :: i in r <==> 0 <= i < |configs| && !StemConfigIsEmpty(configs[i])
    ensures forall a :: 0 <= a < |r| ==> r[a] < |configs|
    ensures forall a, b :: 0 <= a < b < |r| ==> r[a] < r[b]
  {
    if configs == [] then []
    else
      var k := |configs| - 1;
      var front := NonEmptyIndexes(configs[..k]);
      var r := front + (if StemConfigIsEmpty(configs[k]) then [] else [k]);
      NonEmptyIndexesStep(configs, front, r);
      r
  }

  /** One more configuration: its position is kept exactly when it is not empty. */
  lemma NonEmptyIndexesStep(configs: seq<StemConfig>, front: seq<nat>, r: seq<nat>)
    requires configs != []
    requires forall i :: i in front <==> 0 <= i < |configs| - 1 && !StemConfigIsEmpty(configs[..|configs| - 1][i])
    requires forall a, b :: 0 <= a < b < |front| ==> front[a] < front[b]
    requires r == front + (if StemConfigIsEmpty(configs[|configs| - 1]) then [] else [|configs| - 1])
    ensures forall i :: i in r <==> 0 <= i < |configs| && !StemConfigIsEmpty(configs[i])
    ensures forall a :: 0 <= a < |r| ==> r[a] < |configs|
    ensures forall a, b :: 0 <= a < b < |r| ==> r[a] < r[b]
  {
    var k := |configs| - 1;
    forall a | 0 <= a < |front|
      ensures front[a] < k
    {
      assert front[a] in front;
    }
    assert forall i :: 0 <= i < k ==> configs[..k][i] == configs[i];
  }

  datatype Filtered = Filtered(stemsConfigs: seq<StemConfig>, stems: seq<Option<QueryStem>>)

  /**
   * filterEmptyConfigs: the non-empty configurations in order, each with the query stem at its
   * own position in the configuration list.
   */
  function FilterEmptyConfigs(config: Config, query: Query): (r: Filtered)
    ensures var configs := OrEmpty(config.stemsConfigs); var kept := NonEmptyIndexes(configs);
      && |r.stemsConfigs| == |r.stems| == |kept|
      && forall k :: 0 <= k < |kept| ==>
           r.stemsConfigs[k] == configs[kept[k]] && r.stems[k] == StemAt(OrEmpty(query.stems), kept[k])
  {
    var configs := OrEmpty(config.stemsConfigs);
    var kept := NonEmptyIndexes(configs);
    Filtered(seq(|kept|, k requires 0 <= k < |kept| => configs[kept[k]]),
             seq(|kept|, k requires 0 <= k < |kept| => StemAt(OrEmpty(query.stems), kept[k])))
  }

  /** Every configuration that survives the filter is non-empty, and none is dropped that is not. */
  lemma FilteredAreExactlyNonEmpty(config: Config, query: Query)
    ensures var r := FilterEmptyConfigs(config, query);
      && (forall k :: 0 <= k < |r.stemsConfigs| ==> !StemConfigIsEmpty(r.stemsConfigs[k]))
      && forall c :: c in OrEmpty(config.stemsConfigs) && !StemConfigIsEmpty(c) ==> c in r.stemsConfigs
  {
    var configs := OrEmpty(config.stemsConfigs);
    var kept := NonEmptyIndexes(configs);
    var r := FilterEmptyConfigs(config, query);
    forall c | c in configs && !StemConfigIsEmpty(c)
      ensures c in r.stemsConfigs
    {
      var i :| 0 <= i < |configs| && configs[i] == c;
      assert i in kept;
      var k :| 0 <= k < |kept| && kept[k] == i;
      assert r.stemsConfigs[k] == c;
    }
  }

  // ---------------------------------------------------------------------------------------------
  // createPivotMergeData

  /** One pivot table to build: the configurations merged into it and where they came from. */
  datatype MergeData = MergeData(configs: seq<StemConfig>, stems: seq<Option<QueryStem>>, stemsIndexes: seq<nat>, configType: ConfigType)

  /** The `findIndex` predicate: same type and mergeable with the group's first configuration. */
  predicate Accepts(data: MergeData, configType: ConfigType, config: StemConfig)
  {
    data.configType == configType && |data.configs| > 0 && CanMergeConfigsByType(data.configType, data.configs[0], config)
  }

  /** `mergeData.findIndex(...)`: the first group that accepts the configuration, or -1. */
  function FindGroup(groups: seq<MergeData>, configType: ConfigType, config: StemConfig): (r: int)
    ensures -1 <= r < |groups|
    ensures r == -1 <==> forall g :: 0 <= g < |groups| ==> !Accepts(groups[g], configType, config)
    ensures r >= 0 ==> Accepts(groups[r], configType, config) && forall g :: 0 <= g < r ==> !Accepts(groups[g], configType, config)
  {
    if groups == [] then -1
    else if Accepts(groups[0], configType, config) then 0
    else
      var rest := FindGroup(groups[1..], configType, config);
      assert forall g :: 1 <= g < |groups| ==> groups[g] == groups[1..][g - 1];
      if rest == -1 then -1 else rest + 1
  }

  /** One step of the reduce: join the first accepting group, or open a new one. */
  function AddConfig(groups: seq<MergeData>, mergeTables: bool, config: StemConfig, stem: Option<QueryStem>, index: nat): seq<MergeData>
  {
    var configType := GetPivotStemConfigType(config);
    var g := FindGroup(groups, configType, config);
    if mergeTables && g >= 0 then
      groups[g := MergeData(groups[g].configs + [config], groups[g].stems + [stem], groups[g].stemsIndexes + [index], groups[g].configType)]
    else
      groups + [MergeData([config], [stem], [index], configType)]
  }

  /** The groups after the first `|configs|` configurations. */
  function MergeGroups(mergeTables: bool, configs: seq<StemConfig>, stems: seq<Option<QueryStem>>): seq<MergeData>
  {
    if configs == [] then []
    else
      var k := |configs| - 1;
      AddConfig(MergeGroups(mergeTables, configs[..k], stems), mergeTables, configs[k], StemAtOpt(stems, k), k)
  }

  /** `stems[index]`, undefined past the end. */
  function StemAtOpt(stems: seq<Option<QueryStem>>, index: nat): Option<QueryStem>
  {
    if index < |stems| then stems[index] else None
  }

  /** createPivotMergeData */
  method CreatePivotMergeData(mergeTables: bool, stemsConfigs: seq<StemConfig>, stems: seq<Option<QueryStem>>)
    returns (mergeData: seq<MergeData>)
    ensures mergeData == MergeGroups(mergeTables, stemsConfigs, stems)
    ensures GroupsWellFormed(mergeData, stemsConfigs, stems)
  {
    mergeData := [];
    var index := 0;
    while index < |stemsConfigs|
      invariant 0 <= index <= |stemsConfigs|
      invariant mergeData == MergeGroups(mergeTables, stemsConfigs[..index], stems)
    {
      assert stemsConfigs[..index + 1][..index] == stemsConfigs[..index];
      var stemConfig := stemsConfigs[index];
      var configType := GetPivotStemConfigType(stemConfig);
      var mergeDataIndex := FindGroup(mergeData, configType, stemConfig);
      if mergeTables && mergeDataIndex >= 0 {
        var data := mergeData[mergeDataIndex];
        mergeData := mergeData[mergeDataIndex := MergeData(data.configs + [stemConfig], data.stems + [StemAtOpt(stems, index)],
                                                           data.stemsIndexes + [index], data.configType)];
      } else {
        mergeData := mergeData + [MergeData([stemConfig], [StemAtOpt(stems, index)], [index], configType)];
      }
      index := index + 1;
    }
    assert stemsConfigs[..index] == stemsConfigs;
    MergeGroupsWellFormed(mergeTables, stemsConfigs, stems);
  }

  /**
   * Each group lists its configurations with their stems and positions, positions ascending,
   * and every position `0..n-1` appears in exactly one group exactly once.
   */
  predicate GroupsWellFormed(groups: seq<MergeData>, configs: seq<StemConfig>, stems: seq<Option<QueryStem>>)
  {
    && (forall g :: 0 <= g < |groups| ==> GroupWellFormed(groups[g], configs, stems))
    && (forall i :: 0 <= i < |configs| ==> Listed(groups, i))
    && PositionsUnique(groups)
  }

  /** No position is listed twice. */
  predicate PositionsUnique(groups: seq<MergeData>)
  {
    forall g1, k1, g2, k2 ::
      (0 <= g1 < |groups| && 0 <= k1 < |groups[g1].stemsIndexes| &&
       0 <= g2 < |groups| && 0 <= k2 < |groups[g2].stemsIndexes| &&
       groups[g1].stemsIndexes[k1] == groups[g2].stemsIndexes[k2]) ==> g1 == g2 && k1 == k2
  }

  /** Position `i` is listed by some group. */
  predicate Listed(groups: seq<MergeData>, i: nat)
  {
    exists g, k :: 0 <= g < |groups| && 0 <= k < |groups[g].stemsIndexes| && groups[g].stemsIndexes[k] == i
  }

  predicate GroupWellFormed(data: MergeData, configs: seq<StemConfig>, stems: seq<Option<QueryStem>>)
  {
    && |data.configs| == |data.stems| == |data.stemsIndexes| > 0
    && data.configType == GetPivotStemConfigType(data.configs[0])
    && (forall k :: 0 <= k < |data.stemsIndexes| ==>
          data.stemsIndexes[k] < |configs| && data.configs[k] == configs[data.stemsIndexes[k]]
          && data.stems[k] == StemAtOpt(stems, data.stemsIndexes[k]))
    && (forall a, b :: 0 <= a < b < |data.stemsIndexes| ==> data.stemsIndexes[a] < data.stemsIndexes[b])
  }

  lemma {:induction false} MergeGroupsWellFormed(mergeTables: bool, configs: seq<StemConfig>, stems: seq<Option<QueryStem>>)
    ensures GroupsWellFormed(MergeGroups(mergeTables, configs, stems), configs, stems)
  {
    if configs != [] {
      var k := |configs| - 1;
      var front := configs[..k];
      MergeGroupsWellFormed(mergeTables, front, stems);
      var prev := MergeGroups(mergeTables, front, stems);
      AddConfigWellFormed(prev, mergeTables, front, configs, stems);
    }
  }

  lemma AddConfigWellFormed(prev: seq<MergeData>, mergeTables: bool, front: seq<StemConfig>, configs: seq<StemConfig>, stems: seq<Option<QueryStem>>)
    requires |configs| > 0 && front == configs[..|configs| - 1]
    requires GroupsWellFormed(prev, front, stems)
    ensures var k := |configs| - 1;
      GroupsWellFormed(AddConfig(prev, mergeTables, configs[k], StemAtOpt(stems, k), k), configs, stems)
  {
    var k := |configs| - 1;
    var config := configs[k];
    var configType := GetPivotStemConfigType(config);
    var g := FindGroup(prev, configType, config);
    forall h | 0 <= h < |prev|
      ensures forall j :: 0 <= j < |prev[h].stemsIndexes| ==> prev[h].stemsIndexes[j] < k
      ensures GroupWellFormed(prev[h], configs, stems)
    {
      assert GroupWellFormed(prev[h], front, stems);
    }
    if mergeTables && g >= 0 {
      JoinWellFormed(prev, g, configs, stems);
    } else {
      OpenWellFormed(prev, configType, configs, stems);
    }
  }

  lemma JoinWellFormed(prev: seq<MergeData>, g: nat, configs: seq<StemConfig>, stems: seq<Option<QueryStem>>)
    requires |configs| > 0 && g < |prev|
    requires var k := |configs| - 1;
      && (forall h :: 0 <= h < |prev| ==> GroupWellFormed(prev[h], configs, stems))
      && (forall h, j :: 0 <= h < |prev| && 0 <= j < |prev[h].stemsIndexes| ==> prev[h].stemsIndexes[j] < k)
      && (forall i :: 0 <= i < k ==> Listed(prev, i))
      && PositionsUnique(prev)
    ensures var k := |configs| - 1; var data := prev[g];
      GroupsWellFormed(prev[g := MergeData(data.configs + [configs[k]], data.stems + [StemAtOpt(stems, k)], data.stemsIndexes + [k], data.configType)], configs, stems)
  {
    var k := |configs| - 1;
    var data := prev[g];
    var next := prev[g := MergeData(data.configs + [configs[k]], data.stems + [StemAtOpt(stems, k)], data.stemsIndexes + [k], data.configType)];
    assert next[g].stemsIndexes == data.stemsIndexes + [k];
    AppendKeepsWellFormed(data, configs, stems);
    WellFormedAfterJoin(prev, g, next, configs, stems);
    ListedAfterJoin(prev, g, k, next);
    UniqueAfterJoin(prev, g, k, next[g]);
  }

  lemma WellFormedAfterJoin(prev: seq<MergeData>, g: nat, next: seq<MergeData>, configs: seq<StemConfig>, stems: seq<Option<QueryStem>>)
    requires g < |prev| && |next| == |prev| && next == prev[g := next[g]]
    requires forall h :: 0 <= h < |prev| ==> GroupWellFormed(prev[h], configs, stems)
    requires GroupWellFormed(next[g], configs, stems)
    ensures forall h :: 0 <= h < |next| ==> GroupWellFormed(next[h], configs, stems)
  {
    forall h | 0 <= h < |next|
      ensures GroupWellFormed(next[h], configs, stems)
    {
      if h != g {
        assert next[h] == prev[h];
      }
    }
  }

  lemma ListedAfterJoin(prev: seq<MergeData>, g: nat, k: nat, next: seq<MergeData>)
    requires g < |prev| && forall i :: 0 <= i < k ==> Listed(prev, i)
    requires |next| == |prev| && next == prev[g := next[g]] && next[g].stemsIndexes == prev[g].stemsIndexes + [k]
    ensures forall i :: 0 <= i <= k ==> Listed(next, i)
  {
    forall i | 0 <= i <= k
      ensures Listed(next, i)
    {
      if i == k {
        assert next[g].stemsIndexes[|prev[g].stemsIndexes|] == k;
      } else {
        assert Listed(prev, i);
        var h, j :| 0 <= h < |prev| && 0 <= j < |prev[h].stemsIndexes| && prev[h].stemsIndexes[j] == i;
        assert next[h].stemsIndexes[j] == i;
      }
    }
  }

  lemma UniqueAfterJoin(prev: seq<MergeData>, g: nat, k: nat, joined: MergeData)
    requires g < |prev| && PositionsUnique(prev)
    requires forall h, j :: 0 <= h < |prev| && 0 <= j < |prev[h].stemsIndexes| ==> prev[h].stemsIndexes[j] < k
    requires joined.stemsIndexes == prev[g].stemsIndexes + [k]
    ensures PositionsUnique(prev[g := joined])
  {
    var next := prev[g := joined];
    var n := |prev[g].stemsIndexes|;
    forall g1, k1, g2, k2 |
      0 <= g1 < |next| && 0 <= k1 < |next[g1].stemsIndexes| &&
      0 <= g2 < |next| && 0 <= k2 < |next[g2].stemsIndexes| &&
      next[g1].stemsIndexes[k1] == next[g2].stemsIndexes[k2]
      ensures g1 == g2 && k1 == k2
    {
      if !(g1 == g && k1 == n) {
        assert next[g1].stemsIndexes[k1] == prev[g1].stemsIndexes[k1];
      }
      if !(g2 == g && k2 == n) {
        assert next[g2].stemsIndexes[k2] == prev[g2].stemsIndexes[k2];
      }
    }
  }

  lemma AppendKeepsWellFormed(data: MergeData, configs: seq<StemConfig>, stems: seq<Option<QueryStem>>)
    requires |configs| > 0 && GroupWellFormed(data, configs, stems)
    requires forall j :: 0 <= j < |data.stemsIndexes| ==> data.stemsIndexes[j] < |configs| - 1
    ensures var k := |configs| - 1;
      GroupWellFormed(MergeData(data.configs + [configs[k]], data.stems + [StemAtOpt(stems, k)], data.stemsIndexes + [k], data.configType), configs, stems)
  {
  }

  lemma OpenWellFormed(prev: seq<MergeData>, configType: ConfigType, configs: seq<StemConfig>, stems: seq<Option<QueryStem>>)
    requires |configs| > 0 && configType == GetPivotStemConfigType(configs[|configs| - 1])
    requires var k := |configs| - 1;
      && (forall h :: 0 <= h < |prev| ==> GroupWellFormed(prev[h], configs, stems))
      && (forall h, j :: 0 <= h < |prev| && 0 <= j < |prev[h].stemsIndexes| ==> prev[h].stemsIndexes[j] < k)
      && (forall i :: 0 <= i < k ==> Listed(prev, i))
      && PositionsUnique(prev)
    ensures var k := |configs| - 1;
      GroupsWellFormed(prev + [MergeData([configs[k]], [StemAtOpt(stems, k)], [k], configType)], configs, stems)
  {
    var k := |configs| - 1;
    var single := MergeData([configs[k]], [StemAtOpt(stems, k)], [k], configType);
    assert GroupWellFormed(single, configs, stems);
    WellFormedAfterOpen(prev, single, configs, stems);
    ListedAfterOpen(prev, k, single);
    UniqueAfterOpen(prev, k, single);
  }

  lemma WellFormedAfterOpen(prev: seq<MergeData>, single: MergeData, configs: seq<StemConfig>, stems: seq<Option<QueryStem>>)
    requires forall h :: 0 <= h < |prev| ==> GroupWellFormed(prev[h], configs, stems)
    requires GroupWellFormed(single, configs, stems)
    ensures forall h :: 0 <= h < |prev + [single]| ==> GroupWellFormed((prev + [single])[h], configs, stems)
  {
    var next := prev + [single];
    forall h | 0 <= h < |next|
      ensures GroupWellFormed(next[h], configs, stems)
    {
      if h < |prev| {
        assert next[h] == prev[h];
      }
    }
  }

  lemma ListedAfterOpen(prev: seq<MergeData>, k: nat, single: MergeData)
    requires forall i :: 0 <= i < k ==> Listed(prev, i)
    requires single.stemsIndexes == [k]
    ensures forall i :: 0 <= i <= k ==> Listed(prev + [single], i)
  {
    var next := prev + [single];
    forall i | 0 <= i <= k
      ensures Listed(next, i)
    {
      if i == k {
        assert next[|prev|].stemsIndexes[0] == k;
      } else {
        assert Listed(prev, i);
        var h, j :| 0 <= h < |prev| && 0 <= j < |prev[h].stemsIndexes| && prev[h].stemsIndexes[j] == i;
        assert next[h].stemsIndexes[j] == i;
      }
    }
  }

  lemma UniqueAfterOpen(prev: seq<MergeData>, k: nat, single: MergeData)
    requires PositionsUnique(prev)
    requires forall h, j :: 0 <= h < |prev| && 0 <= j < |prev[h].stemsIndexes| ==> prev[h].stemsIndexes[j] < k
    requires single.stemsIndexes == [k]
    ensures PositionsUnique(prev + [single])
  {
    var next := prev + [single];
    forall g1, k1, g2, k2 |
      0 <= g1 < |next| && 0 <= k1 < |next[g1].stemsIndexes| &&
      0 <= g2 < |next| && 0 <= k2 < |next[g2].stemsIndexes| &&
      next[g1].stemsIndexes[k1] == next[g2].stemsIndexes[k2]
      ensures g1 == g2 && k1 == k2
    {
      if g1 < |prev| {
        assert next[g1].stemsIndexes[k1] == prev[g1].stemsIndexes[k1];
      }
      if g2 < |prev| {
        assert next[g2].stemsIndexes[k2] == prev[g2].stemsIndexes[k2];
      }
    }
  }

  /** Without mergeTables every configuration forms its own group, in input order. */
  lemma {:induction false} NoMergeGivesSingletons(configs: seq<StemConfig>, stems: seq<Option<QueryStem>>)
    ensures var groups := MergeGroups(false, configs, stems);
      |groups| == |configs| && forall g :: 0 <= g < |groups| ==> groups[g].stemsIndexes == [g] && groups[g].configs == [configs[g]]
  {
    if configs != [] {
      NoMergeGivesSingletons(configs[..|configs| - 1], stems);
    }
  }

  /**
   * Every configuration of a group is of the group's type and mergeable with its first
   * configuration; with mergeTables, no earlier group would have accepted it.
   */
  predicate GroupsAreFirstFit(groups: seq<MergeData>, mergeTables: bool)
  {
    && (forall g, k :: 0 <= g < |groups| && 0 <= k < |groups[g].configs| ==> Accepts(groups[g], groups[g].configType, groups[g].configs[k]))
    && (forall g, k :: 0 <= g < |groups| && 0 <= k < |groups[g].configs| ==>
          GetPivotStemConfigType(groups[g].configs[k]) == groups[g].configType)
    && (mergeTables ==> forall g, k, h :: 0 <= h < g < |groups| && 0 <= k < |groups[g].configs| ==>
          !Accepts(groups[h], groups[g].configType, groups[g].configs[k]))
  }

  lemma {:induction false} MergeGroupsAreFirstFit(mergeTables: bool, configs: seq<StemConfig>, stems: seq<Option<QueryStem>>)
    ensures GroupsAreFirstFit(MergeGroups(mergeTables, configs, stems), mergeTables)
  {
    if configs != [] {
      var k := |configs| - 1;
      MergeGroupsAreFirstFit(mergeTables, configs[..k], stems);
      var prev := MergeGroups(mergeTables, configs[..k], stems);
      MergeGroupsWellFormed(mergeTables, configs[..k], stems);
      assert forall g :: 0 <= g < |prev| ==> GroupWellFormed(prev[g], configs[..k], stems);
      AddConfigFirstFit(prev, mergeTables, configs[k], StemAtOpt(stems, k), k);
    }
  }

  lemma AddConfigFirstFit(prev: seq<MergeData>, mergeTables: bool, config: StemConfig, stem: Option<QueryStem>, index: nat)
    requires GroupsAreFirstFit(prev, mergeTables)
    requires forall g :: 0 <= g < |prev| ==> |prev[g].configs| > 0
    ensures GroupsAreFirstFit(AddConfig(prev, mergeTables, config, stem, index), mergeTables)
  {
    var configType := GetPivotStemConfigType(config);
    var g := FindGroup(prev, configType, config);
    var next := AddConfig(prev, mergeTables, config, stem, index);
    CanMergeIsEquivalence(configType, config, config, config);
    if mergeTables && g >= 0 {
      assert |next| == |prev|;
      assert forall h :: 0 <= h < |next| && h != g ==> next[h] == prev[h];
      assert next[g].configs == prev[g].configs + [config];
      assert next[g].configs[0] == prev[g].configs[0] && next[g].configType == prev[g].configType;
      forall h, k | 0 <= h < |next| && 0 <= k < |next[h].configs|
        ensures Accepts(next[h], next[h].configType, next[h].configs[k])
        ensures GetPivotStemConfigType(next[h].configs[k]) == next[h].configType
      {
        if h == g && k == |prev[g].configs| {
        } else {
          assert next[h].configs[k] == prev[h].configs[k];
        }
      }
      forall g', k, h | 0 <= h < g' < |next| && 0 <= k < |next[g'].configs|
        ensures !Accepts(next[h], next[g'].configType, next[g'].configs[k])
      {
        assert next[h].configs[0] == prev[h].configs[0] && next[h].configType == prev[h].configType;
        if g' == g && k == |prev[g].configs| {
        } else {
          assert next[g'].configs[k] == prev[g'].configs[k];
        }
      }
    } else {
      assert next == prev + [MergeData([config], [stem], [index], configType)];
      forall h, k | 0 <= h < |next| && 0 <= k < |next[h].configs|
        ensures Accepts(next[h], next[h].configType, next[h].configs[k])
        ensures GetPivotStemConfigType(next[h].configs[k]) == next[h].configType
      {
        if h < |prev| {
          assert next[h] == prev[h];
        }
      }
      if mergeTables {
        forall g', k, h | 0 <= h < g' < |next| && 0 <= k < |next[g'].configs|
          ensures !Accepts(next[h], next[g'].configType, next[g'].configs[k])
        {
          assert next[h] == prev[h];
          if g' < |prev| {
            assert next[g'] == prev[g'];
          }
        }
      }
    }
  }

  /** createData's `ableToMerge`: everything fits one table. */
  function AbleToMerge(mergeData: seq<MergeData>): (r: bool)
    ensures r <==> |mergeData| <= 1
  {
    |mergeData| <= 1
  }

  /** Every pair of configurations has the same type and merges under that type. */
  predicate AllMergeable(configs: seq<StemConfig>)
  {
    forall i, j :: 0 <= i < |configs| && 0 <= j < |configs| ==>
      GetPivotStemConfigType(configs[i]) == GetPivotStemConfigType(configs[j])
      && CanMergeConfigsByType(GetPivotStemConfigType(configs[i]), configs[i], configs[j])
  }

  /**
   * `ableToMerge` of createData: with mergeTables the stems fit one table exactly when every pair
   * of configurations is of one type and mergeable; without it, exactly when there is at most one.
   */
  lemma AbleToMergeIffAllMergeable(configs: seq<StemConfig>, stems: seq<Option<QueryStem>>)
    ensures AbleToMerge(MergeGroups(true, configs, stems)) <==> AllMergeable(configs)
    ensures AbleToMerge(MergeGroups(false, configs, stems)) <==> |configs| <= 1
  {
    NoMergeGivesSingletons(configs, stems);
    var groups := MergeGroups(true, configs, stems);
    MergeGroupsAreFirstFit(true, configs, stems);
    MergeGroupsWellFormed(true, configs, stems);
    if |groups| <= 1 {
      OneGroupAllMergeable(groups, configs, stems);
    } else {
      TwoGroupsNotAllMergeable(groups, configs, stems);
    }
  }

  /** Two first-fit groups: the first configuration of the second was refused by the first. */
  lemma TwoGroupsNotAllMergeable(groups: seq<MergeData>, configs: seq<StemConfig>, stems: seq<Option<QueryStem>>)
    requires |groups| >= 2 && GroupsWellFormed(groups, configs, stems) && GroupsAreFirstFit(groups, true)
    ensures !AllMergeable(configs)
  {
    assert GroupWellFormed(groups[0], configs, stems) && GroupWellFormed(groups[1], configs, stems);
    var i0 := groups[0].stemsIndexes[0];
    var i1 := groups[1].stemsIndexes[0];
    assert groups[0].configs[0] == configs[i0] && groups[1].configs[0] == configs[i1];
    assert !Accepts(groups[0], groups[1].configType, groups[1].configs[0]);
  }

  /** At most one well-formed first-fit group: all configurations sit in it and merge pairwise. */
  lemma OneGroupAllMergeable(groups: seq<MergeData>, configs: seq<StemConfig>, stems: seq<Option<QueryStem>>)
    requires |groups| <= 1 && GroupsWellFormed(groups, configs, stems) && GroupsAreFirstFit(groups, true)
    ensures AllMergeable(configs)
  {
    if configs != [] {
      assert Listed(groups, 0);
      var data := groups[0];
      assert GroupWellFormed(data, configs, stems);
      forall i, j | 0 <= i < |configs| && 0 <= j < |configs|
        ensures GetPivotStemConfigType(configs[i]) == GetPivotStemConfigType(configs[j])
        ensures CanMergeConfigsByType(GetPivotStemConfigType(configs[i]), configs[i], configs[j])
      {
        var ki := PositionInOnlyGroup(groups, configs, stems, i);
        var kj := PositionInOnlyGroup(groups, configs, stems, j);
        assert Accepts(data, data.configType, data.configs[ki]) && Accepts(data, data.configType, data.configs[kj]);
        CanMergeIsEquivalence(data.configType, data.configs[0], configs[i], configs[j]);
        CanMergeIsEquivalence(data.configType, configs[i], data.configs[0], configs[j]);
      }
    }
  }

  /** In a single well-formed group, every configuration has its place. */
  lemma PositionInOnlyGroup(groups: seq<MergeData>, configs: seq<StemConfig>, stems: seq<Option<QueryStem>>, i: nat)
    returns (k: nat)
    requires |groups| == 1 && GroupsWellFormed(groups, configs, stems) && i < |configs|
    ensures k < |groups[0].configs| && groups[0].configs[k] == configs[i]
  {
    assert Listed(groups, i);
    var g, j :| 0 <= g < |groups| && 0 <= j < |groups[g].stemsIndexes| && groups[g].stemsIndexes[j] == i;
    assert GroupWellFormed(groups[0], configs, stems);
    k := j;
  }

  /** With mergeTables, configurations of the same type whose counts agree end up in one table. */
  lemma MergeableConfigsShareGroup(configs: seq<StemConfig>, stems: seq<Option<QueryStem>>, g1: nat, k1: nat, g2: nat, k2: nat)
    requires var groups := MergeGroups(true, configs, stems);
      g1 < |groups| && k1 < |groups[g1].configs| && g2 < |groups| && k2 < |groups[g2].configs|
    requires var groups := MergeGroups(true, configs, stems);
      groups[g1].configType == groups[g2].configType
      && CanMergeConfigsByType(groups[g1].configType, groups[g1].configs[k1], groups[g2].configs[k2])
    ensures g1 == g2
  {
    var groups := MergeGroups(true, configs, stems);
    MergeGroupsAreFirstFit(true, configs, stems);
    MergeGroupsWellFormed(true, configs, stems);
    var t := groups[g1].configType;
    assert GroupWellFormed(groups[g1], configs, stems) && GroupWellFormed(groups[g2], configs, stems);
    assert Accepts(groups[g1], t, groups[g1].configs[k1]);
    assert Accepts(groups[g2], t, groups[g2].configs[k2]);
    CanMergeIsEquivalence(t, groups[g1].configs[0], groups[g1].configs[k1], groups[g2].configs[k2]);
    CanMergeIsEquivalence(t, groups[g2].configs[0], groups[g2].configs[k2], groups[g1].configs[k1]);
    assert g1 < g2 ==> Accepts(groups[g1], t, groups[g2].configs[k2]);
    assert g2 < g1 ==> Accepts(groups[g2], t, groups[g1].configs[k1]);
  }
}
