/**
 * The persisted pivot configuration (lmr-pivot-config.ts) and the predicates over it
 * (pivot-util.ts): emptiness, the default configuration and change detection.
 * Deep object equality is datatype equality.
 */
module PivotConfig {
  import opened Options

  /** The identity of an attribute in a query stem (the `QueryAttribute` part of an attribute). */
  datatype AttributeRef = AttributeRef(resourceId: string, resourceIndex: Option<int>, attributeId: string)

  datatype SortValue = SortValue(title: string, isSummary: bool)
  datatype SortList = SortList(valueTitle: string, values: seq<SortValue>)
  datatype PivotSort = PivotSort(attribute: Option<AttributeRef>, list: Option<SortList>, asc: bool)

  datatype Aggregation = Sum | Count | Min | Max | Avg | Unique | Join
  datatype ValueType = Default | ColumnPercentage | RowPercentage | AllPercentage

  datatype Operation = Add | Subtract | Multiply | Divide

  /** A configured expression operand: a header-title pattern, a constant, or a nested expression. */
  datatype Operand =
    | HeaderOperand(pattern: string)
    | ValueOperand(value: real)
    | ExpressionOperand(expression: Expression)

  /** A configured expression of one dimension level (LmrPivotExpression). */
  datatype Expression = Expression(title: string, operation: Operation, operands: seq<Operand>)

  /** One row, column or value attribute of a stem configuration; fields a kind does not use stay `None`. */
  datatype PivotAttribute = PivotAttribute(
    attribute: AttributeRef,
    showSums: Option<bool>,
    sticky: Option<bool>,
    sort: Option<PivotSort>,
    showHeader: Option<bool>,
    aggregation: Option<Aggregation>,
    valueType: Option<ValueType>,
    expressions: Option<seq<Expression>>)

  /** A query stem is only carried along; its content does not matter here. */
  datatype QueryStem = QueryStem(collectionId: string)
  datatype Query = Query(stems: Option<seq<QueryStem>>)

  datatype StemConfig = StemConfig(
    stem: Option<QueryStem>,
    rowAttributes: Option<seq<PivotAttribute>>,
    columnAttributes: Option<seq<PivotAttribute>>,
    valueAttributes: Option<seq<PivotAttribute>>)

  datatype ConfigVersion = V1

  datatype Config = Config(version: Option<ConfigVersion>, stemsConfigs: Option<seq<StemConfig>>, mergeTables: Option<bool>)

  /** A stem configuration is empty when all three attribute lists are missing or empty. */
  predicate StemConfigIsEmpty(config: StemConfig)
  {
    |OrEmpty(config.rowAttributes)| == 0 && |OrEmpty(config.columnAttributes)| == 0
    && |OrEmpty(config.valueAttributes)| == 0
  }

  /** `every` over the stem configurations, written as the recursion it performs. */
  function AllStemConfigsEmpty(configs: seq<StemConfig>): (r: bool)
    ensures r <==> forall i :: 0 <= i < |configs| ==> StemConfigIsEmpty(configs[i])
  {
    if configs == [] then true
    else StemConfigIsEmpty(configs[0]) && AllStemConfigsEmpty(configs[1..])
  }

  function ConfigIsEmpty(config: Config): (r: bool)
    ensures r <==> forall i :: 0 <= i < |OrEmpty(config.stemsConfigs)| ==> StemConfigIsEmpty(OrEmpty(config.stemsConfigs)[i])
    ensures OrEmpty(config.stemsConfigs) == [] ==> r
  {
    AllStemConfigsEmpty(OrEmpty(config.stemsConfigs))
  }

  function CreateDefaultStemConfig(stem: Option<QueryStem>): (r: StemConfig)
    ensures r.stem == stem
    ensures StemConfigIsEmpty(r)
    ensures r.rowAttributes.Some? && r.columnAttributes.Some? && r.valueAttributes.Some?
  {
    StemConfig(stem, Some([]), Some([]), Some([]))
  }

  function DefaultStemConfigs(stems: seq<QueryStem>): (r: seq<StemConfig>)
    ensures |r| == |stems|
    ensures forall i :: 0 <= i < |r| ==> r[i] == CreateDefaultStemConfig(Some(stems[i]))
  {
    if stems == [] then [] else [CreateDefaultStemConfig(Some(stems[0]))] + DefaultStemConfigs(stems[1..])
  }

  /** `query` may be undefined, and so may its stems. */
  function CreateDefaultConfig(query: Option<Query>): (r: Config)
    ensures r.version == Some(V1) && r.mergeTables == Some(true)
    ensures var stems := if query.Some? then OrEmpty(query.value.stems) else [];
      r.stemsConfigs.Some? && |r.stemsConfigs.value| == |stems|
      && forall i :: 0 <= i < |stems| ==> r.stemsConfigs.value[i].stem == Some(stems[i])
  {
    var stems := if query.Some? then OrEmpty(query.value.stems) else [];
    Config(Some(V1), Some(DefaultStemConfigs(stems)), Some(true))
  }

  /** The default configuration of any query is empty. */
  lemma DefaultConfigIsEmpty(query: Option<Query>)
    ensures ConfigIsEmpty(CreateDefaultConfig(query))
  {
  }

  /** Row attributes compare without their `showHeader` flag. */
  function CleanRowAttributes(attrs: Option<seq<PivotAttribute>>): (r: seq<PivotAttribute>)
    ensures |r| == |OrEmpty(attrs)|
    ensures forall i :: 0 <= i < |r| ==> r[i] == OrEmpty(attrs)[i].(showHeader := None)
  {
    var xs := OrEmpty(attrs);
    seq(|xs|, i requires 0 <= i < |xs| => xs[i].(showHeader := None))
  }

  predicate StemConfigHasChanged(s1: StemConfig, s2: StemConfig)
  {
    CleanRowAttributes(s1.rowAttributes) != CleanRowAttributes(s2.rowAttributes)
    || OrEmpty(s1.columnAttributes) != OrEmpty(s2.columnAttributes)
    || OrEmpty(s1.valueAttributes) != OrEmpty(s2.valueAttributes)
  }

  /** `some` over the paired stem configurations, written as the recursion it performs. */
  function SomeStemConfigChanged(s1: seq<StemConfig>, s2: seq<StemConfig>): (r: bool)
    requires |s1| == |s2|
    ensures r <==> exists i :: 0 <= i < |s1| && StemConfigHasChanged(s1[i], s2[i])
  {
    if s1 == [] then false
    else StemConfigHasChanged(s1[0], s2[0]) || SomeStemConfigChanged(s1[1..], s2[1..])
  }

  function StemConfigsHaveChanged(s1: seq<StemConfig>, s2: seq<StemConfig>): (r: bool)
    ensures |s1| != |s2| ==> r
    ensures |s1| == |s2| ==> (r <==> exists i :: 0 <= i < |s1| && StemConfigHasChanged(s1[i], s2[i]))
  {
    if |s1| != |s2| then true else SomeStemConfigChanged(s1, s2)
  }

  /** `!!config?.mergeTables` */
  predicate MergeFlag(config: Option<Config>)
  {
    config.Some? && config.value.mergeTables == Some(true)
  }

  function StemsOf(config: Option<Config>): seq<StemConfig>
  {
    if config.Some? then OrEmpty(config.value.stemsConfigs) else []
  }

  function IsConfigChanged(viewConfig: Option<Config>, currentConfig: Option<Config>): (r: bool)
    ensures MergeFlag(viewConfig) != MergeFlag(currentConfig) && |StemsOf(currentConfig)| > 1 ==> r
    ensures !(MergeFlag(viewConfig) != MergeFlag(currentConfig) && |StemsOf(currentConfig)| > 1)
      ==> (r <==> StemConfigsHaveChanged(StemsOf(viewConfig), StemsOf(currentConfig)))
  {
    if MergeFlag(viewConfig) != MergeFlag(currentConfig) && |StemsOf(currentConfig)| > 1 then true
    else StemConfigsHaveChanged(StemsOf(viewConfig), StemsOf(currentConfig))
  }

  /** A configuration compared with itself has not changed, whatever its merge flag. */
  lemma ConfigUnchangedWhenEqual(config: Option<Config>)
    ensures !IsConfigChanged(config, config)
  {
  }

  /**
   * Two stem configurations that differ only in the `showHeader` flags of their row attributes
   * do not count as changed.
   */
  lemma ShowHeaderDoesNotCount(s1: StemConfig, rows: seq<PivotAttribute>, flags: seq<Option<bool>>)
    requires s1.rowAttributes == Some(rows) && |flags| == |rows|
    ensures var s2 := s1.(rowAttributes := Some(seq(|rows|, i requires 0 <= i < |rows| => rows[i].(showHeader := flags[i]))));
      !StemConfigHasChanged(s1, s2)
  {
    var s2 := s1.(rowAttributes := Some(seq(|rows|, i requires 0 <= i < |rows| => rows[i].(showHeader := flags[i]))));
    assert CleanRowAttributes(s1.rowAttributes) == CleanRowAttributes(s2.rowAttributes);
  }

  /** A merge-flag difference alone counts only when the current configuration has more than one stem. */
  lemma MergeFlagAloneCountsOnlyForSeveralStems(config: Config, flag: bool)
    ensures var other := config.(mergeTables := Some(flag));
      IsConfigChanged(Some(other), Some(config))
      <==> (MergeFlag(Some(other)) != MergeFlag(Some(config)) && |OrEmpty(config.stemsConfigs)| > 1)
  {
    var other := config.(mergeTables := Some(flag));
    var s := OrEmpty(config.stemsConfigs);
    assert !SomeStemConfigChanged(s, s);
  }
}
