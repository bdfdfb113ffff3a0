# Lumeer pivot table, modelled in Dafny

This project models the core of the `lmr-pivot-table` library. The library turns aggregated
records into pivot tables and keeps track of which of their groups the user has collapsed.
The model covers four parts of it.

* **Pivot configuration** (`pivot_config.dfy`, from `pivot-util.ts`). A config is a list of stem
  configs, each with optional row, column and value attributes. The model covers the emptiness
  predicates, the default configs, `cleanRowAttributes` and the "has the config changed" checks.
* **Pivot data conversion** (`stem_merging.dfy`, `key_tree.dfy`, `header_builder.dfy`,
  `value_filling.dfy` and `stem_conversion.dfy`, from `pivot-data-converter.ts`). Stem configs
  are filtered and grouped by type when tables are merged. Aggregated maps are merged. A nested
  key map becomes a header tree whose leaves carry consecutive target indexes. The value matrix
  is filled at the (row leaf, column leaf) pairs. The value titles, the sticky flags and the
  extra column level are derived here.
* **Table layout** (`header_counts.dfy`, `transformation_map.dfy`, `expressions.dfy`,
  `value_types.dfy`, `header_sorting.dfy`, `grid_layout.dfy` and `table_converter.dfy`, from
  `pivot-table-converter.ts`). `PivotTableConverter` is a class whose fields are updated by
  `UpdateData`, as in the source. Preparing a stem does three things:
  * it recomputes values as row, column or total percentages;
  * it sorts the header trees by title or by the values of a chosen column;
  * it attaches the calculated expressions.

  Each header tree gets a transformation array that maps matrix indexes to grid lines.
  `TransformData` then builds the grid:
  * a blank matrix with the attribute corner;
  * a row pass placing row headers, subtotal rows and expression rows;
  * a column pass placing column headers and subtotal columns;
  * the group intersections.

  Lemmas tie each line to the header layout, the subtotals to the sums of the matrix rows and
  columns they cover, and the percentages to totals of one.
* **Expand / collapse state** (`pivot_state.dfy` and `visible_cells.dfy`, from
  `lmr-pivot-state.ts`). The model covers toggling a cell, collapsing all group cells, the child
  index map, row visibility and the recursive filter that folds collapsed groups into one row.

Shared types are in `options.dfy`, `pivot_data.dfy` and `table_cells.dfy`. Numbers are Dafny
`real`s. A missing, `null` or non-numeric value is `None`. A JavaScript sparse array is a
`seq<Option<T>>` that is padded with `None` when it is written past its end.

## Model

| member | source | states |
|---|---|---|
| PivotConfig.AllStemConfigsEmpty | projects/lmr-pivot-table/src/lib/util/pivot-util.ts:67-77 | true exactly when every stem config has no row, column or value attributes |
| PivotConfig.ConfigIsEmpty | projects/lmr-pivot-table/src/lib/util/pivot-util.ts:67-69 | pivotConfigIsEmpty: true exactly when every stem config is empty; a config without stems is empty |
| PivotConfig.CreateDefaultStemConfig | projects/lmr-pivot-table/src/lib/util/pivot-util.ts:63-65 | the default stem config keeps the stem, has the three attribute lists present and is empty |
| PivotConfig.DefaultStemConfigs | projects/lmr-pivot-table/src/lib/util/pivot-util.ts:57-61 | one default stem config per query stem, in order |
| PivotConfig.CreateDefaultConfig | projects/lmr-pivot-table/src/lib/util/pivot-util.ts:57-61 | version 1, mergeTables on, one default stem config per stem of the query (none without a query) |
| PivotConfig.DefaultConfigIsEmpty | projects/lmr-pivot-table/src/lib/util/pivot-util.ts:57-69 | the default config of any query is empty |
| PivotConfig.CleanRowAttributes | projects/lmr-pivot-table/src/lib/util/pivot-util.ts:53-55 | same number of row attributes, each with `showHeader` cleared and nothing else changed |
| PivotConfig.SomeStemConfigChanged | projects/lmr-pivot-table/src/lib/util/pivot-util.ts:37-51 | for equal-length lists: true exactly when some position holds a changed stem config |
| PivotConfig.StemConfigsHaveChanged | projects/lmr-pivot-table/src/lib/util/pivot-util.ts:37-43 | lists of different length have changed; equal-length lists have changed exactly when some pair has |
| PivotConfig.IsConfigChanged | projects/lmr-pivot-table/src/lib/util/pivot-util.ts:29-35 | a changed merge flag counts only with more than one stem; otherwise the result is whether the stem configs changed |
| PivotConfig.ConfigUnchangedWhenEqual | projects/lmr-pivot-table/src/lib/util/pivot-util.ts:29-51 | a config is never changed with respect to itself |
| PivotConfig.ShowHeaderDoesNotCount | projects/lmr-pivot-table/src/lib/util/pivot-util.ts:45-55 | changing only the `showHeader` flags of the row attributes is not a change |
| PivotConfig.MergeFlagAloneCountsOnlyForSeveralStems | projects/lmr-pivot-table/src/lib/util/pivot-util.ts:29-35 | toggling only mergeTables is a change exactly when the config has more than one stem |
| StemMerging.GetPivotStemConfigType | projects/lmr-pivot-table/src/lib/util/pivot-data-converter.ts:782-794 | the four config types as four exclusive combinations of non-empty row / column attributes |
| StemMerging.CanMergeIsEquivalence | projects/lmr-pivot-table/src/lib/util/pivot-data-converter.ts:796-806 | merge compatibility for one config type is reflexive, symmetric and transitive |
| StemMerging.NonEmptyIndexes | projects/lmr-pivot-table/src/lib/util/pivot-data-converter.ts:148-161 | exactly the indexes of non-empty stem configs, increasing |
| StemMerging.FilterEmptyConfigs | projects/lmr-pivot-table/src/lib/util/pivot-data-converter.ts:148-161 | keeps the non-empty stem configs in order, each paired with the query stem at the same position |
| StemMerging.FilteredAreExactlyNonEmpty | projects/lmr-pivot-table/src/lib/util/pivot-data-converter.ts:148-161 | every kept config is non-empty and every non-empty config is kept |
| StemMerging.FindGroup | projects/lmr-pivot-table/src/lib/util/pivot-data-converter.ts:163-183 | the first group that accepts the config, or -1 exactly when no group does |
| StemMerging.CreatePivotMergeData | projects/lmr-pivot-table/src/lib/util/pivot-data-converter.ts:163-183 | the loop computes the first-fit grouping and every group is well formed (configs, stems and positions line up) |
| StemMerging.MergeGroupsWellFormed | projects/lmr-pivot-table/src/lib/util/pivot-data-converter.ts:163-183 | the first-fit grouping lists each stem position exactly once, with its own config and stem |
| StemMerging.NoMergeGivesSingletons | projects/lmr-pivot-table/src/lib/util/pivot-data-converter.ts:163-183 | without mergeTables every stem gets a group of its own, in order |
| StemMerging.MergeGroupsAreFirstFit | projects/lmr-pivot-table/src/lib/util/pivot-data-converter.ts:163-183 | every group holds configs of one type that can all be merged with its first config |
| StemMerging.AbleToMergeIffAllMergeable | projects/lmr-pivot-table/src/lib/util/pivot-data-converter.ts:140-183 | with mergeTables, the data can be shown merged exactly when every pair of stem configs has the same type and can be merged under it; without mergeTables, exactly when there is at most one stem |
| StemMerging.MergeableConfigsShareGroup | projects/lmr-pivot-table/src/lib/util/pivot-data-converter.ts:163-183 | with mergeTables, two stems whose configs can be merged land in the same group |
| KeyTree.Keys | projects/lmr-pivot-table/src/lib/util/pivot-data-converter.ts:297-309 | the keys of an ordered map, in insertion order |
| KeyTree.Lookup | projects/lmr-pivot-table/src/lib/util/pivot-data-converter.ts:297-309 | None exactly for absent keys; a found value is stored under the key |
| KeyTree.LookupOfDistinct | projects/lmr-pivot-table/src/lib/util/pivot-data-converter.ts:297-309 | with distinct keys, looking up a stored key gives its own value |
| KeyTree.MergeValue | projects/lmr-pivot-table/src/lib/util/pivot-data-converter.ts:297-309 | two item lists are concatenated, two maps are merged, mismatched kinds keep the first value |
| KeyTree.IndexOfKey | projects/lmr-pivot-table/src/lib/util/pivot-data-converter.ts:297-309 | the first position holding the key |
| KeyTree.MergeMaps | projects/lmr-pivot-table/src/lib/util/pivot-data-converter.ts:297-309 | the loop computes the recursive merge of the two maps |
| KeyTree.MergeLookup | projects/lmr-pivot-table/src/lib/util/pivot-data-converter.ts:297-309 | merged maps keep distinct keys and every key looks up to the combination of its two values |
| KeyTree.MergeKeepsKeyOrder | projects/lmr-pivot-table/src/lib/util/pivot-data-converter.ts:297-309 | the keys of the first map come first, in order, and the merged keys are the union |
| KeyTree.MergeAggregatedData | projects/lmr-pivot-table/src/lib/util/pivot-data-converter.ts:282-295 | a missing side gives the other; two sides merge their maps and take the larger of the two level counts on each side |
| KeyTree.EntriesNodesAtDepthZero | projects/lmr-pivot-table/src/lib/util/pivot-data-converter.ts:599-624 | at depth zero every entry counts once |
| KeyTree.RecursiveCountsNodes | projects/lmr-pivot-table/src/lib/util/pivot-data-converter.ts:613-624 | numChildrenRecursive counts the nodes at depth maxLevels - level |
| KeyTree.NumChildrenCountsNodes | projects/lmr-pivot-table/src/lib/util/pivot-data-converter.ts:599-611 | numChildren is the number of leaf paths times the number of value titles |
| HeaderBuilder.NumTitles | projects/lmr-pivot-table/src/lib/util/pivot-data-converter.ts:599-611 | at least one, and the number of value titles when there are any |
| HeaderBuilder.ValueHeaders | projects/lmr-pivot-table/src/lib/util/pivot-data-converter.ts:463-527 | one value header per value title with consecutive target indexes and the value colour |
| HeaderBuilder.ValueHeadersTargets | projects/lmr-pivot-table/src/lib/util/pivot-data-converter.ts:463-527 | the value headers target exactly the consecutive range from the start index |
| HeaderBuilder.IterateThroughPivotDataHeader | projects/lmr-pivot-table/src/lib/util/pivot-data-converter.ts:529-597 | no children exactly on the last level with at most one value; otherwise children whose targets are the consecutive block of the subtree's size |
| HeaderBuilder.BuildLevel | projects/lmr-pivot-table/src/lib/util/pivot-data-converter.ts:529-597 | one header per map entry, keyed and coloured by level, with consecutive targets covering nodes times titles |
| HeaderBuilder.BuildHeader | projects/lmr-pivot-table/src/lib/util/pivot-data-converter.ts:529-597 | a header keyed by the entry, a leaf on the last level with at most one value, otherwise a uniform group over its subtree's block |
| HeaderBuilder.ConvertMapToPivotDataHeader | projects/lmr-pivot-table/src/lib/util/pivot-data-converter.ts:463-527 | without levels the value headers; with levels headers whose targets are 0, 1, 2, ... in order |
| HeaderBuilder.BuiltTargetsAreDistinct | projects/lmr-pivot-table/src/lib/util/pivot-data-converter.ts:463-527 | the built target indexes are pairwise distinct and exactly the numbers below the count |
| ValueFilling.InitMatrix | projects/lmr-pivot-table/src/lib/util/pivot-data-converter.ts:648-658 | a rows x columns matrix of undefined values |
| ValueFilling.ResourceValues | projects/lmr-pivot-table/src/lib/util/pivot-data-converter.ts:749-756 | the values of the items whose resource id and resource type both match the value attribute; empty exactly when no item matches |
| ValueFilling.AggregateValue | projects/lmr-pivot-table/src/lib/util/pivot-data-converter.ts:749-770 | undefined exactly when no item matches the value attribute by resource id and type, otherwise the sum of the matching values |
| ValueFilling.ApplyWrites | projects/lmr-pivot-table/src/lib/util/pivot-data-converter.ts:715-747 | applying writes keeps the row length |
| ValueFilling.ApplyWritesFrame | projects/lmr-pivot-table/src/lib/util/pivot-data-converter.ts:715-747 | a column not written keeps its value |
| ValueFilling.ApplyWritesDistinct | projects/lmr-pivot-table/src/lib/util/pivot-data-converter.ts:715-747 | with distinct columns every write lands in its own column |
| ValueFilling.WrittenColumnsAreTargets | projects/lmr-pivot-table/src/lib/util/pivot-data-converter.ts:715-747 | the column headers write exactly their target columns, in order |
| ValueFilling.IterateThroughColumnHeaders | projects/lmr-pivot-table/src/lib/util/pivot-data-converter.ts:715-747 | the row changes by exactly the writes the column headers produce |
| ValueFilling.ApplyWritesConcat | projects/lmr-pivot-table/src/lib/util/pivot-data-converter.ts:715-747 | applying two batches of writes equals applying their concatenation |
| ValueFilling.IterateThroughRowHeaders | projects/lmr-pivot-table/src/lib/util/pivot-data-converter.ts:682-713 | the loop computes the row-by-row fill and keeps the matrix shape |
| ValueFilling.FillValues | projects/lmr-pivot-table/src/lib/util/pivot-data-converter.ts:660-680 | with row headers the row fill; without row headers only the first row gets the column writes |
| ValueFilling.RowFillFrame | projects/lmr-pivot-table/src/lib/util/pivot-data-converter.ts:682-747 | a cell not at a (row leaf, column leaf) target pair keeps its value |
| ValueFilling.RowFillShape | projects/lmr-pivot-table/src/lib/util/pivot-data-converter.ts:682-713 | the fill keeps the matrix shape |
| ValueFilling.RowFillAtLeaves | projects/lmr-pivot-table/src/lib/util/pivot-data-converter.ts:682-747 | with distinct targets, the row fill puts at each row leaf's row and each of its column leaves' columns the aggregate of the column leaf's items under that column's value attribute |
| ValueFilling.HeaderFillAtLeaves | projects/lmr-pivot-table/src/lib/util/pivot-data-converter.ts:689-711 | the same for the rows below one row header |
| ValueFilling.LeafRowAtLeaves | projects/lmr-pivot-table/src/lib/util/pivot-data-converter.ts:715-747 | in one filled row, every column leaf's target holds its aggregate |
| StemConversion.MapStickyValues | projects/lmr-pivot-table/src/lib/util/pivot-data-converter.ts:253-259 | a level is sticky exactly when it and every level before it are sticky |
| StemConversion.StickyIsPrefix | projects/lmr-pivot-table/src/lib/util/pivot-data-converter.ts:253-259 | sticky levels form a prefix |
| StemConversion.DimensionConfigs | projects/lmr-pivot-table/src/lib/util/pivot-data-converter.ts:236-241 | one config per attribute: its showSums, its sort, its expressions (none when absent) and the prefix-sticky flag |
| StemConversion.HasAdditionalColumnLevel | projects/lmr-pivot-table/src/lib/util/pivot-data-converter.ts:442-444 | an extra column level exactly when there are values and no column levels, or several values with column levels |
| StemConversion.TrimStart | projects/lmr-pivot-table/src/lib/util/pivot-data-converter.ts:643-646 | drops exactly the leading whitespace |
| StemConversion.TrimEnd | projects/lmr-pivot-table/src/lib/util/pivot-data-converter.ts:643-646 | drops exactly the trailing whitespace |
| StemConversion.CreateValueTitle | projects/lmr-pivot-table/src/lib/util/pivot-data-converter.ts:643-646 | the value title never starts or ends with whitespace |
| StemConversion.ValueTitleOfTrimmedParts | projects/lmr-pivot-table/src/lib/util/pivot-data-converter.ts:643-646 | for trimmed parts the title is the aggregation title, a space and the attribute name |
| StemConversion.RowHeaderAttributes | projects/lmr-pivot-table/src/lib/util/pivot-data-converter.ts:406-461 | one entry per row attribute, present exactly when its header is shown, titled by the attribute name |
| StemConversion.ConvertAggregatedData | projects/lmr-pivot-table/src/lib/util/pivot-data-converter.ts:406-461 | the stem has a non-empty rectangular value matrix sized by the headers, consecutive targets, value headers when a side has no levels, the configs, titles and the extra-column-level rule; at every (row leaf, column leaf) target pair the matrix holds the aggregate of that pair's items, and every other cell is undefined |
| StemConversion.BuildHeaders | projects/lmr-pivot-table/src/lib/util/pivot-data-converter.ts:406-461 | headers whose targets are consecutive from 0, or the value headers when there are no levels |
| StemConversion.FilledOnlyAtLeaves | projects/lmr-pivot-table/src/lib/util/pivot-data-converter.ts:648-747 | after filling, a cell that is not at a pair of leaf targets is still undefined |
| StemConversion.FilledAtLeaves | projects/lmr-pivot-table/src/lib/util/pivot-data-converter.ts:660-747 | after fillValues, the cell of every row leaf and column leaf below it holds the aggregate of that pair's items; without row headers, row 0 does |
| HeaderCounts.DirectHeaderChildCount | projects/lmr-pivot-table/src/lib/util/pivot-table-converter.ts:1108-1121 | a leaf counts one line; a group counts only its children's full line counts, without its own summary and expression lines, and adding those gives getHeaderChildCount |
| HeaderCounts.HeadersChildCount | projects/lmr-pivot-table/src/lib/util/pivot-table-converter.ts:1085-1090 | the lines of all headers plus the top-level summary lines, at least the number of sums when top sums show |
| HeaderCounts.ChildrenCountConcat | projects/lmr-pivot-table/src/lib/util/pivot-table-converter.ts:1085-1106 | line counts add up over concatenated header lists |
| HeaderCounts.UniqueValues | projects/lmr-pivot-table/src/lib/util/pivot-table-converter.ts:469-487 | the same members, without repetition |
| HeaderCounts.TargetIndexesForHeaders | projects/lmr-pivot-table/src/lib/util/pivot-table-converter.ts:1067-1083 | exactly the leaf targets of the headers, without repetition |
| HeaderCounts.HeaderLinesMatchCount | projects/lmr-pivot-table/src/lib/util/pivot-table-converter.ts:1092-1106 | a header's line layout has exactly getHeaderChildCount lines and its leaf lines carry its targets in order |
| HeaderCounts.ChildrenLinesMatchCount | projects/lmr-pivot-table/src/lib/util/pivot-table-converter.ts:1085-1106 | the same for a list of headers |
| HeaderCounts.CountWithoutSumsIsLeafCount | projects/lmr-pivot-table/src/lib/util/pivot-table-converter.ts:1092-1106 | without sums or expressions a header counts exactly its leaves |
| HeaderCounts.ChildrenCountWithoutSumsIsLeafCount | projects/lmr-pivot-table/src/lib/util/pivot-table-converter.ts:1085-1106 | the same for a list of headers |
| HeaderCounts.RowsOnlyExampleLines | projects/lmr-pivot-table/src/lib/util/pivot-table-converter.spec.ts:142-187 | the three-group row example takes 10 lines with sums shown and 6 without |
| TransformationMap.WriteAllConcat | projects/lmr-pivot-table/src/lib/util/pivot-table-converter.ts:1046-1065 | placing two batches equals placing their concatenation |
| TransformationMap.PlacementsFollowLayout | projects/lmr-pivot-table/src/lib/util/pivot-table-converter.ts:1046-1065 | every placement maps a leaf target to the line that leaf occupies, with increasing lines |
| TransformationMap.PlacementTargets | projects/lmr-pivot-table/src/lib/util/pivot-table-converter.ts:1046-1065 | the placements cover exactly the leaf targets of the headers |
| TransformationMap.WrittenTargetsDefined | projects/lmr-pivot-table/src/lib/util/pivot-table-converter.ts:1035-1065 | every leaf target gets an entry in the transformation array |
| TransformationMap.WrittenArrayFollowsLayout | projects/lmr-pivot-table/src/lib/util/pivot-table-converter.ts:1035-1065 | every defined entry maps a target to its own leaf line |
| TransformationMap.MapIsInjective | projects/lmr-pivot-table/src/lib/util/pivot-table-converter.ts:1035-1065 | two targets never share a line |
| TransformationMap.TreeLaidOut | projects/lmr-pivot-table/src/lib/util/pivot-table-converter.ts:1035-1065 | every leaf target is shown on its own leaf line and no subtotal or expression line shows a target |
| TransformationMap.GrandTotalFree | projects/lmr-pivot-table/src/lib/util/pivot-table-converter.ts:1035-1065 | the grand total lines after a non-empty tree show no target |
| TransformationMap.IterateThroughTransformationMap | projects/lmr-pivot-table/src/lib/util/pivot-table-converter.ts:1046-1065 | the loop writes exactly the placements of the headers |
| TransformationMap.CreateTransformationMap | projects/lmr-pivot-table/src/lib/util/pivot-table-converter.ts:1035-1044 | the array of placements, which follows the line layout for uniform headers |
| Expressions.OperandIndexesInHeaders | projects/lmr-pivot-table/src/lib/util/pivot-table-converter.ts:921-932 | exactly the indexes of headers whose title the operand pattern matches, increasing |
| Expressions.ExtendOperand | projects/lmr-pivot-table/src/lib/util/pivot-table-converter.ts:897-919 | one data operand; the last referenced header index is the largest matching one, or -1 |
| Expressions.ExtendOperands | projects/lmr-pivot-table/src/lib/util/pivot-table-converter.ts:897-919 | the same over a list of operands |
| Expressions.ExtendExpression | projects/lmr-pivot-table/src/lib/util/pivot-table-converter.ts:897-919 | title, operation and operand count kept; lastHeaderIndex is the largest header any operand references, or -1 |
| Expressions.DroppedIffNothingMatches | projects/lmr-pivot-table/src/lib/util/pivot-table-converter.ts:876-919 | an expression is dropped (index -1) exactly when no operand references a header |
| Expressions.ExtendExpressionAsWritten | projects/lmr-pivot-table/src/lib/util/pivot-table-converter.ts:897-919 | as written: nested expression operands are flattened into the parent's operand list |
| Expressions.FlatteningLosesNestedOperation | projects/lmr-pivot-table/src/lib/util/pivot-table-converter.ts:897-919 | add(1, multiply(2, 3)) evaluates to 6 as written and to 7 with nesting kept |
| Expressions.AttachAll | projects/lmr-pivot-table/src/lib/util/pivot-table-converter.ts:876-895 | each header gets the expressions whose last referenced header it is |
| Expressions.FillExpressionsToHeaders | projects/lmr-pivot-table/src/lib/util/pivot-table-converter.ts:876-895 | titles and colours kept; expressions attached by last header index; children handled on the next level when a config exists |
| Expressions.TransformIndexes | projects/lmr-pivot-table/src/lib/util/pivot-table-converter.ts:463-467 | exactly the lines of the indexes that have one |
| Expressions.OperandValues | projects/lmr-pivot-table/src/lib/util/pivot-table-converter.ts:426-461 | one value per operand, its evaluation |
| Expressions.NonZeroProductOf | projects/lmr-pivot-table/src/lib/util/pivot-table-converter.ts:426-448 | the divisor used for division is never zero |
| Expressions.FoldIsClosedForm | projects/lmr-pivot-table/src/lib/util/pivot-table-converter.ts:426-448 | folding operands gives the closed form of the operation on their values |
| Expressions.FoldIndexes | projects/lmr-pivot-table/src/lib/util/pivot-table-converter.ts:426-461 | the row indexes of a fold are those of its operands, concatenated |
| Expressions.ValueFold | projects/lmr-pivot-table/src/lib/util/pivot-table-converter.ts:426-461 | an expression over constants evaluates to the closed form of the constants |
| ValueTypes.DivideValues | projects/lmr-pivot-table/src/lib/util/pivot-table-converter.ts:1310-1324 | present exactly when both are present; division by zero gives 0; otherwise the quotient |
| ValueTypes.GetNumericValuesSummary | projects/lmr-pivot-table/src/lib/util/pivot-table-converter.ts:1251-1262 | the loop computes the sum of the selected rows and columns |
| ValueTypes.GridSumSplitRows | projects/lmr-pivot-table/src/lib/util/pivot-table-converter.ts:1251-1262 | the sum over two row lists is the sum of the two sums |
| ValueTypes.ClassColumns | projects/lmr-pivot-table/src/lib/util/pivot-table-converter.ts:969-982 | exactly the columns of one value, increasing |
| ValueTypes.GetValueTypeInfo | projects/lmr-pivot-table/src/lib/util/pivot-table-converter.ts:984-1011 | all-percentage stores the grand total, row and column percentage store per-row and per-column totals of the value's columns |
| ValueTypes.GetValuesTypeInfo | projects/lmr-pivot-table/src/lib/util/pivot-table-converter.ts:969-982 | one info per value, computed over all rows and the value's columns |
| ValueTypes.DivideRow | projects/lmr-pivot-table/src/lib/util/pivot-table-converter.ts:934-967 | each cell of the value's columns is divided by its denominator, the others kept |
| ValueTypes.DivideValueColumns | projects/lmr-pivot-table/src/lib/util/pivot-table-converter.ts:949-963 | the row loop for a percentage value leaves the cells of that value and of the earlier ones converted, and every other cell as it was |
| ValueTypes.ComputeValuesByValueType | projects/lmr-pivot-table/src/lib/util/pivot-table-converter.ts:934-967 | same shape; each cell is the percentage its value type asks for, or kept |
| ValueTypes.DividedGridSum | projects/lmr-pivot-table/src/lib/util/pivot-table-converter.ts:1310-1324 | dividing every cell by s divides the sum by s |
| ValueTypes.ColumnPercentagesSumToOne | projects/lmr-pivot-table/src/lib/util/pivot-table-converter.ts:934-1011 | a column of a column-percentage value with a non-zero total sums to 1 |
| ValueTypes.RowPercentagesSumToOne | projects/lmr-pivot-table/src/lib/util/pivot-table-converter.ts:934-1011 | a row of a row-percentage value with a non-zero total sums to 1 over the value's columns |
| ValueTypes.AllPercentagesSumToOne | projects/lmr-pivot-table/src/lib/util/pivot-table-converter.ts:934-1011 | an all-percentage value with a non-zero total sums to 1 |
| HeaderSorting.FindTitle | projects/lmr-pivot-table/src/lib/util/pivot-table-converter.ts:1264-1304 | the first position of the title, or -1 when absent |
| HeaderSorting.FindHeader | projects/lmr-pivot-table/src/lib/util/pivot-table-converter.ts:1264-1304 | the first header with the title, or -1 when absent |
| HeaderSorting.FilterIndexesByMod | projects/lmr-pivot-table/src/lib/util/pivot-table-converter.ts:1306-1308 | exactly the indexes with the given remainder |
| HeaderSorting.SortValueTargetIndexes | projects/lmr-pivot-table/src/lib/util/pivot-table-converter.ts:1264-1304 | the loop follows the sort list down the other side's headers |
| HeaderSorting.SortTargetsAreOtherSideLeaves | projects/lmr-pivot-table/src/lib/util/pivot-table-converter.ts:1264-1304 | sort targets are leaf targets of the other side |
| HeaderSorting.BeforeTotal | projects/lmr-pivot-table/src/lib/util/pivot-table-converter.ts:1227-1249 | the sort order compares every pair of keys |
| HeaderSorting.BeforeTransitive | projects/lmr-pivot-table/src/lib/util/pivot-table-converter.ts:1227-1249 | the sort order is transitive |
| HeaderSorting.HeadersValuesMap | projects/lmr-pivot-table/src/lib/util/pivot-table-converter.ts:1227-1249 | a key for every header title and only for them; titles sort by themselves without a sort target |
| HeaderSorting.SortBy | projects/lmr-pivot-table/src/lib/util/pivot-table-converter.ts:1169-1208 | sorting permutes the headers |
| HeaderSorting.SortBySorted | projects/lmr-pivot-table/src/lib/util/pivot-table-converter.ts:1169-1208 | sorted headers are in key order |
| HeaderSorting.SortByKeepsTargets | projects/lmr-pivot-table/src/lib/util/pivot-table-converter.ts:1169-1208 | sorting permutes the leaf targets |
| HeaderSorting.ValueLevelIsNotSorted | projects/lmr-pivot-table/src/lib/util/pivot-table-converter.ts:1169-1225 | the value-title level is recognised and left in place |
| HeaderSorting.LevelIsSorted | projects/lmr-pivot-table/src/lib/util/pivot-table-converter.ts:1169-1208 | a row level, or a column level that is not the value level, ends up in key order |
| HeaderSorting.SortKeepsTargets | projects/lmr-pivot-table/src/lib/util/pivot-table-converter.ts:1169-1208 | recursive sorting permutes the leaf targets |
| HeaderSorting.SortKeepsUniform | projects/lmr-pivot-table/src/lib/util/pivot-table-converter.ts:1169-1208 | sorting keeps every level all leaves or all groups |
| HeaderSorting.SortPivotData | projects/lmr-pivot-table/src/lib/util/pivot-table-converter.ts:1123-1167 | only the two header trees change, and each keeps its length |
| HeaderSorting.SortPivotDataKeepsLeaves | projects/lmr-pivot-table/src/lib/util/pivot-table-converter.ts:1123-1167 | both header trees keep their leaf targets up to order |
| GridLayout.SummaryBackground | projects/lmr-pivot-table/src/lib/util/pivot-table-converter.ts:286-289 | the group colour of the level, the last colour for deeper levels |
| GridLayout.SummaryLevelsDiffer | projects/lmr-pivot-table/src/lib/util/pivot-table-converter.ts:286-289 | summaries of different levels within the palette have different colours |
| GridLayout.LevelOpacity | projects/lmr-pivot-table/src/lib/util/pivot-table-converter.ts:273-275 | between 50 and 80 percent, 80 from level 6 on |
| GridLayout.OpacityGrowsWithLevel | projects/lmr-pivot-table/src/lib/util/pivot-table-converter.ts:273-275 | deeper levels are never lighter |
| GridLayout.HeaderBackground | projects/lmr-pivot-table/src/lib/util/pivot-table-converter.ts:265-271 | a shade exactly when the header has a non-empty colour, at the level's opacity |
| GridLayout.ValueCell | projects/lmr-pivot-table/src/lib/util/pivot-table-converter.ts:291-331 | a value cell with span 1, the given value, class and background |
| GridLayout.FindIndex | projects/lmr-pivot-table/src/lib/util/pivot-table-converter.ts:731-742 | the first position holding the line, or -1 exactly when none does |
| GridLayout.FindIndexInverts | projects/lmr-pivot-table/src/lib/util/pivot-table-converter.ts:731-742 | looking up the line of an index finds that index again in an injective map |
| GridLayout.Write | projects/lmr-pivot-table/src/lib/util/pivot-table-converter.ts:141-729 | a point update of the grid |
| GridLayout.FullCounts | projects/lmr-pivot-table/src/lib/util/pivot-table-converter.ts:1085-1106 | a full header list takes at least one line per header |
| GridLayout.RowHeadersStay | projects/lmr-pivot-table/src/lib/util/pivot-table-converter.ts:133-139 | row header cells placed earlier survive later writes outside the header area |
| GridLayout.ColumnHeadersStay | projects/lmr-pivot-table/src/lib/util/pivot-table-converter.ts:133-139 | column header cells placed earlier survive later writes outside the header area |
| TableConverter.FirstNonSticky | projects/lmr-pivot-table/src/lib/util/pivot-table-converter.ts:89-122 | the first non-sticky level, or -1 exactly when all are sticky |
| TableConverter.NonStickyIndex | projects/lmr-pivot-table/src/lib/util/pivot-table-converter.ts:89-122 | the level count when all are sticky, the first non-sticky level otherwise, 0 without configs |
| TableConverter.FullIsUniform | projects/lmr-pivot-table/src/lib/util/pivot-table-converter.ts:1035-1065 | full header trees are uniform on every level |
| TableConverter.SortKeepsFull | projects/lmr-pivot-table/src/lib/util/pivot-table-converter.ts:1169-1208 | sorting keeps a header tree full |
| TableConverter.FillExpressionsKeepsFull | projects/lmr-pivot-table/src/lib/util/pivot-table-converter.ts:876-895 | attaching expressions keeps a header tree full |
| TableConverter.PreparePivotData | projects/lmr-pivot-table/src/lib/util/pivot-table-converter.ts:857-874 | values recomputed by value type, then headers sorted and expressions attached; full trees stay full |
| TableConverter.MapWithinLines | projects/lmr-pivot-table/src/lib/util/pivot-table-converter.ts:1035-1065 | the transformation is injective and lands in the lines of the headers |
| TableConverter.MatrixIndexes | projects/lmr-pivot-table/src/lib/util/pivot-table-converter.ts:731-742 | grid lines map back to matrix indexes that have a line among them |
| TableConverter.MatrixIndexesInvert | projects/lmr-pivot-table/src/lib/util/pivot-table-converter.ts:463-467 | mapping indexes to lines and back gives the indexes again |
| TableConverter.Recolored | projects/lmr-pivot-table/src/lib/util/pivot-table-converter.ts:744-768 | a present cell gets the background; a missing cell stays missing |
| TableConverter.ExpressionIndexesIgnoreColumns | projects/lmr-pivot-table/src/lib/util/pivot-table-converter.ts:426-461 | the row indexes of an expression do not depend on the columns |
| TableConverter.BuildTransformation | projects/lmr-pivot-table/src/lib/util/pivot-table-converter.ts:89-122 | the transformation of a header tree, or the single value line without headers; injective and within the table's lines; every leaf target is shown, no subtotal or expression line shows one, and a non-empty tree's grand total line shows none |
| TableConverter.PrepareStem | projects/lmr-pivot-table/src/lib/util/pivot-table-converter.ts:89-122 | prepares data, value type infos and both transformations from a built stem |
| TableConverter.PivotTableConverter.NumberOfSums | projects/lmr-pivot-table/src/lib/util/pivot-table-converter.ts:89-122 | at least one and at least the number of values |
| TableConverter.PivotTableConverter.FillCellsForRow | projects/lmr-pivot-table/src/lib/util/pivot-table-converter.ts:291-312 | a row line gets the formatted matrix value in every mapped column, the rest unchanged |
| TableConverter.PivotTableConverter.FillCellsForColumn | projects/lmr-pivot-table/src/lib/util/pivot-table-converter.ts:640-661 | a column line gets the formatted matrix value in every mapped row, the rest unchanged |
| TableConverter.PivotTableConverter.FillCellsForGroupedRow | projects/lmr-pivot-table/src/lib/util/pivot-table-converter.ts:374-396 | a subtotal row: each column holds the sum over the group's rows |
| TableConverter.PivotTableConverter.FillCellsForGroupedColumn | projects/lmr-pivot-table/src/lib/util/pivot-table-converter.ts:595-617 | a subtotal column: each row holds the sum over the group's columns |
| TableConverter.PivotTableConverter.FillCellsForExpressionRow | projects/lmr-pivot-table/src/lib/util/pivot-table-converter.ts:398-424 | an expression row: each column holds the expression's value; returns the rows the expression uses |
| TableConverter.PivotTableConverter.LeafRowData | projects/lmr-pivot-table/src/lib/util/pivot-table-converter.ts:291-312 | writing a matrix row's cells shows its entries and keeps every group row and every other shown entry |
| TableConverter.PivotTableConverter.RowGroupData | projects/lmr-pivot-table/src/lib/util/pivot-table-converter.ts:374-424 | writing a group's cells on a row that shows no matrix row records the group there and keeps the shown entries |
| TableConverter.PivotTableConverter.SummaryRowData | projects/lmr-pivot-table/src/lib/util/pivot-table-converter.ts:198-209 | the subtotal row of a sibling list holds the cells of the group over the list's matrix rows |
| TableConverter.PivotTableConverter.LeafColumnData | projects/lmr-pivot-table/src/lib/util/pivot-table-converter.ts:640-661 | writing a matrix column's cells shows its entries and keeps every column group and every other shown entry |
| TableConverter.PivotTableConverter.ColumnGroupData | projects/lmr-pivot-table/src/lib/util/pivot-table-converter.ts:595-617 | writing a group's cells on a column that shows no matrix column records the group there and keeps the shown entries |
| TableConverter.PivotTableConverter.ValueColumnData | projects/lmr-pivot-table/src/lib/util/pivot-table-converter.ts:564-587 | a value column of a column subtotal holds the cells of the group over that value's matrix columns |
| TableConverter.PivotTableConverter.SplitPartsCoverLevels | projects/lmr-pivot-table/src/lib/util/pivot-table-converter.ts:212-248 | the sticky and non-sticky parts of a split group header span exactly the remaining levels |
| TableConverter.PivotTableConverter.SplitRowGroupHeader | projects/lmr-pivot-table/src/lib/util/pivot-table-converter.ts:212-248 | the group header cell is written, split at the first non-sticky level when that applies, nothing else changes |
| TableConverter.PivotTableConverter.FillExpressionRow | projects/lmr-pivot-table/src/lib/util/pivot-table-converter.ts:186-195 | an expression row is written and its group recorded; nothing outside the line changes |
| TableConverter.PivotTableConverter.FillRowSummary | projects/lmr-pivot-table/src/lib/util/pivot-table-converter.ts:198-209 | the summary row and its group are written, the group listing the grid rows of the sibling list; when the line shows no matrix row, every row group holds its cells and every shown entry is kept; nothing outside the line changes |
| TableConverter.PivotTableConverter.FillRowHeader | projects/lmr-pivot-table/src/lib/util/pivot-table-converter.ts:158-195 | the header cell is placed and its children and expression rows follow in its block of lines; a leaf's matrix row shows the prepared value at every shown column, every group row recorded holds its subtotal or expression cells, and every entry shown before is kept |
| TableConverter.PivotTableConverter.FillRowHeaders | projects/lmr-pivot-table/src/lib/util/pivot-table-converter.ts:147-197 | every header of the level is placed in its block with the same data facts for all their matrix rows; nothing outside the blocks changes |
| TableConverter.PivotTableConverter.IterateAndFillCellsByRows | projects/lmr-pivot-table/src/lib/util/pivot-table-converter.ts:147-210 | the row pass places all row headers of the level and, when the level's summary line shows no matrix row, shows every matrix row of the level's leaves and holds every row group's cells |
| TableConverter.PivotTableConverter.ValueColumns | projects/lmr-pivot-table/src/lib/util/pivot-table-converter.ts:564-587 | exactly the columns of one value among the headers' targets |
| TableConverter.PivotTableConverter.FillValueColumn | projects/lmr-pivot-table/src/lib/util/pivot-table-converter.ts:564-587 | one value column of a column summary: its title when there are several values, its group over the value's columns, and, when the column shows no matrix column, its subtotal cells with the earlier data kept |
| TableConverter.PivotTableConverter.FillColumnSummary | projects/lmr-pivot-table/src/lib/util/pivot-table-converter.ts:544-592 | the summary columns of a level, one per value (or one when there are none), each with its title and group; when they show no matrix column, each value column holds the subtotal over that value's columns at every shown matrix row, and the entries shown before are kept |
| TableConverter.PivotTableConverter.FillColumnHeader | projects/lmr-pivot-table/src/lib/util/pivot-table-converter.ts:514-539 | the header cell is placed and its children follow in its block of columns; a leaf's matrix column shows the prepared value at every shown row, every column group holds its subtotal cells, and every entry shown before is kept |
| TableConverter.PivotTableConverter.FillColumnHeaders | projects/lmr-pivot-table/src/lib/util/pivot-table-converter.ts:502-541 | every header of the level is placed in its block with the same data facts for all their matrix columns; nothing outside changes |
| TableConverter.PivotTableConverter.IterateAndFillCellsByColumns | projects/lmr-pivot-table/src/lib/util/pivot-table-converter.ts:502-593 | the column pass places all column headers of the level and, when the level's summary columns show no matrix column, shows every matrix column of the level's leaves and holds every column group's cells |
| TableConverter.PivotTableConverter.FillRowWithColor | projects/lmr-pivot-table/src/lib/util/pivot-table-converter.ts:744-753 | the data cells of the line get the background |
| TableConverter.PivotTableConverter.FillColumnWithColor | projects/lmr-pivot-table/src/lib/util/pivot-table-converter.ts:755-768 | the data cells of the column get the background, unless a row group already coloured them |
| TableConverter.PivotTableConverter.FillCellsByGroupIntersection | projects/lmr-pivot-table/src/lib/util/pivot-table-converter.ts:673-729 | every cell becomes its intersection of row and column groups; header cells stay |
| TableConverter.PivotTableConverter.IntersectionKeepsData | projects/lmr-pivot-table/src/lib/util/pivot-table-converter.ts:673-729 | the intersections keep every shown entry and every group line's cells, and every crossing of a row group and a column group holds its intersection cell, coloured by the column group unless a row group at most as deep owns the row |
| TableConverter.PivotTableConverter.PassesDone | projects/lmr-pivot-table/src/lib/util/pivot-table-converter.ts:133-139 | what the row pass showed and recorded survives the column pass |
| TableConverter.PivotTableConverter.TransformedData | projects/lmr-pivot-table/src/lib/util/pivot-table-converter.ts:133-139 | with free grand totals, the grid after both passes and the intersections holds its whole data area |
| TableConverter.PivotTableConverter.SubtotalIntersection | projects/lmr-pivot-table/src/lib/util/pivot-table-converter.ts:673-742 | the cell where a row subtotal meets a column subtotal sums exactly the matrix rows and columns of both groups |
| TableConverter.PivotTableConverter.ExpressionIntersection | projects/lmr-pivot-table/src/lib/util/pivot-table-converter.ts:673-729 | where an expression row meets a column group, the cell evaluates the expression over that group's columns |
| TableConverter.PivotTableConverter.AttributeCellsSpanHeaderRows | projects/lmr-pivot-table/src/lib/util/pivot-table-converter.ts:794-836 | attribute title cells span the column header rows, split at the first non-sticky level |
| TableConverter.PivotTableConverter.BlankMatrix | projects/lmr-pivot-table/src/lib/util/pivot-table-converter.ts:774-792 | the blank grid: a blank data cell in the data area, nothing in the header areas |
| TableConverter.PivotTableConverter.InitCells | projects/lmr-pivot-table/src/lib/util/pivot-table-converter.ts:770-839 | the initial grid: blank data cells and the corner with the attribute titles |
| TableConverter.PivotTableConverter.FillCellsByRows | projects/lmr-pivot-table/src/lib/util/pivot-table-converter.ts:141-145 | the row pass over the whole row tree: every row header placed, and, when the grand total row shows no matrix row, every matrix row shown and every row group (subtotal or expression) holding its cells |
| TableConverter.PivotTableConverter.FillCellsByColumns | projects/lmr-pivot-table/src/lib/util/pivot-table-converter.ts:489-500 | the column pass over the whole column tree: every column header placed, and, when the grand total columns show no matrix column, every matrix column shown and every column group holding its subtotal cells |
| TableConverter.PivotTableConverter.TransformData | projects/lmr-pivot-table/src/lib/util/pivot-table-converter.ts:133-139 | the grid has the table's size, the corner as initialised and every row and column header placed; when the grand totals show no matrix line, the leaf cell at (rowsTransformation[r], columnsTransformation[c]) holds the prepared value, every group line holds its subtotal or expression cells, and every crossing of a row group and a column group holds its intersection cell |
| TableConverter.PivotTableConverter.UpdateData | projects/lmr-pivot-table/src/lib/util/pivot-table-converter.ts:89-122 | the state follows the stem: levels, sticky indexes, prepared data and the two transformations, which lay out both trees; a non-empty tree's grand total line shows no matrix line |
| TableConverter.PivotTableConverter.UpdatedStateLaidOut | projects/lmr-pivot-table/src/lib/util/pivot-table-converter.ts:89-122 | the transformations show every leaf of both trees and leave every subtotal and expression line free; a non-empty tree's grand total line shows no matrix line |
| TableConverter.PivotTableConverter.CreateTables | projects/lmr-pivot-table/src/lib/util/pivot-table-converter.ts:68-87 | no data gives one empty table; otherwise one table per stem, empty exactly when the stem has no headers, and a non-empty stem's table has the size of its prepared model with every row and column header placed |
| TableConverter.PivotTableConverter.CreateTable | projects/lmr-pivot-table/src/lib/util/pivot-table-converter.ts:76-82 | no cells exactly for a stem without headers, otherwise the table of the model updateData prepares from it |
| TableConverter.PivotTableConverter.StateTable | projects/lmr-pivot-table/src/lib/util/pivot-table-converter.ts:80-81 | the grid transformData builds after updateData has the prepared model's size and headers |
| TableConverter.PivotTableConverter.TableNotEmpty | projects/lmr-pivot-table/src/lib/util/pivot-table-converter.ts:85-87 | a stem with headers gives a table with at least one row |
| PivotState.SetRow | projects/lmr-pivot-table/src/lib/util/lmr-pivot-state.ts:40-43 | the row is replaced, the array grows when needed, other rows unchanged |
| PivotState.WriteEntry | projects/lmr-pivot-table/src/lib/util/lmr-pivot-state.ts:24-45 | a point update of the sparse state; nothing else changes |
| PivotState.ToggleExpandedState | projects/lmr-pivot-table/src/lib/util/lmr-pivot-state.ts:35-45 | a missing or negative index changes nothing; otherwise exactly the one cell flips its collapsed flag |
| PivotState.ToggleTwiceRestores | projects/lmr-pivot-table/src/lib/util/lmr-pivot-state.ts:35-45 | toggling twice restores every cell's collapsed flag |
| PivotState.ToggleExpandedAsWritten | projects/lmr-pivot-table/src/lib/util/lmr-pivot-state.ts:24-29 | as written: a cell in row 0 is never toggled |
| PivotState.ToggleExpanded | projects/lmr-pivot-table/src/lib/util/lmr-pivot-state.ts:24-29 | a cell without an original row index, or with a negative index, changes nothing; otherwise the one entry at its row and the column flips its collapsed flag and every other entry is unchanged |
| PivotState.RowZeroIsNeverToggled | projects/lmr-pivot-table/src/lib/util/lmr-pivot-state.ts:24-29 | the first group header of a table with row attributes only, no columns and no values, is expandable, but the toggle as written leaves it expanded |
| PivotState.StopIndex | projects/lmr-pivot-table/src/lib/util/lmr-pivot-state.ts:155-174 | the first value, attribute-header or header cell (row or column header alike) of the row, or the row's end |
| PivotState.CollapseAllCells | projects/lmr-pivot-table/src/lib/util/lmr-pivot-state.ts:155-174 | exactly the expandable cells before the first stopping cell of their row are marked collapsed; no other entry is set |
| PivotState.Push | projects/lmr-pivot-table/src/lib/util/lmr-pivot-state.ts:138-148 | the index is appended to one entry, others unchanged |
| PivotState.ChildIndexesMapEntries | projects/lmr-pivot-table/src/lib/util/lmr-pivot-state.ts:138-148 | row k lists x exactly when the first cell of row x lists k among its row indexes |
| PivotState.CreateRowsChildIndexesMap | projects/lmr-pivot-table/src/lib/util/lmr-pivot-state.ts:133-148 | the loop computes the child indexes map |
| PivotState.FirstCells | projects/lmr-pivot-table/src/lib/util/lmr-pivot-state.ts:133-136 | the first cell of every row |
| PivotState.RowVisibility | projects/lmr-pivot-table/src/lib/util/lmr-pivot-state.ts:150-153 | a row is visible exactly when no group lists it, or some group that lists it is not collapsed at the column |
| PivotState.EmptyStateShowsEverything | projects/lmr-pivot-table/src/lib/util/lmr-pivot-state.ts:150-153 | without state every row is visible |
| VisibleCells.ClampIndex | projects/lmr-pivot-table/src/lib/util/lmr-pivot-state.ts:123-131 | slice bounds clamped to the array as JavaScript does |
| VisibleCells.JsSlice | projects/lmr-pivot-table/src/lib/util/lmr-pivot-state.ts:123-131 | JavaScript slice: the clamped range, empty when reversed |
| VisibleCells.SliceMatrix | projects/lmr-pivot-table/src/lib/util/lmr-pivot-state.ts:123-131 | the loop computes the sliced rows |
| VisibleCells.SliceNarrows | projects/lmr-pivot-table/src/lib/util/lmr-pivot-state.ts:47-98 | dropping the first column makes the matrix strictly narrower |
| VisibleCells.FirstValueIndex | projects/lmr-pivot-table/src/lib/util/lmr-pivot-state.ts:47-98 | the first value cell of the row, or its end |
| VisibleCells.WithOriginalRowIndexMarksHeaders | projects/lmr-pivot-table/src/lib/util/lmr-pivot-state.ts:100-113 | every header cell gets the row index, every other cell is unchanged |
| VisibleCells.SetOriginalRowIndexForHeaders | projects/lmr-pivot-table/src/lib/util/lmr-pivot-state.ts:100-113 | the loop marks the header cells of the row |
| VisibleCells.AppendCellToMatrix | projects/lmr-pivot-table/src/lib/util/lmr-pivot-state.ts:115-117 | the cell goes in front of row 0, a missing cell in front of every other row, and each row's old cells follow unchanged |
| VisibleCells.CollapsedRow | projects/lmr-pivot-table/src/lib/util/lmr-pivot-state.ts:47-98 | a collapsed group row: the header spans the columns it covers, covered cells removed, the rest kept |
| VisibleCells.SpannedCount | projects/lmr-pivot-table/src/lib/util/lmr-pivot-state.ts:47-98 | the number of rows the first cell spans, at least one and within the grid |
| VisibleCells.SpannedRows | projects/lmr-pivot-table/src/lib/util/lmr-pivot-state.ts:47-98 | the spanned rows, each marked with its original index |
| VisibleCells.RowOutputShape | projects/lmr-pivot-table/src/lib/util/lmr-pivot-state.ts:47-98 | hidden and missing rows give nothing, header lines are kept, a collapsed group gives one row folded over its header columns, an expanded group puts one header cell spanning all its nested rows, a plain header keeps its spanned rows |
| VisibleCells.CollapseGroupRow | projects/lmr-pivot-table/src/lib/util/lmr-pivot-state.ts:47-98 | the loop builds the collapsed group row |
| VisibleCells.KeepSpannedRows | projects/lmr-pivot-table/src/lib/util/lmr-pivot-state.ts:47-98 | the loop collects the spanned rows |
| VisibleCells.FilterExpandedGroup | projects/lmr-pivot-table/src/lib/util/lmr-pivot-state.ts:76-86 | an expanded group's nested rows, filtered recursively, under its header cell |
| VisibleCells.FilterRow | projects/lmr-pivot-table/src/lib/util/lmr-pivot-state.ts:47-98 | the reduce step produces the row's output |
| VisibleCells.FilterVisibleCells | projects/lmr-pivot-table/src/lib/util/lmr-pivot-state.ts:47-98 | the reduce computes the visible rows |
| VisibleCells.EmptyStateFoldsNothing | projects/lmr-pivot-table/src/lib/util/lmr-pivot-state.ts:47-98 | without state no row is hidden or collapsed |

## Left out

- Angular components, RxJS streams and templates (`lmr-pivot-table.component.ts`, `pivot-tables.component.ts`, the directives and the module) are not part of this model. Only the pure utilities they call are modelled.
- The aggregation itself happens in a foreign data aggregator. The model takes its output (`AggregatedData`) as input. The `transformStems` / `mergePivotData` wiring around that aggregator (`pivot-data-converter.ts:196-251`) and the `constraintData` passed along are left out.
- Only the Sum aggregation is modelled; the Sum of no values is 0. Count, Min, Max, Avg and Join would change only the value a cell holds.
- `dataResources` on cells and the resource lists that aggregation keeps are left out, because they are only passed through to the UI.
- Value formatting is left out. `formatValueByValueType`, `formatGroupedValueByValueType`, the `transform` callbacks and the constraint formatting (`getConstraintForSort`) are taken as the identity, so a cell holds the number itself.
- Colours: `shadeColor` is kept symbolic as `Shade(color, opacityPercent)`. `contrastColor` is not part of this model.
- `pivotAttributesAreSame` (`pivot-util.ts:25-27`) compares attributes through a foreign helper. It is not modelled.
- Expression operand patterns are JavaScript regular expressions in the source. The model uses a substring test (`Matches`).
- TypeScript floating point is modelled by exact reals: rounding is not modelled.
- A header with neither `children` nor `targetIndex` cannot be represented: the header builder never creates one.
- TableConverter.PivotTableConverter.UpdateData: requires `BuiltStem`, a stem as `convertAggregatedData` builds it (full header trees, a rectangular matrix). The source accepts any object.
- TableConverter.PivotTableConverter.TransformData: requires `SumsFit`. When a stem has no column headers, `getColumnsCount` reserves a single column. A top-level column subtotal over several values would need one column per value, so that case is excluded.
- TableConverter.PivotTableConverter.CreateTables: requires every stem to be built and to satisfy `SumsFit`, for the same two reasons.
- TableConverter.PivotTableConverter.TransformData: the data-area facts (leaf cells, group lines, intersections) are stated when the grand total row and columns show no matrix line. UpdateData guarantees this for every side that has headers. For a side without headers the single value line is both, and its cells are not stated.
- TableConverter.PivotTableConverter.CreateTables: states each table's size and header cells in terms of the stem's prepared model. The data-area facts are stated on TransformData, in terms of the converter's state, which the next stem overwrites.
- Expressions.ExtendExpression: the tables use the corrected extension, so a nested expression keeps its own operation. The source flattens it into its parent (see Findings).
- KeyTree.Keys: every key keeps its insertion order. JavaScript's `Object.keys` lists integer-like keys (years, ids) first, in ascending numeric order, so headers with such titles can come out in a different order in the source.
- StemConversion.ConvertAggregatedData: requires `UniformDepth`, every data map nested exactly as deep as its levels, as the aggregator produces it and as merging (only stems with equal level counts) keeps it. The header builder and the fill rely on the same assumption.
- The `label` of header and group header cells (the header's `attributeName`, `pivot-table-converter.ts:168`, `:238`, `:524`, `:554`) is left out: headers here do not carry their attribute name, and none of the modelled operations reads the label; only the UI shows it.
- VisibleCells.FilterVisibleCells: when a first-column row span runs past the end of the grid, the source throws. The model clamps at the grid's end instead. A missing cell, on which the source's `findIndex(cell => cell.isValue)` would throw, counts as a non-value cell.

## Findings

| source | as written | input that shows it | evidently intended | confidence | as-written member | corrected member |
|---|---|---|---|---|---|---|
| projects/lmr-pivot-table/src/lib/util/pivot-table-converter.ts:897-919 | `extendPivotExpression` splices the operands of a nested expression into its parent's operand list, so the nested operation is lost | the expression add(1, multiply(2, 3)) evaluates to 1 + 2 + 3 = 6 | the nested expression keeps its own operation, which `evaluateOperand` supports: the value is 1 + 2 * 3 = 7 | medium, not executed | Expressions.ExtendExpressionAsWritten (shown by Expressions.FlatteningLosesNestedOperation) | Expressions.ExtendExpression |
| projects/lmr-pivot-table/src/lib/util/lmr-pivot-state.ts:24-29 | `toggleExpanded` tests `if (cell.originalRowIndex)`, and 0 is falsy | the first group header of a table with row attributes only, no columns and no values, has originalRowIndex 0; toggling it leaves the state unchanged | any present index toggles its cell: `!= null` | high, not executed | PivotState.ToggleExpandedAsWritten (shown by PivotState.RowZeroIsNeverToggled) | PivotState.ToggleExpanded |
