# SLayer: the compiler's middle, verified

SLayer turns a small semantic query language into SQL. This project models the part of it that is
plain algorithm: names are resolved, saved and derived definitions are inlined, nested formulas are
lowered to a list of named columns, joins are routed and planned, and filters are printed as SQL.
Beside that stand the calendar periods, two closure passes of the dbt importer, and two caches.

The project is written for Dafny 4.11; `dfyconfig.toml` lists its files.

## How the model is laid out

| files | what they model |
|---|---|
| `Models`, `Names`, `Aliases` | models, columns and joins as values; the order of names and paths; `__` aliases |
| `JoinGraph`, `JoinPlan` | routing over stored joins, the choice of a root, and the JOIN list of a query |
| `Cycles`, `ColumnDependencies` | the depth-first cycle search and the save-time check built on it |
| `ColumnInlining`, `InliningResults`, `ColumnExpander` | inlining derived columns: specification, results, and the code as it rewrites references in place |
| `SqlText`, `InliningShape` | SQL written with operators between operands and read back by precedence; what of the input inlining leaves as it is |
| `Formulas`, `FormulaParsing` | formulas, the specs they are parsed into, what both mean, and what a formula is read as |
| `Rewriting` | rewriting known names into quoted aliases: the regular expression on text, one name at a time, the longest first |
| `Lowering`, `LoweringScopes`, `LoweringMeaning`, `LoweringCorrect`, `LoweringReaders` | lowering formulas, as functions on a state, and the proofs about it |
| `LoweringSteps` | the columns lowering emits, field by field: offsets, granularities, partitions, the shift hidden in a change |
| `LoweringLimits`, `LegibleNames` | under which names lowering goes wrong, and under which it never does |
| `QueryLowering`, `Enricher` | whole queries, and the class that lowers them in place |
| `FilterPrinter`, `FilterParser`, `FilterRoundTrip`, `FilterText` | printing filters, an independent reader with standard precedence, and quoting |
| `FilterGrammar`, `FilterSorts` | the grammar behind that reader, and which filters survive printing |
| `NamedMeasures`, `FormulaExpander`, `MeasurePruning` | saved formulas: expansion, the splicing by columns, and the pruning of dangling ones |
| `ArgScanner`, `Variables` | quote-aware scanning of argument text; `{variable}` placeholders |
| `Calendar` | period starts and ends, and the whole-period cutoff |
| `JoinMirror`, `QueryCache`, `EmbeddingCache` | mirrored inner joins, the result cache under interleaved refreshes, the LRU cache of query embeddings |

**Meaning of lowered formulas.** A column's value is the term that computes it: aggregates, operators
and windows are left uninterpreted. `Run` computes the emitted columns in order, and fails at a column
that reads an alias no earlier one has, leaves an identifier unresolved or a quoted alias rewritten in
its middle, or repeats an alias. Two columns that are equal as terms are equal under every reading of
the aggregates and operators.

**Meaning of inlined columns.** `Unfold` reads every derived reference as its definition in the frame
(path and model) it is defined in, without aliases or a root flag; the expanded SQL must be equal to it
up to redundant parentheses. `InliningShape` adds that the tree is the input's, node for node and parenthesis for
parenthesis, so that its text groups as it should.

## What was found

Some of the claims do not hold of the code on all inputs. The model keeps the code as it is, and states
where they hold.

- The names of an expression are rewritten one after the other in its text, so a name can be rewritten
  again inside the quotes of an alias written before. A formula is computed exactly if every name that
  lowering writes can be delimited by word boundaries and no name whose turn comes later stands inside
  its quoted alias (`LoweringCorrect.LoweringKeepsMeaning`; for the change of an aggregate spelled out
  in `LegibleNames.AggregateChangeIsComputed`). Names of letters, digits and underscores are always
  right (`LegibleNames.PlainIsLegible`). A measure without a name goes by its mangled formula: if that
  has `change(m:a)` in it, however deep, it cannot be computed
  (`LoweringLimits.UnnamedNestedChangeDangles`), as with `change(revenue:sum) + 1`.
- A query is lowered to computable columns exactly if, besides, no aggregate is renamed after a formula
  has used it: the rename changes the measure's alias in place, and the formula's reference is left
  behind (`QueryLowering.QueryIsComputable`).
- A bare `_t<k>` beside more than `k` transforms passes for the placeholder of one: that, and nothing
  else, makes a parsed formula mean something else (`FormulaParsing.ParseMeans`). Lowering lets it
  through exactly if the transform stands before it (`LoweringLimits.NamesAreChecked`).
- `a:b_c` and `a_b:c` share one canonical name, and whichever comes second is answered with the first
  (`LoweringLimits.CanonicalNamesClash`).
- A filter is read back from what is printed for it exactly if it is well-sorted: arithmetic under
  comparisons, predicates under AND, OR and NOT, lists after IN only
  (`FilterSorts.RoundTripIffWellSorted`).
- A quoted literal is read right by a dialect without backslash escapes exactly if it holds no backslash
  (`FilterText.LiteralIsPortable`).
- Whether a walk that comes back to the root model keeps the root flag is decided by object identity. If
  each lookup gives a fresh object, as reading a stored model does (slayer/storage/yaml_storage.py:337-360),
  inlining is right; if lookups share objects, it is wrong exactly when the definition reached that way
  walks on to a base column (`ColumnInlining.ExpansionMeans`, with an example in
  `InliningResults.ComingHomeMisreads`). Names ending in `_` make aliases clash (`Aliases.JoinClashes`).
- Expanding a saved formula directly after a name turns that name into a call
  (`MeasurePruning.AdjacentNamesBecomeACall`).
- A refresh could land on an entry's second life if entries were stored twice
  (`QueryCaches.OldEntriesCanReturn`); two misses of one embedding at once cost an entry
  (`EmbeddingCaches.SecondMissShrinks`).

## Model

| member | source | states |
|---|---|---|
| Aliases.JoinOfSplit | slayer/engine/column_dependency.py:42-82 | splitting an alias at `__` and joining it again gives it back, for every string |
| Aliases.SplitOfJoin | slayer/engine/enrichment.py:2562-2571 | the alias of a path of clean names splits into exactly that path |
| Aliases.JoinInjective | slayer/engine/enrichment.py:2562-2571 | different paths of clean names never share an alias |
| Aliases.JoinClashes | slayer/core/models.py:111-117 | two paths with the same alias, once a name may end in `_` |
| JoinGraphs.BuildFromModels | slayer/engine/join_graph.py:35-48 | the nodes are the models; there is an edge exactly for each stored join to a model of the set |
| JoinGraphs.JoinGraph.ReachableFrom | slayer/engine/join_graph.py:50-61 | the result is exactly the set of nodes some edge path leads to |
| JoinGraphs.JoinGraph.ShortestPath | slayer/engine/join_graph.py:63-105 | a real edge path, no longer than any other and first among the shortest; none exactly if the target cannot be reached |
| JoinGraphs.BestPathUnique | slayer/engine/join_graph.py:67-76 | there is only one such path |
| Names.StrLtIsFirstDifference | slayer/engine/join_graph.py:67-76 | names are ordered by the first character they differ in, a prefix coming first |
| Names.PathLtIsFirstDifference | slayer/engine/join_graph.py:67-76 | and paths by the first name they differ in |
| JoinGraphs.MinHopsRoot | slayer/engine/join_graph.py:108-129 | none exactly if no candidate reaches all; else the best root by true distances, mention and name |
| JoinGraphs.BestRootUnique | slayer/engine/join_graph.py:111-119 | the best root does not depend on the order of the candidates |
| JoinPlans.AddWithPrefixes | slayer/engine/enrichment.py:2284-2287 | adds exactly the non-empty prefixes of a path |
| JoinPlans.ResolveJoins | slayer/engine/enrichment.py:2515-2608 | emits exactly one JOIN for each walkable prefix of a needed path, whatever the order of equally long ones; each joins its target's table along a declared join, on its pairs, with its type, to the alias before it; aliases are distinct; each condition uses its own alias and the base or an earlier one; a needed path is joined exactly if all its hops are declared |
| JoinPlans.RowsMatchOnPairs | slayer/engine/enrichment.py:2590-2604 | a row of the model before the last hop and one of the target satisfy a planned entry exactly if they agree on every pair of the stored join, the first column on the left side and the second on the right |
| Models.FirstJoinIsFound | slayer/engine/enrichment.py:2561-2608 | of several joins to one target the first declared is taken |
| JoinPlans.JoinPath | slayer/engine/enrichment.py:2561-2608 | one path is joined up to its first undeclared hop, and all that was planned stays |
| JoinPlans.CleanPathsAreApart | slayer/core/models.py:111-117 | clean model names give every needed path an alias of its own |
| JoinPlans.RoutesAreWalkable | slayer/engine/join_graph.py:63-105 | the routes of the join graph are exactly the paths the planner can walk |
| Cycles.CycleFinder.Visit | slayer/engine/column_dependency.py:174-204 | leaves the stack as it was and the node visited, or returns a closed chain of edges that starts on the stack |
| Cycles.DetectCycle | slayer/engine/column_dependency.py:207-219 | a list is returned exactly if a cycle is reachable from the start, and then it is a cycle reachable from it |
| Cycles.OrderedIsAcyclic | slayer/engine/column_dependency.py:174-204 | a node whose dependencies were all finished before it leads to no cycle |
| ColumnDependencies.ResolveTargetForRef | slayer/engine/column_dependency.py:42-82 | the loop over the hops resolves what the recursive walk does |
| ColumnDependencies.Dependencies | slayer/engine/column_dependency.py:85-171 | the edges of a column are exactly those its references resolve to |
| ColumnDependencies.PrefetchReachableModels | slayer/engine/column_dependency.py:222-250 | the models fetched are the least set around the start that is closed under stored joins |
| ColumnDependencies.ValidateNoColumnCycles | slayer/engine/column_dependency.py:253-279 | raises exactly if the dependency graph over the prefetched models has a cycle, and names one |
| ColumnDependencies.RootsSuffice | slayer/engine/column_dependency.py:266-279 | searching from the derived columns alone misses no cycle |
| ColumnDependencies.AcceptedIsAcyclic | slayer/engine/column_dependency.py:253-279 | what was accepted on the prefetched models is free of cycles in the whole registry as seen from the model |
| ColumnInlining.ExpandMeans | slayer/engine/column_expansion.py:256-321 | in every frame the inliner can be in, expanded SQL has a meaning, and says what the original does, with each derived reference read as its definition in its own frame to any depth, exactly if no base column in it is misplaced |
| ColumnInlining.ExpansionMeans | slayer/engine/column_expansion.py:224-231 | from the root: with fresh objects the meaning is always kept; with shared ones exactly if no coming-home derived reference, met under the root flag, walks on to a base column |
| ColumnInlining.FreshIsNeverMisplaced | slayer/engine/column_expansion.py:224-231 | with fresh objects no reference is misplaced, coming home or not |
| ColumnInlining.TargetsAgree | slayer/engine/column_expansion.py:108-153 | what is emitted is always the alias of a path the root really leads along, and the root flag is kept on the root model only |
| ColumnInlining.InlinedMeans | slayer/engine/column_expansion.py:209-253 | an inlined reference stands for its definition where that is defined, exactly if nothing in that is misplaced |
| ColumnInlining.EvalPlain | slayer/engine/column_expansion.py:245-253 | the parentheses put around a definition change no value, whatever the operators mean |
| InliningShape.ExpandBecomes | slayer/engine/column_expansion.py:245-321 | expanded SQL is the input node for node: same texts, operators and operands in order, parentheses exactly where the input has them; a reference is requalified, left, or a parenthesised definition expanded likewise |
| InliningShape.BecomesOne | slayer/engine/column_expansion.py:245-321 | only one tree stands in that relation to the input |
| InliningShape.ExpandedTextReadsBack | slayer/engine/column_expansion.py:245-253 | written with operators between their operands and no parentheses but its own, it is read by precedence as the same tree, for any operator table; definitions need no outer parentheses |
| SqlText.ReadIffWritten | slayer/engine/column_expansion.py:245-253 | a reader with precedence makes a tree of a text exactly if the text is what the tree is written as and its operands are parenthesised as their precedence calls for |
| InliningResults.RaisesIffCyclic | slayer/engine/column_expansion.py:209-321 | the inliner ends on every registry, and raises, with a cycle, exactly if one is reachable; only a qualifier that spells its host's alias and leads nowhere is excluded |
| InliningResults.CyclicMeansNothing | slayer/engine/column_expansion.py:234-238 | what it raises on has no meaning, however deep definitions are nested |
| InliningResults.AcceptedNeverRaises | slayer/engine/column_dependency.py:253-279 | a model that passed the save-time check never makes the inliner raise |
| InliningResults.ExpandSettles | slayer/engine/column_expansion.py:156-253 | no root-scope reference to a derived column is left, whatever the qualifiers |
| InliningResults.ComingHomeMisreads | slayer/engine/column_expansion.py:224-231 | one walk that ends at the host: with shared objects it is given the host's alias instead of its own, with fresh ones its own |
| ColumnExpander.WalkPathToTarget | slayer/engine/column_expansion.py:108-153 | the loop over the hops finds the specified target and alias |
| ColumnExpander.ProcessColumnNode | slayer/engine/column_expansion.py:156-253 | rewrites one reference in place as specified, or reports the specified cycle, and touches no other |
| ColumnExpander.ExpandDerivedRefs | slayer/engine/column_expansion.py:256-321 | the in-place expansion computes the specified one, errors included |
| FormulaParsing.ParseReads | slayer/core/formula.py:606-712 | a parsed formula means what the formula it is read as means: the written one, with captured placeholder names replaced by their transforms |
| FormulaParsing.ParseMeans | slayer/core/formula.py:606-712 | it means what its syntax tree means exactly if no expression around transforms holds a bare `_t<k>` with k below the number of them, or it means nothing even so |
| FormulaParsing.HoistReads | slayer/core/formula.py:723-791 | with the placeholders given their transforms' values, any expression means what it is read as |
| FormulaParsing.PlaceholderNameIsCaptured | slayer/core/formula.py:754-757 | one such formula: `cumsum(x:sum) + _t0` is read as `cumsum(x:sum)` twice |
| Rewriting.SubstituteIsReplace | slayer/engine/enrichment.py:572-578 | rewriting one name is `re.sub` on the text of an identifier, a quoted alias, or what is left of one |
| Rewriting.ReplacesNext | slayer/engine/enrichment.py:576-577 | every match is replaced, from left to right: what is before the next one stays, and the search goes on behind it |
| Rewriting.StandsInItself | slayer/engine/enrichment.py:576-577 | the pattern of a name matches the name exactly if word boundaries delimit it, and then all of it |
| Rewriting.NameBecomes | slayer/engine/enrichment.py:572-578 | after all names have had their turn, the longest first, an identifier is its quoted alias exactly if it can be delimited and no later name stands inside; else it is in pieces or as it was |
| Rewriting.WordsAreWhole | slayer/engine/enrichment.py:574-577 | no name stands inside a quoted alias of plain words |
| Rewriting.NewestIsWhole | slayer/engine/enrichment.py:574 | for the newest name, those that come later are exactly the shorter ones |
| Lowering.Allocate | slayer/engine/enrichment.py:628-639 | a hidden name is new to public names, hidden names and known aliases |
| Lowering.AllocatesFirst | slayer/engine/enrichment.py:628-639 | it is the preferred name if that is free, and else the first free one of `_2`, `_3`, ... |
| LoweringScopes.EnsureIsSound | slayer/engine/enrichment.py:348-419 | an aggregate is computed once, its key stands for it, and no other name changes its aggregate |
| LoweringScopes.EmitIsSound | slayer/engine/enrichment.py:641-687 | a column under a new name keeps every name and aggregate right |
| LoweringMeaning.ResolveMeans | slayer/engine/enrichment.py:572-578 | resolved SQL has the value of the expression over its names' values, if they are all readable |
| LoweringMeaning.UnreadableIsIllegible | slayer/engine/enrichment.py:572-578 | one name that is not readable leaves the whole expression without a value |
| LoweringMeaning.BindingsAreRestored | slayer/engine/enrichment.py:927-945 | after an expression is resolved the dictionary is exactly what it was, order included |
| LoweringCorrect.FlattenMeans | slayer/engine/enrichment.py:862-1066 | lowering a spec yields computable columns and an alias that holds its meaning, exactly if it has one and every name written at any depth is legible; else a column that has no value |
| LoweringCorrect.LoweringKeepsMeaning | slayer/core/formula.py:606-830 | parsing and lowering any nested formula: computable exactly if what was read means something and is legible, and then the alias holds that meaning |
| LoweringCorrect.HiddenIsFresh | slayer/engine/enrichment.py:913-921 | a hoisted transform's name and all names derived from it are unused |
| LoweringCorrect.ChangeMeans | slayer/engine/enrichment.py:970-1022 | where the names of its operand and shift are legible, `change` and `change_pct` become a shift and an expression with the value of the change |
| LoweringCorrect.ChangeDangles | slayer/engine/enrichment.py:996-1020 | where one is not, the column has no value |
| Rewriting.FirstKeyIsFirst | slayer/engine/enrichment.py:1005-1006 | the operand of a change is named by the first known name of its alias |
| LoweringCorrect.MixedMeans | slayer/engine/enrichment.py:902-954 | an expression around transforms has its nested meaning |
| LoweringSteps.TransformSteps | slayer/engine/enrichment.py:970-1062 | the columns a transform is lowered to, field by field: a change gets `_ts_<field>`, a `time_shift` of its operand by the first argument if that is an integer and by -1 if not, with the second argument's text as granularity and the query's dimensions as partition; any other transform gets one column of its own, by 1 if not told otherwise, partitioned by the dimensions or, for the rank family, by the named columns or nothing |
| LoweringSteps.StepsAreExplained | slayer/engine/enrichment.py:862-1066 | at any depth every window a formula is lowered to is that of one of its transforms, or the shift hidden in one |
| LoweringSteps.ChangeMeaning | slayer/engine/enrichment.py:970-1022 | a change means its operand minus that shift of it |
| LoweringSteps.TransformIsRejected | slayer/engine/enrichment.py:641-687 | when a transform over a lowered operand is rejected: for want of a time dimension or for an unknown partition column |
| LoweringSteps.SelfJoinsDoNotNest | slayer/engine/enrichment.py:970-1034 | a shift or change directly around a change or shift is rejected, a shift around a change excepted |
| LoweringSteps.NestsIffBothJoin | slayer/engine/enrichment.py:970-1034 | and no other nesting is |
| LoweringSteps.TransformIsParsed | slayer/core/formula.py:656-680 | which arguments a transform takes: none but keywords for the rank family, `partition_by` there only, and a positive `n` for `ntile` alone |
| LoweringSteps.ScalarIsParsed | slayer/core/formula.py:640-655 | a call is rejected as unknown exactly if no scalar function has its name in any letter case |
| LoweringSteps.CanonicalIs | slayer/core/refs.py:87-102 | the canonical name of an aggregate, `_count` for `*:count` |
| LoweringSteps.DecimalIsNumber | slayer/engine/enrichment.py:636-639 | the digits of a number are its decimal notation |
| LoweringLimits.UnnamedChangeDangles | slayer/engine/enrichment.py:996-1020 | a change under a name without a word at its end leaves its own shift unresolved |
| LegibleNames.AggregateChangeIsComputed | slayer/engine/enrichment.py:970-1022 | the change of an aggregate is computed exactly if a word boundary can follow its name and no shorter known name, nor the aggregate's, stands inside the shift's quoted alias |
| LegibleNames.PlainIsLegible | slayer/core/models.py:264-272 | under a name of letters, digits and underscores every formula is legible; one that needs no hidden columns under almost any name |
| LoweringLimits.ChangeInsideItsName | slayer/engine/enrichment.py:996-1020 | a change at any depth, under a name that holds its own aggregate's canonical name between word boundaries, cannot be computed |
| LoweringLimits.MangledHolds | slayer/engine/enrichment.py:160-169 | the mangled text of any formula with `(m:a)` in it is such a name |
| LoweringLimits.MangleIsFourReplacements | slayer/engine/enrichment.py:1221-1231 | mangling a text is the four replacements in the whole of it, one after the other |
| LoweringLimits.UnnamedNestedChangeDangles | slayer/engine/enrichment.py:160-169 | so a formula without a name that has `change(m:a)` in it is never computed |
| LoweringLimits.ChangePlusDangles | slayer/engine/enrichment.py:996-1020 | `change(m:a)` plus a number, without a name, is lowered without an error and cannot be computed |
| LoweringLimits.ChangePlusIsParsed | slayer/core/formula.py:794-830 | what that sum is parsed into |
| LoweringLimits.ChangePlusOneDangles | slayer/engine/enrichment.py:160-169 | `change(revenue:sum) + 1`, for one |
| LoweringLimits.NamesAreChecked | slayer/engine/enrichment.py:836-842 | lowering rejects a bare name unless it is the placeholder of an earlier transform of the same expression, and then it does not |
| LoweringLimits.CanonicalNamesClash | slayer/engine/enrichment.py:384-419 | of any two aggregates, the second is answered with the first exactly if their canonical names are equal |
| LoweringLimits.CanonicalNamesCoincide | slayer/core/refs.py:87-102 | two aggregates whose canonical names are equal |
| LoweringReaders.UsedIsRead | slayer/engine/enrichment.py:862-1066 | every aggregate a legible formula uses is read by one of its columns |
| QueryLowering.CheckSurfaces | slayer/engine/enrichment.py:1213-1320 | the pre-pass rejects exactly the queries in which two measures would surface as one or a name is taken |
| QueryLowering.PassesIffApart | slayer/engine/enrichment.py:1213-1320 | it passes exactly if no name surfaces twice or is a dimension's, and no name that was given is the canonical name of another measure's aggregate |
| QueryLowering.RenamedHolds | slayer/engine/enrichment.py:1632-1668 | an aggregate renamed before its first use surfaces under its name and stays right for later references |
| QueryLowering.OwnNameIsNoName | slayer/engine/enrichment.py:1632-1649 | a measure given its own canonical name is lowered like one without a name, and is never late |
| QueryLowering.LateIsStuck | slayer/engine/enrichment.py:1649-1668 | a rename after a use leaves a column that reads an alias nobody has |
| QueryLowering.QueryIsComputable | slayer/engine/enrichment.py:1323-1730 | all columns of a query are computable exactly if no rename is late and each formula means something and is legible in its turn, and then every measure surfaces with its meaning |
| QueryLowering.PlainQueryIsComputable | slayer/core/models.py:264-272 | with plain names, exactly if no rename is late |
| Enrichers.ResolveSql | slayer/engine/enrichment.py:572-578 | the loop over the names leaves a readable identifier as its quoted alias, and nothing else as one |
| Enrichers.Enricher.EnsureAggregatedMeasure | slayer/engine/enrichment.py:348-419 | the state it leaves is the specified one |
| Enrichers.Enricher.AllocateHiddenName | slayer/engine/enrichment.py:628-639 | the search ends, with the first free candidate, which is recorded |
| Enrichers.Enricher.AddTransformStep | slayer/engine/enrichment.py:641-687 | the state it leaves is the specified one, or the error |
| Enrichers.Enricher.ResolveBound | slayer/engine/enrichment.py:922-945 | resolves with the placeholders bound and restores what they shadowed |
| Enrichers.Enricher.FlattenSpec | slayer/engine/enrichment.py:862-1066 | appending in place does what the specification does, for every spec and state |
| Enrichers.Enricher.RenameMeasure | slayer/engine/enrichment.py:1649-1668 | renames the first measure of that alias in place, and lets names and the index follow |
| Enrichers.Enricher.EnrichMeasures | slayer/engine/enrichment.py:1323-1730 | the whole loop does what the specification does; computable exactly if no rename is late and every formula is legible, with every measure's meaning |
| FilterRoundTrip.RoundTrip | slayer/core/formula.py:1189-1427 | a reader with levels of its own, `**` above `*`, `/`, `%` above `+`, `-` above comparisons, NOT, AND, OR, gets every well-sorted filter back from its tokens, up to `\|\|` chains |
| FilterSorts.RoundTripIffWellSorted | slayer/core/formula.py:1189-1427 | of all filters, it gets back exactly the supported and well-sorted ones |
| FilterSorts.ReadIsSorted | slayer/core/formula.py:1204-1256 | however else a tree is put together, its tokens are no reading of it in the grammar |
| FilterGrammar.TakesOr | slayer/core/formula.py:1189-1427 | whatever the reader makes of tokens is a reading of them in the grammar |
| FilterRoundTrip.PrintInjective | slayer/core/formula.py:1189-1427 | filters that print alike are alike up to `\|\|` chains |
| FilterRoundTrip.ReadsSum | slayer/core/formula.py:1310-1369 | sums regroup to the left exactly as they were nested |
| FilterRoundTrip.ReadsConcat | slayer/core/formula.py:1299-1307 | a `\|\|` chain is read back as one `concat` of its operands in order |
| FilterRoundTrip.ComparedComparisonIsLost | slayer/core/formula.py:1204-1256 | a comparison whose left side is a comparison, NULL tests aside, cannot be read at all |
| FilterText.LiteralReadsBack | slayer/core/formula.py:1459-1477 | where backslash escapes, every value is read back whole and ends where its literal ends |
| FilterText.LiteralReadsDoubled | slayer/core/formula.py:1469-1475 | elsewhere its backslashes arrive doubled, and nothing else changes |
| FilterText.LiteralIsPortable | slayer/core/formula.py:1469-1475 | so it is right there exactly if it has no backslash |
| FilterText.ColumnsArePrinted | slayer/core/formula.py:1274-1283 | the reported columns are the column names of the printed SQL, in its order |
| FilterText.SupportedIffNoneRejected | slayer/core/formula.py:1204-1427 | the printer accepts a tree exactly if none of its nodes is one it rejects: a chained comparison, an unmapped operator, a minus before anything but a number, a call of an unknown function |
| NamedMeasures.ExpansionRaisesIffCyclic | slayer/core/formula.py:468-540 | expansion ends for every library and raises exactly if a reference cycle is reachable |
| NamedMeasures.ReferencesAreBareNames | slayer/core/formula.py:522-533 | what refers to a saved formula: its name, neither after `.` or `:` nor before `.`, `:`, `(` or `=` |
| NamedMeasures.ExpansionIsSubstitution | slayer/core/formula.py:522-560 | by any solution of the library's formulas, expansion is one simultaneous substitution |
| NamedMeasures.ExpansionsSolve | slayer/core/formula.py:535-540 | the expanded formulas are such a solution |
| NamedMeasures.ExpansionIsIdempotent | slayer/core/formula.py:468-560 | expanding twice is expanding once |
| FormulaExpander.ExpandNamedMeasures | slayer/core/formula.py:468-560 | finding references by columns and splicing from right to left yields the text of the expansion, or its error |
| FormulaExpander.ReplaceToken | slayer/core/formula.py:556-560 | cutting one reference out by its columns leaves the columns to its left valid |
| MeasurePruning.ParsingIsResolving | slayer/core/formula.py:563-603 | a formula parses exactly if every bare name resolves, transitively and without a cycle |
| MeasurePruning.LastOfItsName | slayer/dbt/converter.py:239-265 | of two measures of one name the later counts |
| MeasurePruning.AdjacentNamesBecomeACall | slayer/core/formula.py:535-540 | why names must be separated |
| MeasurePruning.SweepIsFinal | slayer/dbt/converter.py:239-265 | one sweep reaches the fixpoint, and what it leaves supports itself |
| MeasurePruning.PruneModelMeasures | slayer/dbt/converter.py:239-265 | the survivors are the greatest self-supporting set, in order; each other is reported once; at most one more sweep follows |
| JoinMirrors.Importer.MirrorModel | slayer/dbt/converter.py:204-221 | the scan of a list that it appends to ends, with every join in it mirrored |
| JoinMirrors.Importer.MirrorInnerJoins | slayer/dbt/converter.py:202-221 | every inner join to a known model has its reverse; old joins stay a prefix; only reverses are added; a second run adds none |
| JoinMirrors.ReverseJoinsTheSame | slayer/dbt/converter.py:209-221 | the reverse of a join joins the same rows, seen from the other model |
| JoinMirrors.SelfJoinIsOneFewer | slayer/dbt/converter.py:209-221 | what a self-join can still add shrinks with each addition |
| QueryCaches.QueryCache.Read | slayer/engine/cache.py:174-185 | returns the live entry exactly if it has not outlived the TTL, and drops it if it has |
| QueryCaches.QueryCache.CommitReplace | slayer/engine/cache.py:209-233 | writes exactly if the very entry that was snapshotted is at its key |
| QueryCaches.CommitNeverGrows | slayer/engine/cache.py:209-233 | a commit never makes the cache larger, and changes no other keys |
| QueryCaches.GoneForGood | slayer/engine/cache.py:217-226 | over any run with fresh entries, one that is gone never comes back |
| QueryCaches.CommitLandsIffLiveThroughout | slayer/engine/cache.py:201-233 | over any interleaving, a refresh lands exactly if its entry was there from snapshot to commit; else nothing changes |
| QueryCaches.OldEntriesCanReturn | slayer/engine/cache.py:217-226 | why the entries must be fresh |
| EmbeddingCaches.AnyInterleaving | slayer/embeddings/client.py:375-409 | at most 64 entries after any interleaving, each the last vector admitted for its key |
| EmbeddingCaches.UseKeepsLast | slayer/embeddings/client.py:394-408 | moving a used key to the end and dropping the oldest keeps the last 64 by use |
| EmbeddingCaches.SixtyFourAreKept | slayer/embeddings/client.py:402-408 | up to 64 uses lose no key |
| EmbeddingCaches.StripsToNothing | slayer/embeddings/client.py:390 | stripping leaves nothing of a text exactly if it is all white space |
| EmbeddingCaches.EmbeddingCache.EmbedQuery | slayer/embeddings/client.py:379-409 | answers what the embedding gives, and keeps the keys in order of last use, the last 64 of them |
| EmbeddingCaches.SecondMissShrinks | slayer/embeddings/client.py:402-408 | a second miss of the same key at full size loses an entry unless it is the oldest |
| Calendars.OrdinalsAreOrdered | slayer/core/enums.py:79-123 | days are numbered in calendar order, one number each |
| Calendars.AddDaysAdds | slayer/core/enums.py:85-90 | adding days adds to the number, and fails exactly at the ends of the calendar |
| Calendars.PeriodsTile | slayer/core/enums.py:79-123 | for every granularity: a day is in its period, and a day is in a period exactly if it starts there |
| Calendars.SamePeriodIffAlike | slayer/core/enums.py:79-98 | two days share a period exactly if, by their fields: the same year; the same year and block of three months; the same year and month; the same seven days from a Monday or a Sunday; the same day. The period starts with the earliest of them |
| Calendars.FirstDay | slayer/core/enums.py:84-90 | day 1 is 1 January of year 1, a Monday |
| Calendars.Epoch | slayer/core/enums.py:84-90 | day 719163 is 1 January 1970, a Thursday |
| Calendars.NextPeriodStarts | slayer/core/enums.py:79-123 | the day after a period starts its own |
| Calendars.WeeksAreWeeks | slayer/core/enums.py:84-108 | WEEK is Monday to Sunday, WEEK_SUNDAY Sunday to Saturday |
| Calendars.PeriodsRefine | slayer/core/enums.py:91-98 | same month, same quarter; same quarter, same year |
| Calendars.StartsAndEndsRefine | slayer/core/enums.py:91-122 | quarters start and end with months, years with quarters |
| Calendars.StartExists | slayer/core/enums.py:79-98 | where a period start is out of the calendar |
| Calendars.EndExists | slayer/core/enums.py:100-123 | where a period end is, December 9999 as a month included |
| Calendars.CutoffIsTheDayBefore | slayer/core/query.py:501-523 | the whole-period cutoff is the day before the current period |
| ArgScanner.FindBalancedClose | slayer/core/formula.py:218-242 | the first index where the depth outside quotes reaches zero, or -1 if there is none |
| ArgScanner.SplitArgs | slayer/core/formula.py:348-385 | cuts exactly at the commas outside quotes and parentheses; joined again the parts are the text, up to one final comma |
| ArgScanner.InsideParentheses | slayer/core/formula.py:218-242 | inside a balanced pair both scanners follow one automaton |
| Variables.ValuesAreNotRescanned | slayer/core/query.py:41-83 | a text is taken apart before any value is known; values are inserted as they are |
| Variables.SubstitutesIffSupplied | slayer/core/query.py:41-83 | with scalar values and no malformed placeholder, it succeeds exactly if all names are supplied |
| Variables.MalformedRaises | slayer/core/query.py:76-81 | a malformed placeholder always raises |
| Variables.OnlyItsNamesMatter | slayer/core/query.py:41-83 | the result depends on no other variables |
| Variables.DoublingIsUndone | slayer/core/query.py:41-61 | substitution undoes brace doubling on every string |
| Variables.PlaceholderBecomes | slayer/core/query.py:41-83 | a placeholder in front of a text comes to its value and then the rest, or to an error: for a name that is no identifier, that is undefined, or whose value is no scalar |
| Variables.OthersStay | slayer/core/query.py:41-83 | every other character stays, a brace that is neither doubled nor closed included |
| Variables.ExtractPlaceholderNames | slayer/core/query.py:86-99 | exactly the names of the filters' placeholders |

## Left out

Whole areas:

- The SQL generator, the query engine, storage, session policies, search, the servers and the command line are not part of this model.
- sqlglot and Python's own parsers: SQL, formulas and filters are datatypes or token lists; a reference carries the flag "in the root scope".
- Locks, awaits and the event loop, except as the interleaving points of the two caches.
- Batched embedding calls with their per-input retry and the parsing of vectors: straight loops over lists.
- `_rewrite_funcstyle_aggregations` and the text substitution of `resolve_filter_columns`: neither keeps the clean property one would state of it.
- Snapping filters to whole periods beyond the cutoff date: whether a filter "mentions" a dimension is a substring test.

What single parts do not capture:

- Cross-model aggregates, windowed aggregates, filters, labels and declared types of measures are not lowered here; what makes an aggregate unresolvable is a given set.
- LoweringCorrect.LoweringKeepsMeaning: takes for granted of user names what the code does not check: canonical names are distinct, differ from formula names, and none looks like `_inner_`, `_ts_`, `_t` and a digit, or `__agg`.
- Rewriting.NameBecomes: names are sought in one identifier or quoted alias at a time, not across them; numbers, strings, operators and function names are not rewritten, so a measure named like one is not in the model; a text in pieces is taken to have no value.
- Arity checks of `abs` and `round`.
- The names of an expression without transforms are collected in the order of its text, not breadth first; this changes only the order of measures.
- Word characters are ASCII.
- ColumnInlining.ExpandMeans: assumes that names joined by `__` are unambiguous and that no SQL it meets spells the engine's own alias for its host; shared objects are one for each name, the host included.
- Whether a column's SQL is only its own name is decided in the input, not by the regular expression that decides it in the code.
- FilterRoundTrip.RoundTrip: takes a negative number as one token.
- Multi-line formulas, blanks after the last token, and comments in formulas.
- MeasurePruning.PruneModelMeasures: formulas are judged by the names in them; measure names are unique and no name directly follows another, as in any expression.
- JoinPlans.ResolveJoins: needs the needed paths to have different aliases, which clean names give; the scans that find the needed paths in SQL are left out.
- EmbeddingCaches.EmbeddingCache.EmbedQuery: the embedding call is a function of model and text.
- Error messages are reduced to what they name.
