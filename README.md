# View selector engine of the Android agent, in Dafny

This project models how the Frida agent searches an Android app's view tree.
It covers two revisions:

- `agent/core/view.ts`, the current revision: a `Selector` whose builder
  methods (`text`, `desc`, `id`, `class`, `boundsInside`, `boundsContains`,
  `filter`) append *weighted* filters. `find('dfs' | 'bfs')` walks the
  subtree, keeps every view whose filter weights multiply to a non-zero
  value, and returns the heaviest one. Ties go to the earliest view visited,
  because the sort is stable. `findAll()` returns every view that passes, in
  pre-order.
- `agent/view.ts`, the old revision: boolean filters, an early-exit
  depth-first `find()` and a `findAll()`. It also has the `mHighlightViews`
  registry behind `highlight(state)` and the hooked `isShowingLayoutBounds`.
  Its `text` getter calls `isInstance()` without the view, which throws; the
  old selector is modelled with the getter the evident intent gives, and the
  searches as written are modelled beside it (see "## Findings").

Both revisions also model these `ViewWrapper` parts:

- the accessors the filters read: `children`, `text`, `id` and `idHex`, plus
  the JavaScript `parseInt` that the numeric `id` filter applies to `idHex`;
- the `getListeners` name mapping;
- the `tree(limit)` printer.

The `children`, `id` and `idHex` getters and `tree` are the same in both
revisions. One model serves both; the rows below cite the current file.

The view tree is a value: a `Node` with its attributes and either
`NotGroup` or `Group(children)`. The three walks and the printer follow the
source's own steps:

- recursion over the children;
- the queue with a head index;
- the path stack with push and pop.

Each is proved equal to a reference definition, and the promised properties
are proved about those definitions. The depth-first walks and the printer
follow the tree's pre-order. The queue walk follows the queue run `BfsRun`.
That run is proved to visit a permutation of the pre-order and to ascend in
depth. Within each depth it keeps pre-order, that is, left-to-right, order.
Each recursive walk's `for` loop over the children is a method of its own,
mutually recursive with the walk.

Properties of the code that a reader might expect otherwise:

- `find('dfs')` does not always return a view `findAll()` returns. With
  `boundsContains`, the depth-first walk passes the depth as the weight,
  while `findAll()` passes no depth, and the filter then weighs every view 0.
  This is `CoreProperties.PointFilterWalksDisagree`. The two walks agree
  when no filter looks at the depth (`CoreProperties.DepthBlindFindInFindAll`).
  `find('bfs')` always returns a `findAll()` view
  (`CoreProperties.BfsFindInFindAll`).
- `find('bfs')` never passes a depth either, so with `boundsContains` it
  finds nothing at all, rather than the first view containing the point.
- A view is accepted when its product of weights is non-zero, not when it is
  positive: a custom filter returning a negative weight keeps the view.

## Model

| member | source | states |
|---|---|---|
| Nodes.Children | agent/core/view.ts:301-313 | `children` is null exactly for a view that is not a `ViewGroup`; otherwise it is the view's children in child order |
| Nodes.GetChildren | agent/core/view.ts:301-313 | the getter's loop yields `getChildCount()` children, element `i` being `getChildAt(i)`, and so equals `Children` |
| Nodes.IdName | agent/core/view.ts:339-349 | `id` is null for `NO_ID`; it is a name exactly when the id is positive, its package is known and the view has resources, and then it is the resource entry name |
| Nodes.PreorderShape | agent/core/view.ts:216-230 | the depth-first order visits as many views as the subtree holds, the root first with its own path |
| Nodes.PreorderAddresses | agent/core/view.ts:223-227 | every visited view's path extends the root's path and leads from the root to exactly that view |
| Nodes.PreorderDepths | agent/core/view.ts:216-226 | the depth `dfs` passes is the path length plus one: the root has depth 1, each child one more than its parent |
| Nodes.ChildCount | agent/core/view.ts:306 | `getChildCount()` is asked only of a `ViewGroup`, and is the number of its children |
| Nodes.ChildAt | agent/core/view.ts:309 | `getChildAt(i)` is the `i`-th child of the group, in child order |
| IdFormat.IdHex | agent/core/view.ts:354-360 | `idHex` is "-1" for `NO_ID`, and otherwise "0x" followed by hex digits for a non-negative id, or by "-" for an id below -1 |
| IdFormat.ParseInt | agent/core/view.ts:112 | `parseInt` is NaN for the empty string; a string starting with a digit 1-9 reads as a non-negative number; a negative result needs a leading "-" |
| IdFormat.Digits | agent/core/view.ts:359 | `toString(radix)` of a non-negative number is a non-empty string of digits of that radix |
| IdFormat.DigitPrefix | agent/core/view.ts:112 | the run `parseInt` reads is the longest prefix of digits: every character in it is a digit and the next one is not |
| IdFormat.DigitsRoundTrip | agent/core/view.ts:359 | reading back the digits `toString(radix)` writes gives the number |
| IdFormat.DigitsParse | agent/core/view.ts:112 | in radix 10 and 16, `parseInt` reads back all of what `toString` wrote, and the value is the number |
| IdFormat.IdHexRoundTrip | agent/core/view.ts:354-360 | `parseInt(idHex)` gives back the id, both for `NO_ID` ("-1") and for every non-negative id ("0x...") |
| IdFormat.IdHexNegativeIsNaN | agent/core/view.ts:354-360 | for an id below -1, `idHex` is "0x-..." and `parseInt` of it is NaN |
| Matchers.TextMatches | agent/core/view.ts:70-80 | the text test fails on a null text; with a string it holds exactly when the text equals it |
| Matchers.DescMatches | agent/core/view.ts:90-100 | the description test fails on a null description; with a string it holds exactly when the description equals it |
| Matchers.IdMatches | agent/core/view.ts:110-123 | with a string or pattern, the id test needs a non-null `id`; with a string it holds exactly when the `id` equals it |
| Matchers.ClassMatches | agent/core/view.ts:132-149 | with a class name it holds exactly when the view's class name equals it; with a class handle whose `isInstance` throws it fails |
| Matchers.Encloses | agent/core/view.ts:182-183 | a well-formed bounds rectangle lies inside `rect` exactly when both its top-left and bottom-right corners do |
| Matchers.ContainsPoint | agent/core/view.ts:195 | the point lies within the bounds, all four edges included |
| Matchers.IdNumberMatches | agent/core/view.ts:111-113 | `id(k)` with a number accepts a view iff its id is `k`, for `NO_ID` and non-negative ids; it never accepts a view with another negative id |
| Matchers.IdPatternNeedsName | agent/core/view.ts:115-123 | `id` with a string or pattern rejects every view whose `id` getter is null |
| Matchers.EdgesInclusive | agent/core/view.ts:182-198 | all four edges of `boundsInside` and of `boundsContains` are inclusive, and moving any one edge outward by one unit breaks the test |
| CoreFilters.Weight | agent/core/view.ts:70-199 | every filter but `boundsContains` and `filter(func)` weighs 0 or 1; `boundsContains` weighs non-zero exactly when a non-zero depth is passed and the point lies within the bounds |
| CoreFilters.Every | agent/core/view.ts:218-220 | `every` fails only with the running weight at 0; over a non-empty filter list it succeeds exactly when the final weight is non-zero |
| CoreFilters.AllNonZeroIff | agent/core/view.ts:268 | `every(func => func(view))` holds iff every filter gives a non-zero weight |
| CoreFilters.ProductNonZero | agent/core/view.ts:218-221 | the product of the weights is non-zero iff no single weight is zero |
| CoreFilters.EveryIsProduct | agent/core/view.ts:218-221 | `every` with `weight *= func(...)` succeeds iff the full product is non-zero, and leaves `weight` holding that product, even though it stops at the first zero |
| CoreFilters.Acceptance | agent/core/view.ts:218-222 | starting from `weight = 1`, a view is pushed iff every filter weight is non-zero, and it is pushed with the product of the weights |
| CoreFilters.PointInWeight | agent/core/view.ts:192-201 | `boundsContains` weighs 0 outside the bounds and `depth ?? 0` inside: 0 without a depth, the depth with one |
| CoreFilters.FourNumbersLikeOneRect | agent/core/view.ts:156-190 | `boundsInside(l, t, r, b)` weighs every view like `boundsInside({l, t, r, b})`, which is 1 exactly when the view's bounds lie inside |
| CoreFilters.BuiltinsIgnoreDepth | agent/core/view.ts:69-190 | every built-in filter except `boundsContains` gives 0 or 1 and ignores the depth |
| Ranking.FirstMaxIndex | agent/core/view.ts:256-259 | the chosen entry weighs at least as much as every entry, and strictly more than every earlier one |
| Ranking.Insert | agent/core/view.ts:256-258 | inserting into the sorted list adds exactly that entry and keeps the list in descending order |
| Ranking.SortDesc | agent/core/view.ts:256-258 | the sort returns a permutation of the candidates in descending weight |
| Ranking.SortDescHead | agent/core/view.ts:256-259 | after the stable sort, the first entry is the earliest-visited candidate of greatest weight |
| CoreTraversal.EveryDecides | agent/core/view.ts:218-222 | the `every` test decides exactly the reference acceptance: one entry with the product weight when every filter passes, none otherwise |
| CoreTraversal.Dfs | agent/core/view.ts:216-230 | `dfs(view, depth)` returns the candidates of the subtree in pre-order, each view weighed at its depth |
| CoreTraversal.DfsChildren | agent/core/view.ts:223-228 | the `for` loop over the children returns their subtrees' candidates one after another, in child order, each one level deeper |
| CoreTraversal.BfsStepShrinks | agent/core/view.ts:236-247 | each turn of the queue loop leaves fewer views to visit, so the loop ends |
| CoreTraversal.QueueAdvance | agent/core/view.ts:237-246 | one turn of the loop moves the head task to the visited part and its children, one level deeper, to the end of the queue |
| CoreTraversal.Bfs | agent/core/view.ts:232-249 | `bfs(root)` returns the candidates in queue order, each view weighed without a depth |
| CoreTraversal.FindAllFrom | agent/core/view.ts:266-278 | `inner(view)` of `findAll` returns the views of the subtree that pass every filter called without a depth, in pre-order |
| CoreTraversal.FindAllChildren | agent/core/view.ts:271-276 | the `for` loop over the children returns their subtrees' matching views one after another, in child order |
| CoreProperties.BfsRunPermutes | agent/core/view.ts:236-247 | from any queue, the loop takes every view below the queued tasks exactly once |
| CoreProperties.LevelOrderVisitsAll | agent/core/view.ts:232-249 | `bfs` visits every view of the tree exactly once, at its depth: its order is a permutation of the pre-order with depths |
| CoreProperties.QueueOkStep | agent/core/view.ts:237-246 | taking the head and pushing its children keeps the queue's depths ascending and within one level of the head |
| CoreProperties.BfsRunAscending | agent/core/view.ts:236-247 | from a well-shaped queue, tasks are taken in ascending depth, none shallower than the first |
| CoreProperties.LevelOrderAscending | agent/core/view.ts:234-246 | `bfs` starts at the root with depth 1 and never visits a view before a shallower one |
| CoreProperties.RunLevel | agent/core/view.ts:236-247 | from a queue `a + c`, the loop visits the tasks of `a` in order, then runs on `c` followed by the children of `a`'s tasks, in order |
| CoreProperties.LevelOrderWithinLevel | agent/core/view.ts:232-249 | at each depth, `bfs` visits the views of that depth in the order pre-order visits them: left to right |
| CoreProperties.DfsNoFilters | agent/core/view.ts:216-222 | with no filters, `dfs` keeps every view with weight 1, in order |
| CoreProperties.BfsNoFilters | agent/core/view.ts:237-242 | with no filters, `bfs` keeps every view with weight 1, in order |
| CoreProperties.MatchingNoFilters | agent/core/view.ts:266-270 | with no filters, `findAll` keeps every view |
| CoreProperties.FirstMaxOfEqual | agent/core/view.ts:256-259 | among equal weights the first entry is chosen |
| CoreProperties.NoFilters | agent/core/view.ts:215-280 | with no filters, `find` returns the search root under both algorithms, and `findAll` returns the whole subtree in pre-order, root first |
| CoreProperties.PointInRejects | agent/core/view.ts:192-201 | a `boundsContains` filter called without a depth rejects every view |
| CoreProperties.PointInRejectsBfs | agent/core/view.ts:238-240 | so with `boundsContains`, `find('bfs')` has no candidate at all |
| CoreProperties.PointInRejectsFindAll | agent/core/view.ts:268 | and `findAll()` returns nothing |
| CoreProperties.ZeroFilterRejects | agent/core/view.ts:218-222 | a filter in the list that weighs every view 0 makes every view fail the `every` test, at any depth or none |
| CoreProperties.ZeroFilterDfs | agent/core/view.ts:216-222 | with such a filter, `dfs` yields no candidate |
| CoreProperties.ZeroFilterBfs | agent/core/view.ts:237-242 | with such a filter, `bfs` yields no candidate |
| CoreProperties.ZeroFilterFindAll | agent/core/view.ts:266-270 | with such a filter, `findAll()` keeps no view |
| CoreProperties.BuiltinIsDepthBlind | agent/core/view.ts:69-190 | every built-in filter other than `boundsContains` weighs a view the same at every depth |
| CoreProperties.DepthBlindDfsIsFindAll | agent/core/view.ts:215-280 | when no filter looks at the depth, the `dfs` candidates are exactly `findAll()`'s views, in the same order |
| CoreProperties.BestIsCandidate | agent/core/view.ts:251-259 | the view `find` returns is one of the candidates |
| CoreProperties.DepthBlindFindInFindAll | agent/core/view.ts:215-280 | with depth-blind filters, `find('dfs')` returns a view that `findAll()` returns too |
| CoreProperties.BfsCandidatesMembers | agent/core/view.ts:237-242 | a view is a `bfs` candidate iff it is queued and passes every filter called without a depth |
| CoreProperties.MatchingMembers | agent/core/view.ts:266-278 | a view is in `findAll()`'s result iff it is visited and passes every filter called without a depth |
| CoreProperties.BfsCandidatesAreFindAll | agent/core/view.ts:232-280 | the `bfs` candidates and `findAll()`'s result contain the same views |
| CoreProperties.BfsFindInFindAll | agent/core/view.ts:232-280 | the view `find('bfs')` returns is always one `findAll()` returns |
| CoreProperties.PointFilterWalksDisagree | agent/core/view.ts:192-260 | on a parent holding a centred child, `boundsContains(5, 5)` makes `find('dfs')` return the child (weight 2 over 1), `find('bfs')` return null and `findAll()` return nothing |
| CoreSelector.Selector.constructor | agent/core/view.ts:58-63 | a new selector searches from the wrapper it was made for, with no filters |
| CoreSelector.Selector.Text | agent/core/view.ts:69-83 | `text(pattern)` appends the text filter and returns the same selector |
| CoreSelector.Selector.Desc | agent/core/view.ts:89-103 | `desc(pattern)` appends the description filter and returns the same selector |
| CoreSelector.Selector.Id | agent/core/view.ts:109-126 | `id(param)` appends the id filter and returns the same selector |
| CoreSelector.Selector.Class | agent/core/view.ts:132-149 | `class(param)` appends the class filter and returns the same selector |
| CoreSelector.Selector.BoundsInside | agent/core/view.ts:156-190 | `boundsInside(...args)` appends the enclosure filter and returns the same selector |
| CoreSelector.Selector.BoundsContains | agent/core/view.ts:192-201 | `boundsContains(x, y)` appends the point filter and returns the same selector |
| CoreSelector.Selector.Filter | agent/core/view.ts:207-210 | `filter(func)` appends the custom weight function and returns the same selector |
| CoreSelector.Selector.Find | agent/core/view.ts:215-260 | `find` returns null iff the chosen walk has no candidate, and otherwise the first candidate of greatest weight in visiting order |
| CoreSelector.Selector.FindAll | agent/core/view.ts:265-280 | `findAll` returns the views that pass every filter called without a depth, in pre-order |
| CoreSelector.BestIsFirstMaximum | agent/core/view.ts:251-259 | `find`'s choice is null only for no candidates; otherwise it is a candidate of greatest weight, and every earlier candidate weighs strictly less |
| CoreSelector.ZeroFilterFindsNothing | agent/core/view.ts:215-280 | with a filter that weighs every view 0, whatever the other filters, `find` returns null under both algorithms and `findAll()` returns an empty list |
| LegacyView.TextViewIsInstance | agent/view.ts:225 | `isInstance` through the bridge throws unless it gets exactly one argument, and then tells whether the view is a `TextView` |
| LegacyView.TextAsWritten | agent/view.ts:224-229 | as written, the old `text` getter throws for every view |
| LegacyView.TextOf | agent/view.ts:224-229 | with the view passed to `isInstance`, the getter yields the view's text, null for a view that is not a `TextView` |
| LegacyView.TextFilterIntended | agent/view.ts:67-81 | with the intended getter, `text(pattern)` accepts exactly the views with a text the pattern matches, and never a view without one |
| LegacyView.Highlighted | agent/view.ts:281-291 | `highlight(true)` stores "#" for the view, `highlight(false)` removes it, and no other view's entry changes |
| LegacyView.Lookup | agent/view.ts:24 | `mHighlightViews.get(view)` is the stored value for a registered view and null otherwise |
| LegacyView.HighlightEffect | agent/view.ts:22-28 | after `highlight(state)`, the hooked `isShowingLayoutBounds` answers true for the view when `state` is true, or else the original answer; other views answer as before |
| LegacyView.ShowsBounds | agent/view.ts:23-28 | the hooked method answers true for a registered view and the original answer for any other |
| LegacyView.HighlightUndo | agent/view.ts:281-291 | for a view not highlighted before (`v !in m`), highlighting it and then un-highlighting it restores the registry and every answer |
| LegacyView.HighlightRegistry.constructor | agent/view.ts:22 | the registry starts empty |
| LegacyView.HighlightRegistry.Highlight | agent/view.ts:281-291 | `highlight(state)` updates the registry as `Highlighted` describes |
| LegacyView.HighlightRegistry.IsShowingLayoutBounds | agent/view.ts:23-28 | the hook answers true for a registered view and otherwise defers to the original method |
| LegacySelector.Holds | agent/view.ts:67-164 | the old text filter holds exactly when the pattern matches the getter's text; a class handle whose `isInstance` throws rejects; `boundsInside` holds exactly when the bounds lie inside the rectangle |
| LegacySelector.OldFindFrom | agent/view.ts:167-181 | the early-exit `inner(view)` returns the first view of the subtree, in pre-order, that passes every filter, or null |
| LegacySelector.OldFindChildren | agent/view.ts:171-180 | the `for` loop over the children returns the first match among their subtrees, in pre-order, or null when none has one |
| LegacySelector.OldFoundInChild | agent/view.ts:173-177 | when a child's search succeeds after all earlier children's subtrees had no match, its result is the first match among all the children's subtrees |
| LegacySelector.OldFindAllFrom | agent/view.ts:186-198 | the old `inner(view)` of `findAll` returns the views of the subtree that pass every filter, in pre-order |
| LegacySelector.OldFindAllChildren | agent/view.ts:191-196 | the `for` loop over the children returns their subtrees' matching views one after another, in child order |
| LegacySelector.OldSelector.constructor | agent/view.ts:63-65 | a new old selector searches from its wrapper, with no filters |
| LegacySelector.OldSelector.Text | agent/view.ts:67-81 | `text(pattern)` appends the text filter and returns the same selector |
| LegacySelector.OldSelector.Desc | agent/view.ts:83-97 | `desc(pattern)` appends the description filter and returns the same selector |
| LegacySelector.OldSelector.Id | agent/view.ts:99-116 | `id(param)` appends the id filter and returns the same selector |
| LegacySelector.OldSelector.Class | agent/view.ts:118-134 | `class(param)` appends the class filter and returns the same selector |
| LegacySelector.OldSelector.BoundsInside | agent/view.ts:136-159 | `boundsInside(rect)` appends the enclosure filter and returns the same selector |
| LegacySelector.OldSelector.Filter | agent/view.ts:161-164 | `filter(func)` appends the custom predicate and returns the same selector |
| LegacySelector.OldSelector.Find | agent/view.ts:166-183 | the old `find()` returns null iff no view passes, and otherwise the first passing view in pre-order, which is the first element of `findAll()` |
| LegacySelector.OldSelector.FindAll | agent/view.ts:185-200 | the old `findAll()` returns every passing view of the subtree, in pre-order |
| LegacySelector.OldNoFilters | agent/view.ts:185-200 | with no filters, the old `findAll()` returns every view visited |
| LegacySelector.OldNoFiltersFindsRoot | agent/view.ts:166-183 | with no filters, the old `find()` returns the root, and `findAll()` returns the whole subtree |
| LegacySelector.OldMatchingMembers | agent/view.ts:185-200 | a view is in the old `findAll()`'s result iff it is visited and passes every filter |
| LegacySelector.TranslateWeight | agent/view.ts:67-164 | each old boolean filter has a current weighted counterpart that weighs 1 when the old filter accepts and 0 when it rejects, at any depth |
| LegacySelector.TranslateIsDepthBlind | agent/view.ts:67-164 | those counterparts never look at the depth |
| LegacySelector.TranslatedProduct | agent/view.ts:168 | the counterparts all pass a view exactly when the old filters all hold, and then the product is 1 |
| LegacySelector.RevisionsAgreeOnFindAll | agent/view.ts:185-200 | the current `findAll()` with the counterparts returns what the old `findAll()` returns |
| LegacySelector.TranslatedWeightsOne | agent/core/view.ts:216-222 | with the counterparts, every `dfs` candidate weighs 1 |
| LegacySelector.RevisionsAgreeOnFind | agent/view.ts:166-183 | the current `find('dfs')` with the counterparts returns what the old early-exit `find()` returns |
| LegacyAsWritten.CallAsWritten | agent/view.ts:67-81 | as written, calling the text filter throws, and every other old filter returns what it decides |
| LegacyAsWritten.EveryAsWrittenSpec | agent/view.ts:168 | as written, the `every` test throws exactly when it reaches a text filter, and otherwise decides what the intended test decides; with a text filter in the list it never accepts |
| LegacyAsWritten.FindAllAsWrittenSpec | agent/view.ts:185-200 | as written, `findAll()` throws exactly when some view's test reaches a text filter, and otherwise returns what the intended `findAll()` returns |
| LegacyAsWritten.FindAsWrittenSpec | agent/view.ts:166-183 | as written, `find()` without a text filter returns what the intended `find()` returns; with one, it never finds a view, and it throws exactly when some view's test reaches the text filter |
| LegacyAsWritten.TextFilterAbortsSearch | agent/view.ts:224-229 | on a `TextView` showing "OK", `text('OK')` makes both searches throw, where the intended `find()` returns the view |
| Listeners.Capitalize | agent/core/view.ts:449 | capitalising keeps the length and every character after the first; a lower-case first letter becomes its capital, and any other first character leaves the name unchanged |
| Listeners.ListenerField | agent/core/view.ts:449-450 | the field read for a name is "mOn", the capitalised name, then "Listener" |
| Listeners.ParseListenerField | agent/core/view.ts:455 | a capture is a non-empty run of letters that follows "mOn" at the start of the field name, with room for the suffix after it |
| Listeners.ParseSound | agent/core/view.ts:455 | every name the field pattern accepts is "mOn", a non-empty run of letters (the capture), then "Listener" or "Listeners" |
| Listeners.ParseComplete | agent/core/view.ts:455 | every such name is accepted, with that run as its capture |
| Listeners.ListedUnderCapitalized | agent/core/view.ts:449-455 | the field read for a name made of letters is listed under the capitalised name |
| Listeners.LookupReadsListedField | agent/core/view.ts:447-458 | a listed singular field whose capture does not start with a lower-case letter is the field that looking up its capture reads |
| Listeners.FromEntries | agent/core/view.ts:448 | `Object.fromEntries` has a key exactly when some entry has it |
| Listeners.NamedEntries | agent/core/view.ts:448-451 | the name branch maps each name, in order, to the field `mOn<Name>Listener` |
| Listeners.CollectListed | agent/core/view.ts:453-459 | the `forEach` loop pushes, in declaration order, the capture and the name of each field that matches |
| Listeners.GetListeners | agent/core/view.ts:445-462 | with names, the map is built from the name lookup; without names, from the matching declared fields |
| Listeners.NamedLookup | agent/core/view.ts:447-451 | with names, the keys are exactly the names given, each holding the field read for it |
| Listeners.ListedEntriesSpec | agent/core/view.ts:453-459 | each listed entry pairs a declared field with its capture, and every matching field is listed |
| Listeners.ListedLookup | agent/core/view.ts:452-461 | without names, every key holds a declared field whose capture is that key, and every matching field's capture is a key |
| Listeners.OldDefault | agent/view.ts:297-303 | by default, the old `getListeners()` reads only `mOnClickListener`, under the key "click" |
| ViewTree.PathPrefix | agent/core/view.ts:470 | the path prefix is empty exactly for the root's empty stack, and otherwise ends with the bar after the last index |
| ViewTree.PathPrefixInjective | agent/core/view.ts:470 | the printed prefix spells the child-index path, each index in decimal followed by a bar: two stacks print the same prefix exactly when they are equal |
| ViewTree.RenderViewLine | agent/core/view.ts:470 | a view's line is its path prefix, one space, then the view's `toString()` |
| ViewTree.Lines | agent/core/view.ts:469-483 | the lines of a subtree start with the line of its root, at the current stack |
| ViewTree.Indent | agent/core/view.ts:474 | `'  '.repeat(k)` is `2k` spaces |
| ViewTree.TreePrinter.constructor | agent/core/view.ts:484 | printing starts with an empty stack and no lines written |
| ViewTree.TreePrinter.Inner | agent/core/view.ts:469-483 | `inner(root, stack, limit)` writes the lines of `root`'s subtree and leaves the stack as it found it |
| ViewTree.TreePrinter.InnerChildren | agent/core/view.ts:476-480 | the loop over the children pushes each child's index, writes its subtree, and pops again |
| ViewTree.LinesOfView | agent/core/view.ts:470-482 | a view's own line comes first, then nothing for a plain view, one summary at the limit, or its children's lines |
| ViewTree.Tree | agent/core/view.ts:468-485 | `tree(limit)` writes the text of the subtree's lines, starting from an empty stack |
| ViewTree.Unlimited | agent/core/view.ts:468-485 | without a limit, `tree` writes exactly one line per view, in pre-order, each with its own path |
| ViewTree.WithinLimit | agent/core/view.ts:473 | a limit the subtree never reaches changes nothing |
| ViewTree.LimitBounds | agent/core/view.ts:473-480 | no view line is deeper than the limit, and every summary line stands exactly at the limit |
| ViewTree.AtLimit | agent/core/view.ts:473-474 | at or past the limit, a `ViewGroup` gets its own line and one summary of its child count |
| ViewTree.CutoffIndent | agent/core/view.ts:474 | a summary line starts with two spaces per level plus two, then its bracket |

## Left out

- Frida itself is not modelled: `Java.use`, field `.value` reads, `.call` on Java methods, `Java.scheduleOnMainThread`, and the hook installation. The view tree is a fixed snapshot, and every accessor reads it.
- The live tree is not modelled. A tree mutated concurrently by the app, views detached between enumeration and attribute reads, and exceptions from `getResourceEntryName` are left out.
- Regular expressions are an abstract `test` predicate. Their syntax and the `lastIndex` state of global expressions are not modelled.
- `class(handle)` is given the `isInstance` answer as an oracle. An oracle answer of "threw" weighs 0, as the `catch` does; the `console.error` call is dropped.
- Weights are integers. JavaScript's floating-point products, `NaN` and `Infinity` returned by custom filters are not modelled.
- `boundsInside`'s unwrapping of Java field objects (`rect[key].value`) is not modelled: the argument is given as numbers. In the old revision, the comparison reads `param.left` rather than the unwrapped value; with a Java `Rect` wrapper this compares a field object. That case is not modelled.
- `parseInt` is modelled for the strings `idHex` produces. Leading white space, radix arguments and the other hex forms are not modelled.
- Capitalisation upper-cases ASCII `a`–`z` only. The Unicode case mapping of `toUpperCase` is not modelled.
- Nodes are compared structurally. A `WeakHashMap`'s identity keys and garbage collection are not modelled, and neither are `toString`/`toJSON`, `ActivityWrapper`, `parent`, `bounds` computation, `desc` and `getSelector`. Their results are fields of the node or not used by the core.
- The redraw that `highlight` schedules with `invalidate` on the main thread is not modelled.
- Listeners.GetListeners: each key is mapped to the name of the field it reads, not to the listener object `info[...].value`. The reflective field read is not modelled.
- ViewTree.Tree: `console.log` is modelled as the list of lines written. The printer keeps structured `Line` values while it runs, and `Render` gives each line's text. `root.instance.toString()` is a parameter `show`.
- LegacySelector.Holds: the old text filter reads the intended getter `LegacyView.TextOf`, not the getter as written, which throws. The searches as written are `LegacyAsWritten.OldFindAsWritten` and `LegacyAsWritten.OldFindAllAsWritten`. `LegacyAsWritten.FindAsWrittenSpec` and `LegacyAsWritten.FindAllAsWrittenSpec` relate them to the intended ones.
- LegacySelector.OldSelector.Text: the filter it appends reads the intended getter as well. So `OldSelector.Find`, `OldSelector.FindAll`, `RevisionsAgreeOnFind` and `RevisionsAgreeOnFindAll` describe the old program with its getter corrected. With the getter as written, a search that reaches a text filter throws instead.
- ViewTree.Render has no contract of its own. What a view's line reads is stated by `ViewTree.RenderViewLine`, and what a summary line reads by `ViewTree.CutoffIndent`.
- The other modules of the agent (class caching, console wiring, bootstrap, VM helpers in `agent/core/jclass.ts`, `misc.ts`, `utils.ts`, `vm.ts`) are not part of this model.

## Findings

| source | as written | input that shows it | evidently intended | confidence | as-written member | corrected member |
|---|---|---|---|---|---|---|
| agent/view.ts:225 | `TextView.class.isInstance()` is called without the view. `Class.isInstance` takes one argument, so the bridge throws. The exception escapes the filter, the `every` test and `inner`, so the old `find()` and `findAll()` throw once a view's test reaches `text(pattern)` | a `TextView` showing "OK" and the selector `text('OK')`: both `find()` and `findAll()` throw, where `find()` should return the view | `isInstance(this.instance)`, as the current revision has it: return the `TextView`'s text | not executed | LegacyAsWritten.TextFilterAbortsSearch | LegacyView.TextFilterIntended |
