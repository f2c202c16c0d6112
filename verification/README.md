# Plan enumerator of the MongoDB query planner

This project is a Dafny model of the plan enumerator in the MongoDB query
planner (`src/mongo/db/query/plan_enumerator.cpp`). It covers the code that
takes a predicate tree whose leaves already carry relevant-index annotations
(`RelevantTag`: the indexes whose leading field the leaf can use, `first`, and
the indexes where it can only use a later field, `notFirst`). From that tree
the enumerator produces index assignments (`IndexTag`: an index number and a
key position).

The enumerator's work is modelled in four steps:

* **Building the memo** (`prepMemo`). The tree is walked post-order. Each node
  that is an array context, an AND, an OR or a leaf (indexable or not) gets a
  dense id and a memo entry:
  * a predicate entry for a leaf, holding its index lists;
  * an OR entry holding the ids of all branches;
  * an AND entry holding one singleton option per indexable child, with an
    indexable GEO_NEAR child moved to the front.

  The call reports whether the subtree can use an index. The model has two
  layers. Pure functions (`Memo.Build`) state what the memo is. An imperative
  walk (`Prep.PrepMemo`) threads the counter and the maps the way the C++ does
  and is proved equal to `Memo.Build`.
* **Tagging** (`tagMemo`). Following the current choice of each AND entry,
  predicate leaves get `IndexTag(first[choice], 0)`. OR entries pass tagging
  to every branch. AND entries pass it to the one option chosen.
  `Selection.Plan` is the specification. `PlanEnumerator.TagMemo` is the
  recursive method that writes the tags map.
* **Compound-index extension** (`checkCompound`). Inside each AND:
  * every leaf tagged with a compound index acts as an anchor;
  * untagged sibling leaves are tagged with later key positions of the same
    index, in key order, stopping at the first key field nothing matches;
  * field names carry the array-context prefix.

  `Compound.Extended` is the specification. `PlanEnumerator.CheckCompound` and
  its step methods are the loops.
* **The driver** (`init`, `getNext`, `nextMemo`). The class
  `Enumerator.PlanEnumerator` holds the enumerator's fields: the relevance
  annotations, the tags, the memo, the node-to-id map, the current choices,
  the id counter and the `done` flag.

The predicate tree is an immutable value (`Expression.Expr`). A node is
addressed by its path of child positions from the root. Annotations that the
C++ attaches to nodes are maps keyed by path: relevance tags, index tags and
node ids.

The multikey test in `checkCompound` (`plan_enumerator.cpp:166`) reads the
catalog at the anchor's position in the anchor list, not at the anchor's
index. It is modelled as written and as evidently intended. A `MultikeyRule`
parameter selects which form runs; see "## Findings".

## Model

| member | source | states |
|---|---|---|
| Prep.PrepMemo | src/mongo/db/query/plan_enumerator.cpp:243-366 | Returns whether the subtree can use an index (array context or AND: some child can; leaf: a leading-field index exists; OR: every branch can; otherwise no). The id counter advances by the subtree's node count. The new records are exactly the memo, ids and choices of the reference build, added to those already present. |
| Prep.PrepOr | src/mongo/db/query/plan_enumerator.cpp:287-308 | An OR is indexable exactly when every branch is. Its entry lists the branch ids and is created whether or not the OR is indexable. The records equal the reference build. |
| Prep.BuildBranches | src/mongo/db/query/plan_enumerator.cpp:289-295 | The loop over the branches returns the conjunction of the branches' indexability and leaves the records and counter of all branches built. |
| Prep.ReadBranches | src/mongo/db/query/plan_enumerator.cpp:301-305 | The branch ids read back from the node-to-id map are, position by position, the ids the branches were given. |
| Prep.PrepAnd | src/mongo/db/query/plan_enumerator.cpp:309-363 | An AND is indexable exactly when some child is. Its entry holds one singleton option per indexable child, with the GEO_NEAR child moved to the front, and its choice starts at 0. The array-context branch (lines 244-265) takes the same path without the GEO_NEAR move. The records equal the reference build. |
| Prep.CollectOptions | src/mongo/db/query/plan_enumerator.cpp:320-344 | The child loop yields one singleton option per indexable child, in child order, and the slot of the last indexable GEO_NEAR child. |
| Prep.NoteOption | src/mongo/db/query/plan_enumerator.cpp:327-343 | One loop step appends the child's id when it is indexable. It records the slot when the child is an indexable GEO_NEAR leaf of an AND. |
| Prep.PrepChild | src/mongo/db/query/plan_enumerator.cpp:248-249 | Recursing on child `i` returns its indexability and its id, and extends the records by that child's build. |
| Memo.PostOrderIds | src/mongo/db/query/plan_enumerator.cpp:255-256 | Node ids are distinct, lie in `[b, b + Count)`, and every descendant's id is smaller than its ancestor's (post-order numbering). |
| Memo.BuildRange | src/mongo/db/query/plan_enumerator.cpp:268-271 | The memo holds exactly the ids `b .. b + Count - 1`. Every recorded node lies below the subtree root. Choices exist only for memo ids. |
| Memo.BranchIdsAt | src/mongo/db/query/plan_enumerator.cpp:303-305 | Position `i` of an OR entry is the id given to branch `i`. |
| Memo.BuildKidsChildId | src/mongo/db/query/plan_enumerator.cpp:304 | A child has an id exactly when it is not an "other" node (every leaf gets one, indexable or not), and the id is the one it was built with. An "other" branch is read as id 0. |
| Memo.AllIndexableMeans | src/mongo/db/query/plan_enumerator.cpp:289-295 | The OR fold is true exactly when every branch is indexable. |
| Memo.AnyIndexableMeans | src/mongo/db/query/plan_enumerator.cpp:247-253 | The AND fold is true exactly when some child is indexable. |
| Memo.OptKidsMeans | src/mongo/db/query/plan_enumerator.cpp:326-331 | The option children are strictly increasing, are in range, and include a child exactly when it is indexable. |
| Memo.GeoSlotInKids | src/mongo/db/query/plan_enumerator.cpp:334-342 | A recorded GEO_NEAR slot points into the option list at a GEO_NEAR child. |
| Memo.SingletonsSwap | src/mongo/db/query/plan_enumerator.cpp:348-350 | Moving the GEO_NEAR option to the front commutes with wrapping children as singleton options. |
| Memo.AndOptionsKids | src/mongo/db/query/plan_enumerator.cpp:325-332 | Every AND or array option is the singleton id of one child, in the order of the option children. |
| Memo.OptionsExistIffIndexable | src/mongo/db/query/plan_enumerator.cpp:264 | An array context or AND has an option exactly when it is indexable. |
| Memo.ChildRecordsKept | src/mongo/db/query/plan_enumerator.cpp:248-249 | Building the parent keeps every id and memo entry its children's builds made. |
| Memo.ChoicesStartAtZero | src/mongo/db/query/plan_enumerator.cpp:260 | Every recorded choice is 0, and each AND, array context and leaf has one. |
| Memo.BuildOntoMerge | src/mongo/db/query/plan_enumerator.cpp:243-366 | Building onto existing records equals adding the standalone build to them, so a subtree's records do not depend on what was built before it. |
| Memo.BuildRecordsAndLeaves | src/mongo/db/query/plan_enumerator.cpp:131-132 | In a well-formed tree, every leaf child of an AND has an id whose entry is a predicate entry carrying that leaf's later-field indexes. These are the lookups `checkCompound` verifies. |
| Selection.ChosenKid | src/mongo/db/query/plan_enumerator.cpp:392-393 | The child named by an AND's current choice is in range and indexable. |
| Selection.PlanTags | src/mongo/db/query/plan_enumerator.cpp:372-382 | Every tag of a plan is below the node, at key position 0, with an index from the leaf's leading-field list. With all choices at 0 it is that list's first index. |
| Selection.OrTagsAllBranches | src/mongo/db/query/plan_enumerator.cpp:383-389 | Tagging an OR tags every branch: each branch fits and its plan is part of the OR's plan. |
| Selection.AndTagsOnlyChosen | src/mongo/db/query/plan_enumerator.cpp:390-399 | Tagging an AND tags only below the chosen child and nowhere below any other child. |
| Selection.ZeroChoicesFit | src/mongo/db/query/plan_enumerator.cpp:54-57 | When the root is indexable, the initial all-zero choices name an existing option at every AND and an index at every reached leaf, so the verifies in `tagMemo` hold. |
| Selection.GeoSlotLast | src/mongo/db/query/plan_enumerator.cpp:334-342 | The GEO_NEAR slot exists exactly when some indexable GEO_NEAR child exists. It names the last such child. |
| Selection.GeoNearFirst | src/mongo/db/query/plan_enumerator.cpp:348-350 | When an AND has an indexable GEO_NEAR child, option 0 is the last such child, and choice 0 tags that leaf with one of its leading-field indexes. |
| Selection.PlanKidsEarlier | src/mongo/db/query/plan_enumerator.cpp:383-389 | Tagging the first `k` branches tags nothing outside branches `0 .. k-1`. |
| Compound.AnchorsMeans | src/mongo/db/query/plan_enumerator.cpp:128-144 | A child is an anchor exactly when it is a leaf tagged with a compound index (`isCompound`, lines 63-65). Anchors are listed in child order. |
| Compound.UnassignedMeans | src/mongo/db/query/plan_enumerator.cpp:128-137 | A child is a candidate exactly when it is an untagged leaf. Candidates are listed in child order. |
| Compound.FirstMatch | src/mongo/db/query/plan_enumerator.cpp:180-205 | The search returns the first eligible candidate: an untagged leaf whose prefixed path is the key field and whose later-field list holds the index. All candidates before it are not eligible, and none is eligible when it returns nothing. |
| Compound.ExtendFrom | src/mongo/db/query/plan_enumerator.cpp:168-212 | Extending one anchor keeps every existing tag. |
| Compound.ExtendFromTags | src/mongo/db/query/plan_enumerator.cpp:180-205 | Every tag added by one anchor's extension is at a key position at least the starting one. It names that index and a candidate whose prefixed path is the key field at that position, and whose later-field list holds the index. |
| Compound.PickedInOrder | src/mongo/db/query/plan_enumerator.cpp:168-212 | The picked leaves were untagged and receive the index at consecutive key positions `pos, pos+1, …` (key contiguity). |
| Compound.OnlyPickedTagged | src/mongo/db/query/plan_enumerator.cpp:199-204 | One anchor's extension adds tags only on the leaves it picked. |
| Compound.StopsAtGap | src/mongo/db/query/plan_enumerator.cpp:207-211 | When the extension stops before the last key field, no candidate can take the next key field. |
| Compound.AndStep | src/mongo/db/query/plan_enumerator.cpp:155-213 | Processing the anchors keeps every existing tag and only uses catalog indexes. |
| Compound.AndStepTags | src/mongo/db/query/plan_enumerator.cpp:155-213 | Processing an AND's anchors adds tags only on its children, and only with indexes from their later-field lists. |
| Compound.Extended | src/mongo/db/query/plan_enumerator.cpp:122-226 | The compound pass never overwrites a tag and only uses catalog indexes. |
| Compound.ExtendedTags | src/mongo/db/query/plan_enumerator.cpp:122-226 | The compound pass adds tags only below the node, and each added index is in that leaf's later-field list. |
| Compound.ExtendedKidsTags | src/mongo/db/query/plan_enumerator.cpp:222-225 | Recursing into the children adds tags only below the node. |
| Compound.AndStepFields | src/mongo/db/query/plan_enumerator.cpp:180-187 | Every tag an AND's anchors add sits on a leaf child whose prefixed path is the key field the tag names, at a position inside the index's key pattern. |
| Compound.ExtendedFields | src/mongo/db/query/plan_enumerator.cpp:216-225 | Field names carry the array-context prefix: every tag the compound pass adds lies below the node, on a leaf whose full dotted path (the paths of the array contexts above it, each followed by a dot, then its own path) is the key field of the tag's index at the tag's position. |
| Compound.ExtendedKidsFields | src/mongo/db/query/plan_enumerator.cpp:222-225 | The children's passes, run under the grown prefix, keep that property as seen from the parent. |
| Compound.NoMultikeyCompound | src/mongo/db/query/plan_enumerator.cpp:166 | With the intended multikey test, no tag added by the compound pass names a multikey index. |
| Compound.AndStepNoMultikey | src/mongo/db/query/plan_enumerator.cpp:166 | One AND's anchor processing, with the intended test, adds no multikey index. |
| Compound.AsWrittenCompoundsMultikey | src/mongo/db/query/plan_enumerator.cpp:166 | With the test as written, an AND with anchor `b` (multikey index 1, position 0 in the anchor list) gets tag `(1, 1)` on leaf `c`. So a multikey index is compounded. With the intended test the tags stay unchanged. |
| Enumerator.FirstPlanInCatalog | src/mongo/db/query/plan_enumerator.cpp:372-382 | Every tag of the first plan is `(first[0], 0)` of its leaf, and all of them name catalog indexes. |
| Enumerator.NextBranchUnvisited | src/mongo/db/query/plan_enumerator.cpp:383-389 | After tagging branches `0 .. i-1`, nothing at or below branch `i` is tagged yet. |
| Enumerator.PlanEnumerator.constructor | src/mongo/db/query/plan_enumerator.cpp:26-27 | The enumerator holds the tree and the catalog, and its memo, maps and tags start empty. |
| Enumerator.PlanEnumerator.Init | src/mongo/db/query/plan_enumerator.cpp:35-61 | After `init`, the memo, node-to-id map and choices are the reference build of the tree, the counter is the node count, the relevance annotations are cleared, and `done` is set exactly when the root cannot use an index. When not done, the tags are the first plan extended by the compound pass. |
| Enumerator.PlanEnumerator.TagFirst | src/mongo/db/query/plan_enumerator.cpp:54-57 | Tagging from the root and then running the compound pass yields the first plan extended by the compound pass. |
| Enumerator.PlanEnumerator.TagMemo | src/mongo/db/query/plan_enumerator.cpp:368-400 | Tagging from a memo entry adds exactly the plan of that subtree under the current choices to the existing tags. |
| Enumerator.PlanEnumerator.TagBranches | src/mongo/db/query/plan_enumerator.cpp:383-389 | Tagging every OR branch in turn adds the OR's plan. |
| Enumerator.PlanEnumerator.TagOption | src/mongo/db/query/plan_enumerator.cpp:390-399 | Tagging the chosen AND option adds the AND's plan. |
| Enumerator.PlanEnumerator.CheckCompound | src/mongo/db/query/plan_enumerator.cpp:122-226 | The method leaves the tags equal to the compound pass applied to the old tags. |
| Enumerator.PlanEnumerator.CollectLeaves | src/mongo/db/query/plan_enumerator.cpp:124-144 | The first loop returns the anchors and the unassigned leaves of the AND. |
| Enumerator.PlanEnumerator.ExtendAnchors | src/mongo/db/query/plan_enumerator.cpp:155-212 | The anchor loop leaves the tags equal to the anchor processing of the old tags. |
| Enumerator.PlanEnumerator.ExtendAnchor | src/mongo/db/query/plan_enumerator.cpp:168-211 | The key-field loop for one anchor leaves the tags equal to that anchor's extension. |
| Enumerator.PlanEnumerator.FindCandidate | src/mongo/db/query/plan_enumerator.cpp:180-205 | The candidate search returns the first eligible candidate, or none. |
| Enumerator.PlanEnumerator.GetNext | src/mongo/db/query/plan_enumerator.cpp:228-241 | A plan is produced exactly when the enumerator was not done; the plan is the current tags, which are then cleared, and the enumerator is done afterwards. Otherwise nothing changes. |
| Enumerator.PlanEnumerator.NextMemo | src/mongo/db/query/plan_enumerator.cpp:402-404 | Advancing the choices never succeeds. |
| Enumerator.DrawTwice | src/mongo/db/query/plan_enumerator.cpp:228-241 | Drawing twice yields at most one plan: the first draw succeeds exactly when the enumerator was not done, and the second never does. |

## Left out

- Debug output (`cout` in `init`, the memo dump and `toString`) is left out: it has no effect on the enumerator's state.
- `tagForSort`, `sortUsingTags` and `shallowClone` (`getNext`, lines 230-236) are not part of this model. `getNext` hands out the tags map itself as the plan. Sorting by tags and cloning the tree do not change which leaf gets which index.
- Indexability classification (`Indexability::nodeCanUseIndexOnOwnField`, `arrayUsesIndexOnChildren`, `isBoundsGenerating`) is not part of this model. Each node carries its class as `Kind`: array context, leaf (with its path and a GEO_NEAR flag), AND, OR, or other. A logical NOT or NOR is classed as "other" and reported as unindexable. The source instead sends every logical node other than OR down the AND branch (line 287), numbers its children, and then aborts at the `verify` on line 357. The model does not capture that abort.
- `resetTag` is modelled by the tags map starting empty and by `getNext` clearing it. Tags on nodes are keyed by node path.
- Index key patterns (BSON) are modelled as the sequence of key field names. Iterating a BSON object becomes indexing that sequence.
- The destructor (freeing memo entries) and the `Status` value returned by `init` (always OK) are left out.
- `Enumerator.PlanEnumerator.Init`: requires a freshly constructed enumerator. A second `init` on the same object is not modelled.
- `Enumerator.PlanEnumerator.Init`: requires a well-formed tree, in which no AND sits below a leaf or an "other" node. The memo builder never numbers the children of such nodes. On an excluded tree, `checkCompound` looks up a leaf child of such an AND through the default id 0 (lines 131-132) and aborts unless entry 0 happens to be a predicate entry. `Init` also requires the relevance annotations to name catalog indexes, which the caller in the planner guarantees.
- Reads of the maps `_curEnum` and `_nodeToId` with `operator[]` on a missing key insert a default of 0. The model reads 0 without inserting.
- At line 166, the as-written test reads `(*_indices)[i]`, which is out of range and undefined behaviour when there are more anchors than catalog entries. The model chooses to treat such a read as "not multikey".
- `Prep.PrepMemo` passes the memo, node-to-id map and choices as values and returns them. It does not update them in place, so aliasing between the enumerator's fields is not modelled.
- Enumerating plans after the first is not modelled: `nextMemo` always returns false (line 403), so the source produces only one plan.
- Memory management of memo entries (`new`/`delete`) is not modelled.

## Findings

| source | as written | input that shows it | evidently intended | confidence | as-written member | corrected member |
|---|---|---|---|---|---|---|
| src/mongo/db/query/plan_enumerator.cpp:166 | The multikey test reads `(*_indices)[i]`, where `i` is the anchor's position in the anchor list. | Catalog: index 0 on `{a}` (not multikey), index 1 on `{b, c}` (multikey). Tree: `AND(b, c)`, with `b` tagged `(1, 0)` and `c` listing index 1 as a later field. The as-written test checks index 0, which is not multikey, so `c` gets `(1, 1)`. | The test reads the catalog at the anchor's index, `(*_indices)[tag->index]`, so compounding skips multikey indexes. | not executed | Compound.AsWrittenCompoundsMultikey | Compound.NoMultikeyCompound |
