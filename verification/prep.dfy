/**
 * The memo builder: a post-order walk of the predicate tree that numbers every
 * node the enumerator can plan for, records its memo entry and initial choice,
 * and reports whether the subtree can be answered with indexes.  The id
 * counter and the three maps are threaded through as values; the enumerator
 * stores the final ones in its fields.
 */
module Prep {
  import opened Expression
  import opened Memo

  /**
   * Numbers the subtree `e` at path `at` from `count` onwards, adding its
   * records to `recs`, and reports whether it is indexable.
   */
  method PrepMemo(e: Expr, at: Path, rel: map<Path, RelevantTag>, count: nat, recs: Built)
    returns (indexed: bool, count': nat, recs': Built)
    requires Unvisited(recs.ids, at)
    ensures indexed == Indexable(e, at, rel)
    ensures count' == count + Count(e)
    ensures recs' == BuildOnto(e, at, count, rel, recs)
    decreases e, 3
  {
    match e.kind
    case ArrayCtx(_) =>
      indexed, count', recs' := PrepAnd(e, at, rel, count, recs);
    case Leaf(_, _) =>
      var myId := count;
      count' := count + 1;
      var first, notFirst := [], [];
      if at in rel {
        first, notFirst := rel[at].first, rel[at].notFirst;
      }
      recs' := Built(recs.ids[at := myId], recs.memo[myId := Predicate(at, first, notFirst)], recs.cur[myId := 0]);
      indexed := |first| > 0;
    case Or =>
      indexed, count', recs' := PrepOr(e, at, rel, count, recs);
    case And =>
      indexed, count', recs' := PrepAnd(e, at, rel, count, recs);
    case Other =>
      indexed, count', recs' := false, count, recs;
  }

  /**
   * The OR case: builds every branch, then records one child id per branch.
   * An OR is indexable only if all its branches are.
   */
  method PrepOr(e: Expr, at: Path, rel: map<Path, RelevantTag>, count: nat, recs: Built)
    returns (indexed: bool, count': nat, recs': Built)
    requires e.kind.Or?
    requires Unvisited(recs.ids, at)
    ensures indexed == Indexable(e, at, rel)
    ensures count' == count + Count(e)
    ensures recs' == BuildOnto(e, at, count, rel, recs)
    decreases e, 2
  {
    indexed, count', recs' := BuildBranches(e, at, rel, count, recs);
    var myId := count';
    count' := count' + 1;
    var ids := recs'.ids[at := myId];
    var branches := ReadBranches(e, at, rel, count, recs, ids);
    recs' := Built(ids, recs'.memo[myId := OrSolution(branches)], recs'.cur);
  }

  /** The child loop of the OR case. */
  method BuildBranches(e: Expr, at: Path, rel: map<Path, RelevantTag>, count: nat, recs: Built)
    returns (indexed: bool, count': nat, recs': Built)
    requires Unvisited(recs.ids, at)
    ensures indexed == AllIndexable(e, at, rel, |e.children|)
    ensures count' == Base(e, count, |e.children|)
    ensures recs' == BuildKidsOnto(e, at, count, rel, |e.children|, recs)
    decreases e, 1
  {
    indexed := true;
    count', recs' := count, recs;
    for i := 0 to |e.children|
      invariant count' == Base(e, count, i)
      invariant recs' == BuildKidsOnto(e, at, count, rel, i, recs)
      invariant indexed == AllIndexable(e, at, rel, i)
    {
      var c;
      c, count', recs' := PrepChild(e, at, rel, i, count, recs, count', recs');
      if !c {
        indexed := false;
      }
    }
  }

  /**
   * The OR's branch list: the id of each child, read back from the node-to-id
   * map once all children are numbered.
   */
  method ReadBranches(e: Expr, at: Path, rel: map<Path, RelevantTag>, b: nat, ghost acc: Built, ids: map<Path, nat>)
    returns (branches: seq<nat>)
    requires Unvisited(acc.ids, at)
    requires ids == BuildKidsOnto(e, at, b, rel, |e.children|, acc).ids[at := Base(e, b, |e.children|)]
    ensures branches == BranchIds(e, b, |e.children|)
  {
    branches := [];
    for i := 0 to |e.children|
      invariant branches == BranchIds(e, b, i)
    {
      OntoChildId(e, at, b, rel, |e.children|, acc, i);
      // A branch without an id reads as 0, as a map read of a missing key does.
      var id := if at + [i] in ids then ids[at + [i]] else 0;
      branches := branches + [id];
    }
  }

  /**
   * The AND and array-context case: builds the children and collects one
   * singleton option per indexable child; for an AND the last GEO_NEAR option
   * is then swapped into slot 0 (array-context nodes keep child order).  The
   * node is indexable if it has an option.
   */
  method PrepAnd(e: Expr, at: Path, rel: map<Path, RelevantTag>, count: nat, recs: Built)
    returns (indexed: bool, count': nat, recs': Built)
    requires e.kind.And? || e.kind.ArrayCtx?
    requires Unvisited(recs.ids, at)
    ensures indexed == Indexable(e, at, rel)
    ensures count' == count + Count(e)
    ensures recs' == BuildOnto(e, at, count, rel, recs)
    decreases e, 2
  {
    var options, geoNearChild;
    options, geoNearChild, count', recs' := CollectOptions(e, at, rel, count, recs);
    GeoSlotInKids(e, at, rel, |e.children|);
    ChildOptionsLength(e, at, count, rel, |e.children|);
    if geoNearChild.Some? && geoNearChild.value != 0 {
      options := SwapFront(options, geoNearChild.value);
    }
    OptionsExistIffIndexable(e, at, count, rel);
    var myId := count';
    count' := count' + 1;
    recs' := Built(recs'.ids[at := myId], recs'.memo[myId := AndSolution(options)], recs'.cur[myId := 0]);
    indexed := |options| > 0;
  }

  /**
   * The child loop of the AND and array-context case: builds each child in
   * turn and collects one singleton option per indexable child, remembering
   * the option slot of the last GEO_NEAR child of an AND.
   */
  method CollectOptions(e: Expr, at: Path, rel: map<Path, RelevantTag>, count: nat, recs: Built)
    returns (options: seq<seq<nat>>, geoNearChild: Option<nat>, count': nat, recs': Built)
    requires Unvisited(recs.ids, at)
    ensures count' == Base(e, count, |e.children|)
    ensures recs' == BuildKidsOnto(e, at, count, rel, |e.children|, recs)
    ensures options == ChildOptions(e, at, count, rel, |e.children|)
    ensures geoNearChild == if e.kind.And? then GeoSlot(e, at, rel, |e.children|) else None
    decreases e, 1
  {
    options := [];
    geoNearChild := None;
    count', recs' := count, recs;
    for i := 0 to |e.children|
      invariant count' == Base(e, count, i)
      invariant recs' == BuildKidsOnto(e, at, count, rel, i, recs)
      invariant options == ChildOptions(e, at, count, rel, i)
      invariant geoNearChild == if e.kind.And? then GeoSlot(e, at, rel, i) else None
    {
      var c;
      c, count', recs' := PrepChild(e, at, rel, i, count, recs, count', recs');
      options, geoNearChild := NoteOption(e, at, rel, i, count, c, recs'.ids, options, geoNearChild);
    }
  }

  /**
   * Records child `i` once it is built: an indexable child adds the singleton
   * option holding its id, and an indexable GEO_NEAR child of an AND claims the
   * GEO_NEAR slot.
   */
  method NoteOption(e: Expr, at: Path, rel: map<Path, RelevantTag>, i: nat, b: nat, indexed: bool,
                    ids: map<Path, nat>, options: seq<seq<nat>>, geoNearChild: Option<nat>)
    returns (options': seq<seq<nat>>, geoNearChild': Option<nat>)
    requires i < |e.children|
    requires options == ChildOptions(e, at, b, rel, i)
    requires geoNearChild == if e.kind.And? then GeoSlot(e, at, rel, i) else None
    requires indexed == Indexable(e.children[i], at + [i], rel)
    requires indexed ==> at + [i] in ids && ids[at + [i]] == IdOf(e.children[i], Base(e, b, i))
    ensures options' == ChildOptions(e, at, b, rel, i + 1)
    ensures geoNearChild' == if e.kind.And? then GeoSlot(e, at, rel, i + 1) else None
  {
    ChildOptionsLength(e, at, b, rel, i + 1);
    OptionsNext(e, at, b, rel, i);
    options', geoNearChild' := options, geoNearChild;
    if indexed {
      var childId := ids[at + [i]];
      options' := options + [[childId]];
      if e.kind.And? && IsGeoNear(e.children[i]) {
        geoNearChild' := Some(|options'| - 1);
      }
    }
  }

  /** One step of the child loops: builds child `i` after its earlier siblings. */
  method PrepChild(e: Expr, at: Path, rel: map<Path, RelevantTag>, i: nat, count: nat, recs: Built,
                   kidCount: nat, kidRecs: Built)
    returns (indexed: bool, count': nat, recs': Built)
    requires i < |e.children|
    requires Unvisited(recs.ids, at)
    requires kidCount == Base(e, count, i)
    requires kidRecs == BuildKidsOnto(e, at, count, rel, i, recs)
    ensures indexed == Indexable(e.children[i], at + [i], rel)
    ensures count' == Base(e, count, i + 1)
    ensures recs' == BuildKidsOnto(e, at, count, rel, i + 1, recs)
    ensures indexed ==> at + [i] in recs'.ids && recs'.ids[at + [i]] == IdOf(e.children[i], Base(e, count, i))
    decreases e, 0
  {
    FreshForChild(recs, e, at, count, rel, i);
    indexed, count', recs' := PrepMemo(e.children[i], at + [i], rel, kidCount, kidRecs);
    if indexed {
      OntoOwnId(e.children[i], at + [i], kidCount, rel, kidRecs);
    }
  }
}
