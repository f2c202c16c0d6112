/**
 * The plan enumerator: builds the memo from the annotated predicate tree,
 * writes one index assignment onto the tree's leaves, extends compound-index
 * assignments, and hands out the tagged tree once.
 */
module Enumerator {
  import opened Expression
  import opened Memo
  import opened Selection
  import opened Compound
  import Prep

  /** Every index a relevance annotation names is one of the `n` catalog entries. */
  predicate RelevanceInCatalog(rel: map<Path, RelevantTag>, n: nat) {
    forall p | p in rel :: (forall x | x in rel[p].first :: x < n) && (forall x | x in rel[p].notFirst :: x < n)
  }

  /** The leading-field assignment for the initial choices (choice 0 everywhere). */
  ghost function FirstPlan(root: Expr, rel: map<Path, RelevantTag>): map<Path, IndexTag>
    requires Indexable(root, [], rel)
  {
    var B := Build(root, [], 0, rel);
    ChoicesStartAtZero(root, [], 0, rel);
    ZeroChoicesFit(root, [], 0, rel, B.cur);
    Plan(root, [], 0, rel, B.cur)
  }

  /** The tags after the first assignment has been extended with compound fields. */
  ghost function FirstTags(root: Expr, rel: map<Path, RelevantTag>, indices: seq<IndexEntry>, rule: MultikeyRule): map<Path, IndexTag>
    requires Indexable(root, [], rel) && RelevanceInCatalog(rel, |indices|)
  {
    FirstPlanInCatalog(root, rel, |indices|);
    Extended(root, [], "", FirstPlan(root, rel), rel, indices, rule)
  }

  /**
   * The first assignment gives every tagged leaf its first leading-field
   * index, as a leading field (position 0), and so names catalog entries only.
   */
  lemma FirstPlanInCatalog(root: Expr, rel: map<Path, RelevantTag>, n: nat)
    requires Indexable(root, [], rel) && RelevanceInCatalog(rel, n)
    ensures forall p | p in FirstPlan(root, rel) ::
      |FirstOf(rel, p)| > 0 && FirstPlan(root, rel)[p] == IndexTag(FirstOf(rel, p)[0], 0)
    ensures InCatalog(FirstPlan(root, rel), n)
  {
    var B := Build(root, [], 0, rel);
    ChoicesStartAtZero(root, [], 0, rel);
    ZeroChoicesFit(root, [], 0, rel, B.cur);
    PlanTags(root, [], 0, rel, B.cur);
    forall p | p in FirstPlan(root, rel) ensures FirstPlan(root, rel)[p].index < n {
      assert p in rel;
      assert FirstPlan(root, rel)[p].index in rel[p].first;
    }
  }

  /** With the OR's first `i` branches tagged, branch `i`'s subtree is still untagged. */
  lemma NextBranchUnvisited(tags: map<Path, IndexTag>, e: Expr, at: Path, b: nat, rel: map<Path, RelevantTag>,
                            cur: map<nat, nat>, i: nat)
    requires i < |e.children| && AllFit(e, at, b, rel, cur, i) && Unvisited(tags, at)
    ensures Unvisited(tags + PlanKids(e, at, b, rel, cur, i), at + [i])
  {
    var P := PlanKids(e, at, b, rel, cur, i);
    PlanKidsEarlier(e, at, b, rel, cur, i);
    forall p | p in tags + P ensures !Below(at + [i], p) {
      if Below(at + [i], p) {
        BelowParent(at, i, p);
        if p !in P {
          assert p in tags && Below(at, p);
        }
      }
    }
  }

  class PlanEnumerator {
    /** The predicate tree the enumerator was created with. */
    const root: Expr
    /** The index catalog. */
    const indices: seq<IndexEntry>
    /** Which catalog entry the multikey test of the compound pass reads. */
    const rule: MultikeyRule
    /** The relevance annotations the tree carried when the enumerator was created. */
    ghost const supplied: map<Path, RelevantTag>

    /** The tree's relevance annotations (cleared once the memo has consumed them). */
    var relevance: map<Path, RelevantTag>
    /** The tree's index assignments. */
    var tags: map<Path, IndexTag>
    var memo: map<nat, NodeSolution>
    var nodeToId: map<Path, nat>
    /** The current choice per memo entry. */
    var curEnum: map<nat, nat>
    var inOrderCount: nat
    var done: bool

    constructor (root: Expr, indices: seq<IndexEntry>, relevance: map<Path, RelevantTag>, rule: MultikeyRule)
      ensures this.root == root && this.indices == indices && this.rule == rule
      ensures this.relevance == relevance && supplied == relevance
      ensures tags == map[] && memo == map[] && nodeToId == map[] && curEnum == map[]
    {
      this.root := root;
      this.indices := indices;
      this.rule := rule;
      this.supplied := relevance;
      this.relevance := relevance;
      tags := map[];
      memo := map[];
      nodeToId := map[];
      curEnum := map[];
    }

    /**
     * Builds the memo, drops the relevance annotations and, when the root is
     * indexable, tags the tree with the first assignment and extends it with
     * compound fields.  Nothing is left to enumerate exactly when the root is
     * not indexable.
     */
    method Init()
      modifies this
      requires relevance == supplied && tags == map[] && memo == map[] && nodeToId == map[] && curEnum == map[]
      requires WellFormed(root) && RelevanceInCatalog(supplied, |indices|)
      ensures relevance == map[]
      ensures inOrderCount == Count(root)
      ensures nodeToId == Build(root, [], 0, supplied).ids
      ensures memo == Build(root, [], 0, supplied).memo
      ensures curEnum == Build(root, [], 0, supplied).cur
      ensures done == !Indexable(root, [], supplied)
      ensures tags == if done then map[] else FirstTags(root, supplied, indices, rule)
    {
      inOrderCount := 0;
      done := false;
      var indexed, count, recs := Prep.PrepMemo(root, [], relevance, 0, Empty);
      BuildOntoEmpty(root, [], 0, supplied);
      nodeToId, memo, curEnum, inOrderCount := recs.ids, recs.memo, recs.cur, count;
      done := !indexed;
      relevance := map[];
      if !done {
        TagFirst();
      }
    }

    /**
     * The second half of Init on an indexable root: tags the tree with the
     * initial choices, starting from the root's memo entry, then runs the
     * compound pass from the root with an empty prefix.
     */
    method TagFirst()
      modifies this`tags
      requires tags == map[] && WellFormed(root) && RelevanceInCatalog(supplied, |indices|)
      requires Indexable(root, [], supplied)
      requires nodeToId == Build(root, [], 0, supplied).ids
      requires memo == Build(root, [], 0, supplied).memo
      requires curEnum == Build(root, [], 0, supplied).cur
      ensures tags == FirstTags(root, supplied, indices, rule)
    {
      BuildOwnId(root, [], 0, supplied);
      ChoicesStartAtZero(root, [], 0, supplied);
      ZeroChoicesFit(root, [], 0, supplied, curEnum);
      TagMemo(nodeToId[[]], root, [], 0);
      assert tags == FirstPlan(root, supplied);
      FirstPlanInCatalog(root, supplied, |indices|);
      BuildRecordsAndLeaves(root, [], 0, supplied);
      CheckCompound("", root, []);
    }

    /**
     * Tags the subtree behind memo entry `id` with the current choices: a
     * predicate entry tags its leaf with the chosen leading-field index, an OR
     * entry tags every branch, an AND entry tags the child of its chosen option.
     */
    method TagMemo(id: nat, ghost e: Expr, ghost at: Path, ghost b: nat)
      modifies this`tags
      requires id == IdOf(e, b) && Fits(e, at, b, supplied, curEnum)
      requires SubMap(Build(e, at, b, supplied).memo, memo)
      requires Unvisited(tags, at)
      ensures tags == old(tags) + Plan(e, at, b, supplied, curEnum)
      decreases e, 1
    {
      OwnSolution(e, at, b, supplied);
      var soln := memo[id];
      match soln
      case Predicate(leaf, first, notFirst) =>
        // The leaf carries no index yet.
        assert Below(at, leaf);
        if |first| != 0 {
          tags := tags[leaf := IndexTag(first[Choice(curEnum, id)], 0)];
          UnionSingleton(old(tags), leaf, IndexTag(first[Choice(curEnum, id)], 0));
        } else {
          UnionEmpty(tags);
        }
      case OrSolution(branches) =>
        TagBranches(branches, e, at, b);
      case AndSolution(options) =>
        AndOptionsKids(e, at, b, supplied);
        TagOption(options[Choice(curEnum, id)], e, at, b);
    }

    /** The OR case of TagMemo: tags every branch, in order. */
    method TagBranches(branches: seq<nat>, ghost e: Expr, ghost at: Path, ghost b: nat)
      modifies this`tags
      requires e.kind.Or? && Fits(e, at, b, supplied, curEnum)
      requires branches == BranchIds(e, b, |e.children|)
      requires SubMap(Build(e, at, b, supplied).memo, memo)
      requires Unvisited(tags, at)
      ensures tags == old(tags) + Plan(e, at, b, supplied, curEnum)
      decreases e, 0
    {
      var n := |e.children|;
      UnionEmpty(tags);
      for i := 0 to |branches|
        invariant AllFit(e, at, b, supplied, curEnum, i)
        invariant tags == old(tags) + PlanKids(e, at, b, supplied, curEnum, i)
      {
        ghost var child := e.children[i];
        BranchIdsAt(e, b, n, i);
        AllFitChild(e, at, b, supplied, curEnum, n, i);
        ChildRecordsKept(e, at, b, supplied, i);
        SubMapTrans(Build(child, at + [i], Base(e, b, i), supplied).memo, Build(e, at, b, supplied).memo, memo);
        NextBranchUnvisited(old(tags), e, at, b, supplied, curEnum, i);
        TagMemo(branches[i], child, at + [i], Base(e, b, i));
        UnionAssoc(old(tags), PlanKids(e, at, b, supplied, curEnum, i), Plan(child, at + [i], Base(e, b, i), supplied, curEnum));
      }
    }

    /** The AND and array-context case of TagMemo: tags the children of the chosen option (always one). */
    method TagOption(chosen: seq<nat>, ghost e: Expr, ghost at: Path, ghost b: nat)
      modifies this`tags
      requires (e.kind.And? || e.kind.ArrayCtx?) && Fits(e, at, b, supplied, curEnum)
      requires chosen == [IdOf(e.children[ChosenKid(e, at, b, supplied, curEnum)], Base(e, b, ChosenKid(e, at, b, supplied, curEnum)))]
      requires SubMap(Build(e, at, b, supplied).memo, memo)
      requires Unvisited(tags, at)
      ensures tags == old(tags) + Plan(e, at, b, supplied, curEnum)
      decreases e, 0
    {
      ghost var k := ChosenKid(e, at, b, supplied, curEnum);
      ghost var child := e.children[k];
      ChildRecordsKept(e, at, b, supplied, k);
      SubMapTrans(Build(child, at + [k], Base(e, b, k), supplied).memo, Build(e, at, b, supplied).memo, memo);
      forall p | p in tags ensures !Below(at + [k], p) {
        if Below(at + [k], p) {
          BelowParent(at, k, p);
          assert Below(at, p);
        }
      }
      for i := 0 to |chosen|
        invariant i == 0 ==> tags == old(tags)
        invariant i == 1 ==> tags == old(tags) + Plan(child, at + [k], Base(e, b, k), supplied, curEnum)
      {
        TagMemo(chosen[i], child, at + [k], Base(e, b, k));
      }
    }

    /**
     * The compound pass over subtree `node` at `at`: at an AND, each leaf
     * child tagged with a compound index is extended onto untagged leaf
     * children, key field by key field; then the pass visits every child,
     * under a prefix that grows at array-context nodes.
     */
    method CheckCompound(prefix: string, node: Expr, at: Path)
      modifies this`tags
      requires InCatalog(tags, |indices|)
      requires AndLeavesRecorded(node, at, nodeToId, memo, supplied)
      ensures tags == Extended(node, at, prefix, old(tags), supplied, indices, rule)
      decreases node, 1
    {
      if node.kind.And? {
        var anchors, unassigned := CollectLeaves(node, at);
        ExtendAnchors(prefix, node, at, anchors, unassigned);
      }
      ghost var tags1 := tags;
      assert tags1 == CompoundAt(node, at, prefix, old(tags), supplied, indices, rule);
      var childPrefix := prefix;
      if node.kind.ArrayCtx? && node.kind.path != "" {
        childPrefix := prefix + node.kind.path + ".";
      }
      assert childPrefix == Grow(node, prefix);
      assert forall i | 0 <= i < |node.children| :: AndLeavesRecorded(node.children[i], at + [i], nodeToId, memo, supplied);
      for i := 0 to |node.children|
        invariant tags == ExtendedKids(node, at, childPrefix, i, tags1, supplied, indices, rule)
      {
        CheckCompound(childPrefix, node.children[i], at + [i]);
      }
    }

    /** Step 1 of the compound pass: the leaf children tagged with a compound index, and the untagged ones. */
    method CollectLeaves(node: Expr, at: Path) returns (anchors: seq<nat>, unassigned: seq<nat>)
      requires node.kind.And? && InCatalog(tags, |indices|)
      requires AndLeavesRecorded(node, at, nodeToId, memo, supplied)
      ensures anchors == Anchors(node, at, tags, indices, |node.children|)
      ensures unassigned == Unassigned(node, at, tags, |node.children|)
    {
      anchors, unassigned := [], [];
      for i := 0 to |node.children|
        invariant anchors == Anchors(node, at, tags, indices, i)
        invariant unassigned == Unassigned(node, at, tags, i)
      {
        if node.children[i].kind.Leaf? {
          // Every such leaf has a predicate entry in the memo.
          assert LeafRecorded(at + [i], nodeToId, memo, supplied);
          if at + [i] !in tags {
            unassigned := unassigned + [i];
          } else if IsCompound(indices, tags[at + [i]].index) {
            anchors := anchors + [i];
          }
        }
      }
    }

    /** Step 2 of the compound pass: extends each anchor that the multikey test lets through. */
    method ExtendAnchors(prefix: string, node: Expr, at: Path, anchors: seq<nat>, unassigned: seq<nat>)
      modifies this`tags
      requires node.kind.And? && InCatalog(tags, |indices|)
      requires AndLeavesRecorded(node, at, nodeToId, memo, supplied)
      requires forall m | 0 <= m < |anchors| :: at + [anchors[m]] in tags
      requires forall m | 0 <= m < |unassigned| :: unassigned[m] < |node.children| && node.children[unassigned[m]].kind.Leaf?
      ensures tags == AndStep(node, at, prefix, anchors, unassigned, 0, old(tags), supplied, indices, rule)
    {
      for i := 0 to |anchors|
        invariant SubMap(old(tags), tags) && InCatalog(tags, |indices|)
        invariant AndStep(node, at, prefix, anchors, unassigned, i, tags, supplied, indices, rule) ==
                  AndStep(node, at, prefix, anchors, unassigned, 0, old(tags), supplied, indices, rule)
      {
        var x := tags[at + [anchors[i]]].index;
        if Skipped(rule, indices, i, x) {
          continue;
        }
        ghost var before := tags;
        ExtendAnchor(prefix, node, at, unassigned, x);
        ExtendFromTags(node, at, prefix, unassigned, x, indices[x].fields, 1, before, supplied);
        SubMapTrans(old(tags), before, tags);
      }
    }

    /**
     * Extends an anchor tagged with index `x`: key fields 1, 2, ... of `x` go,
     * in turn, to the first candidate that can take them, and the extension
     * stops at the first field none can take.
     */
    method ExtendAnchor(prefix: string, node: Expr, at: Path, cands: seq<nat>, x: nat)
      modifies this`tags
      requires node.kind.And? && x < |indices|
      requires forall m | 0 <= m < |cands| :: cands[m] < |node.children| && node.children[cands[m]].kind.Leaf?
      requires AndLeavesRecorded(node, at, nodeToId, memo, supplied)
      ensures tags == ExtendFrom(node, at, prefix, cands, x, indices[x].fields, 1, old(tags), supplied)
    {
      var fields := indices[x].fields;
      var pos := 1;
      while pos < |fields|
        invariant 1 <= pos
        invariant ExtendFrom(node, at, prefix, cands, x, fields, pos, tags, supplied) ==
                  ExtendFrom(node, at, prefix, cands, x, fields, 1, old(tags), supplied)
        decreases |fields| - pos
      {
        var m := FindCandidate(prefix, node, at, cands, fields[pos], x);
        if m.None? {
          break;
        }
        tags := tags[at + [cands[m.value]] := IndexTag(x, pos)];
        pos := pos + 1;
      }
    }

    /**
     * The first candidate that can take key field `field` of index `x`: an
     * untagged leaf whose path under `prefix` is that field and whose memo
     * entry lists `x` among its later-field indexes.
     */
    method FindCandidate(prefix: string, node: Expr, at: Path, cands: seq<nat>, field: string, x: nat) returns (r: Option<nat>)
      requires node.kind.And?
      requires forall m | 0 <= m < |cands| :: cands[m] < |node.children| && node.children[cands[m]].kind.Leaf?
      requires AndLeavesRecorded(node, at, nodeToId, memo, supplied)
      ensures r == FirstMatch(node, at, prefix, cands, field, x, tags, supplied, 0)
    {
      var j := 0;
      while j < |cands|
        invariant j <= |cands|
        invariant FirstMatch(node, at, prefix, cands, field, x, tags, supplied, j) ==
                  FirstMatch(node, at, prefix, cands, field, x, tags, supplied, 0)
      {
        var c := cands[j];
        if prefix + node.children[c].kind.path == field && at + [c] !in tags {
          assert LeafRecorded(at + [c], nodeToId, memo, supplied);
          var soln := memo[nodeToId[at + [c]]];
          if x in soln.notFirst {
            return Some(j);
          }
        }
        j := j + 1;
      }
      return None;
    }

    /**
     * Hands out the tagged tree once: the first call returns the tags and
     * clears them from the enumerator's tree; every later call returns nothing.
     */
    method GetNext() returns (produced: bool, plan: map<Path, IndexTag>)
      modifies this`tags, this`done
      ensures produced == !old(done) && done
      ensures produced ==> plan == old(tags) && tags == map[]
      ensures !produced ==> tags == old(tags)
    {
      if done {
        return false, map[];
      }
      plan := tags;
      tags := map[];
      done := true;
      produced := true;
    }

    /** Moving memo entry `id` on to its next choice: there is never a next choice. */
    method NextMemo(id: nat) returns (advanced: bool)
      ensures !advanced
    {
      advanced := false;
    }
  }

  /** The enumerator yields at most one tagged tree: a second request gets nothing. */
  method DrawTwice(en: PlanEnumerator) returns (first: bool, second: bool)
    modifies en
    ensures first == !old(en.done) && !second
  {
    var plan;
    first, plan := en.GetNext();
    second, plan := en.GetNext();
  }
}
