/**
 * The memo the enumerator builds bottom-up from the predicate tree, given as a
 * reference definition: which id every node receives, which solution is stored
 * under it, and which choice it starts with.  The enumerator's PrepMemo method
 * is proved to produce exactly this.
 */
module Memo {
  import opened Expression

  /**
   * One memo entry.  A predicate leaf keeps its index lists; an AND or
   * array-context node keeps its options (each a list of child ids); an OR
   * keeps one child id per branch.
   */
  datatype NodeSolution =
    | Predicate(leaf: Path, first: seq<nat>, notFirst: seq<nat>)
    | AndSolution(options: seq<seq<nat>>)
    | OrSolution(branches: seq<nat>)

  /** What building one subtree adds: node ids, memo entries and initial choices. */
  datatype Built = Built(ids: map<Path, nat>, memo: map<nat, NodeSolution>, cur: map<nat, nat>)

  const Empty := Built(map[], map[], map[])

  function Merge(x: Built, y: Built): Built {
    Built(x.ids + y.ids, x.memo + y.memo, x.cur + y.cur)
  }

  function FirstOf(rel: map<Path, RelevantTag>, p: Path): seq<nat> {
    if p in rel then rel[p].first else []
  }

  function NotFirstOf(rel: map<Path, RelevantTag>, p: Path): seq<nat> {
    if p in rel then rel[p].notFirst else []
  }

  /** The number of ids handed out in a subtree.  Leaf and Other nodes are not descended into. */
  function Count(e: Expr): nat
    decreases e, |e.children| + 1
  {
    match e.kind
    case Other => 0
    case Leaf(_, _) => 1
    case _ => 1 + SumCount(e, |e.children|)
  }

  /** Ids handed out in the first `k` children of `e`. */
  function SumCount(e: Expr, k: nat): nat
    requires k <= |e.children|
    decreases e, k
  {
    if k == 0 then 0 else SumCount(e, k - 1) + Count(e.children[k - 1])
  }

  /** The first id available to child `i` of `e` when `e`'s subtree starts at `b`. */
  function Base(e: Expr, b: nat, i: nat): nat
    requires i <= |e.children|
  {
    b + SumCount(e, i)
  }

  /**
   * The id of a subtree's root when the subtree starts at `b`: its children come
   * first, so it is the last one.  A node that receives no id reads as 0, the
   * value a missing key yields on a map read.
   */
  function IdOf(e: Expr, b: nat): nat {
    if e.kind.Other? then 0 else b + Count(e) - 1
  }

  /**
   * Whether the subtree can be answered with indexes: a leaf with a leading-field
   * index, an OR all of whose branches can, an AND or array-context node with at
   * least one child that can.
   */
  predicate Indexable(e: Expr, at: Path, rel: map<Path, RelevantTag>)
    decreases e, |e.children| + 1
  {
    match e.kind
    case Leaf(_, _) => |FirstOf(rel, at)| > 0
    case Or => AllIndexable(e, at, rel, |e.children|)
    case And => AnyIndexable(e, at, rel, |e.children|)
    case ArrayCtx(_) => AnyIndexable(e, at, rel, |e.children|)
    case Other => false
  }

  /** Whether each of the first `k` children of `e` is indexable. */
  predicate AllIndexable(e: Expr, at: Path, rel: map<Path, RelevantTag>, k: nat)
    requires k <= |e.children|
    decreases e, k
  {
    k == 0 || (AllIndexable(e, at, rel, k - 1) && Indexable(e.children[k - 1], at + [k - 1], rel))
  }

  /** Whether one of the first `k` children of `e` is indexable. */
  predicate AnyIndexable(e: Expr, at: Path, rel: map<Path, RelevantTag>, k: nat)
    requires k <= |e.children|
    decreases e, k
  {
    k > 0 && (AnyIndexable(e, at, rel, k - 1) || Indexable(e.children[k - 1], at + [k - 1], rel))
  }

  lemma {:induction false} AllIndexableMeans(e: Expr, at: Path, rel: map<Path, RelevantTag>, k: nat)
    requires k <= |e.children|
    ensures AllIndexable(e, at, rel, k) <==> forall i | 0 <= i < k :: Indexable(e.children[i], at + [i], rel)
  {
    if k > 0 {
      AllIndexableMeans(e, at, rel, k - 1);
      if AllIndexable(e, at, rel, k) {
        forall i | 0 <= i < k
          ensures Indexable(e.children[i], at + [i], rel)
        {
          if i < k - 1 {
            assert AllIndexable(e, at, rel, k - 1);
          }
        }
      }
    }
  }

  lemma {:induction false} AnyIndexableMeans(e: Expr, at: Path, rel: map<Path, RelevantTag>, k: nat)
    requires k <= |e.children|
    ensures AnyIndexable(e, at, rel, k) <==> exists i | 0 <= i < k :: Indexable(e.children[i], at + [i], rel)
  {
    if k > 0 {
      AnyIndexableMeans(e, at, rel, k - 1);
      if Indexable(e.children[k - 1], at + [k - 1], rel) {
        assert AnyIndexable(e, at, rel, k);
      }
    }
  }

  /** Positions, in order, of the indexable children among the first `k`. */
  function OptKids(e: Expr, at: Path, rel: map<Path, RelevantTag>, k: nat): seq<nat>
    requires k <= |e.children|
  {
    if k == 0 then []
    else if Indexable(e.children[k - 1], at + [k - 1], rel) then OptKids(e, at, rel, k - 1) + [k - 1]
    else OptKids(e, at, rel, k - 1)
  }

  predicate IsGeoNear(e: Expr) {
    e.kind.Leaf? && e.kind.geoNear
  }

  /** The option slot of the last indexable GEO_NEAR child among the first `k`, if any. */
  function GeoSlot(e: Expr, at: Path, rel: map<Path, RelevantTag>, k: nat): Option<nat>
    requires k <= |e.children|
  {
    if k == 0 then None
    else if Indexable(e.children[k - 1], at + [k - 1], rel) && IsGeoNear(e.children[k - 1]) then
      Some(|OptKids(e, at, rel, k)| - 1)
    else GeoSlot(e, at, rel, k - 1)
  }

  function SwapFront<T>(s: seq<T>, g: nat): seq<T>
    requires g < |s|
  {
    s[0 := s[g]][g := s[0]]
  }

  /**
   * The children behind the options of an AND or array-context node, in option
   * order: one per indexable child, except that an AND moves its last GEO_NEAR
   * option to the front by swapping it with option 0.
   */
  function AndKids(e: Expr, at: Path, rel: map<Path, RelevantTag>): seq<nat> {
    var kids := OptKids(e, at, rel, |e.children|);
    GeoSlotInKids(e, at, rel, |e.children|);
    match GeoSlot(e, at, rel, |e.children|)
    case Some(g) => if e.kind.And? && g != 0 then SwapFront(kids, g) else kids
    case None => kids
  }

  /** One singleton option `[child id]` per listed child. */
  function Singletons(e: Expr, b: nat, kids: seq<nat>): seq<seq<nat>>
    requires forall j | 0 <= j < |kids| :: kids[j] < |e.children|
  {
    seq(|kids|, j requires 0 <= j < |kids| => [IdOf(e.children[kids[j]], Base(e, b, kids[j]))])
  }

  /** One singleton option `[child id]` per indexable child among the first `k`, in child order. */
  function ChildOptions(e: Expr, at: Path, b: nat, rel: map<Path, RelevantTag>, k: nat): seq<seq<nat>>
    requires k <= |e.children|
  {
    if k == 0 then []
    else if Indexable(e.children[k - 1], at + [k - 1], rel) then
      ChildOptions(e, at, b, rel, k - 1) + [[IdOf(e.children[k - 1], Base(e, b, k - 1))]]
    else ChildOptions(e, at, b, rel, k - 1)
  }

  /**
   * The options of an AND or array-context node: one per indexable child, in
   * child order, except that an AND swaps its last GEO_NEAR option with option 0.
   */
  function AndOptions(e: Expr, at: Path, b: nat, rel: map<Path, RelevantTag>): seq<seq<nat>> {
    var opts := ChildOptions(e, at, b, rel, |e.children|);
    ChildOptionsLength(e, at, b, rel, |e.children|);
    GeoSlotInKids(e, at, rel, |e.children|);
    match GeoSlot(e, at, rel, |e.children|)
    case Some(g) => if e.kind.And? && g != 0 then SwapFront(opts, g) else opts
    case None => opts
  }

  /** The listed children are exactly the indexable ones among the first `k`, in increasing order. */
  lemma {:induction false} OptKidsMeans(e: Expr, at: Path, rel: map<Path, RelevantTag>, k: nat)
    requires k <= |e.children|
    ensures forall j | 0 <= j < |OptKids(e, at, rel, k)| :: OptKids(e, at, rel, k)[j] < k
    ensures forall i, j | 0 <= i < j < |OptKids(e, at, rel, k)| :: OptKids(e, at, rel, k)[i] < OptKids(e, at, rel, k)[j]
    ensures forall c | 0 <= c < k :: c in OptKids(e, at, rel, k) <==> Indexable(e.children[c], at + [c], rel)
  {
    if k > 0 {
      OptKidsMeans(e, at, rel, k - 1);
    }
  }

  /** The GEO_NEAR slot, when there is one, names an option whose child is an indexable GEO_NEAR leaf. */
  lemma {:induction false} GeoSlotInKids(e: Expr, at: Path, rel: map<Path, RelevantTag>, k: nat)
    requires k <= |e.children|
    ensures GeoSlot(e, at, rel, k).Some? ==>
      GeoSlot(e, at, rel, k).value < |OptKids(e, at, rel, k)| &&
      OptKids(e, at, rel, k)[GeoSlot(e, at, rel, k).value] < k &&
      IsGeoNear(e.children[OptKids(e, at, rel, k)[GeoSlot(e, at, rel, k).value]])
  {
    if k > 0 {
      GeoSlotInKids(e, at, rel, k - 1);
      OptKidsMeans(e, at, rel, k);
    }
  }

  lemma {:induction false} ChildOptionsLength(e: Expr, at: Path, b: nat, rel: map<Path, RelevantTag>, k: nat)
    requires k <= |e.children|
    ensures |ChildOptions(e, at, b, rel, k)| == |OptKids(e, at, rel, k)|
  {
    if k > 0 {
      ChildOptionsLength(e, at, b, rel, k - 1);
    }
  }

  /** The ids of the first `k` children of `e`, in order (0 for a child that gets none). */
  function BranchIds(e: Expr, b: nat, k: nat): (r: seq<nat>)
    requires k <= |e.children|
    ensures |r| == k
  {
    if k == 0 then [] else BranchIds(e, b, k - 1) + [IdOf(e.children[k - 1], Base(e, b, k - 1))]
  }

  /** Branch `i` of an OR's entry is child `i`'s id. */
  lemma {:induction false} BranchIdsAt(e: Expr, b: nat, k: nat, i: nat)
    requires i < k <= |e.children|
    ensures BranchIds(e, b, k)[i] == IdOf(e.children[i], Base(e, b, i))
    decreases k
  {
    if i < k - 1 {
      BranchIdsAt(e, b, k - 1, i);
    }
  }

  /** The memo entry stored for `e` (at path `at`, subtree starting at id `b`). */
  function Solution(e: Expr, at: Path, b: nat, rel: map<Path, RelevantTag>): NodeSolution {
    match e.kind
    case Leaf(_, _) => Predicate(at, FirstOf(rel, at), NotFirstOf(rel, at))
    case Or => OrSolution(BranchIds(e, b, |e.children|))
    case _ => AndSolution(AndOptions(e, at, b, rel))
  }

  /** Everything the memo builder records for the subtree `e` at `at`, numbering from `b`. */
  function Build(e: Expr, at: Path, b: nat, rel: map<Path, RelevantTag>): Built
    decreases e, |e.children| + 1
  {
    match e.kind
    case Other => Empty
    case Leaf(_, _) => Built(map[at := b], map[b := Solution(e, at, b, rel)], map[b := 0])
    case _ =>
      var kids := BuildKids(e, at, b, rel, |e.children|);
      var id := IdOf(e, b);
      Built(kids.ids[at := id], kids.memo[id := Solution(e, at, b, rel)],
            if e.kind.Or? then kids.cur else kids.cur[id := 0])
  }

  /** What building the first `k` children of `e` records. */
  function BuildKids(e: Expr, at: Path, b: nat, rel: map<Path, RelevantTag>, k: nat): Built
    requires k <= |e.children|
    decreases e, k
  {
    if k == 0 then Empty
    else Merge(BuildKids(e, at, b, rel, k - 1), Build(e.children[k - 1], at + [k - 1], Base(e, b, k - 1), rel))
  }

  /**
   * The same records accumulated the way the enumerator writes them: the
   * subtree's entries are added to `acc` node by node, each node after its
   * children.
   */
  function BuildOnto(e: Expr, at: Path, b: nat, rel: map<Path, RelevantTag>, acc: Built): Built
    decreases e, |e.children| + 1
  {
    match e.kind
    case Other => acc
    case Leaf(_, _) => Built(acc.ids[at := b], acc.memo[b := Solution(e, at, b, rel)], acc.cur[b := 0])
    case _ =>
      var kids := BuildKidsOnto(e, at, b, rel, |e.children|, acc);
      var id := IdOf(e, b);
      Built(kids.ids[at := id], kids.memo[id := Solution(e, at, b, rel)],
            if e.kind.Or? then kids.cur else kids.cur[id := 0])
  }

  /** The records after the first `k` children of `e` are added to `acc`. */
  function BuildKidsOnto(e: Expr, at: Path, b: nat, rel: map<Path, RelevantTag>, k: nat, acc: Built): Built
    requires k <= |e.children|
    decreases e, k
  {
    if k == 0 then acc
    else BuildOnto(e.children[k - 1], at + [k - 1], Base(e, b, k - 1), rel, BuildKidsOnto(e, at, b, rel, k - 1, acc))
  }

  /** Accumulating a subtree's records onto `acc` is the same as merging its own records into `acc`. */
  lemma {:induction false} BuildOntoMerge(e: Expr, at: Path, b: nat, rel: map<Path, RelevantTag>, acc: Built)
    ensures BuildOnto(e, at, b, rel, acc) == Merge(acc, Build(e, at, b, rel))
    decreases e, |e.children| + 1
  {
    match e.kind
    case Other =>
      UnionEmpty(acc.ids);
      UnionEmpty(acc.memo);
      UnionEmpty(acc.cur);
    case Leaf(_, _) =>
      UnionSingleton(acc.ids, at, b);
      UnionSingleton(acc.memo, b, Solution(e, at, b, rel));
      UnionSingleton(acc.cur, b, 0);
    case Or =>
      var n := |e.children|;
      var K := BuildKids(e, at, b, rel, n);
      var id := IdOf(e, b);
      BuildKidsOntoMerge(e, at, b, rel, n, acc);
      UnionUpdate(acc.ids, K.ids, at, id);
      UnionUpdate(acc.memo, K.memo, id, Solution(e, at, b, rel));
    case _ =>
      var n := |e.children|;
      var K := BuildKids(e, at, b, rel, n);
      var id := IdOf(e, b);
      BuildKidsOntoMerge(e, at, b, rel, n, acc);
      UnionUpdate(acc.ids, K.ids, at, id);
      UnionUpdate(acc.memo, K.memo, id, Solution(e, at, b, rel));
      UnionUpdate(acc.cur, K.cur, id, 0);
  }

  lemma {:induction false} BuildKidsOntoMerge(e: Expr, at: Path, b: nat, rel: map<Path, RelevantTag>, k: nat, acc: Built)
    requires k <= |e.children|
    ensures BuildKidsOnto(e, at, b, rel, k, acc) == Merge(acc, BuildKids(e, at, b, rel, k))
    decreases e, k
  {
    if k == 0 {
      UnionEmpty(acc.ids);
      UnionEmpty(acc.memo);
      UnionEmpty(acc.cur);
    } else {
      var K := BuildKids(e, at, b, rel, k - 1);
      var C := Build(e.children[k - 1], at + [k - 1], Base(e, b, k - 1), rel);
      BuildKidsOntoMerge(e, at, b, rel, k - 1, acc);
      BuildOntoMerge(e.children[k - 1], at + [k - 1], Base(e, b, k - 1), rel, Merge(acc, K));
      UnionAssoc(acc.ids, K.ids, C.ids);
      UnionAssoc(acc.memo, K.memo, C.memo);
      UnionAssoc(acc.cur, K.cur, C.cur);
    }
  }

  lemma UnionAssoc<K, V>(a: map<K, V>, b: map<K, V>, c: map<K, V>)
    ensures a + b + c == a + (b + c)
  {
  }

  lemma UnionSingleton<K, V>(a: map<K, V>, k: K, v: V)
    ensures a[k := v] == a + map[k := v]
  {
  }

  lemma UnionEmpty<K, V>(a: map<K, V>)
    ensures a == a + map[]
  {
  }

  lemma UnionUpdate<K, V>(a: map<K, V>, b: map<K, V>, k: K, v: V)
    ensures (a + b)[k := v] == a + b[k := v]
  {
  }

  /** Building an AND or array-context node: its children, then its own entry after them. */
  lemma BuildAndNode(e: Expr, at: Path, b: nat, rel: map<Path, RelevantTag>)
    requires e.kind.And? || e.kind.ArrayCtx?
    ensures Count(e) == 1 + SumCount(e, |e.children|)
    ensures IdOf(e, b) == Base(e, b, |e.children|)
    ensures Solution(e, at, b, rel) == AndSolution(AndOptions(e, at, b, rel))
    ensures var K := BuildKids(e, at, b, rel, |e.children|);
      var id := Base(e, b, |e.children|);
      Build(e, at, b, rel) == Built(K.ids[at := id], K.memo[id := Solution(e, at, b, rel)], K.cur[id := 0])
  {
  }

  /** Building an OR node: its children, then its own entry, with no initial choice of its own. */
  lemma BuildOrNode(e: Expr, at: Path, b: nat, rel: map<Path, RelevantTag>)
    requires e.kind.Or?
    ensures Count(e) == 1 + SumCount(e, |e.children|)
    ensures IdOf(e, b) == Base(e, b, |e.children|)
    ensures Solution(e, at, b, rel) == OrSolution(BranchIds(e, b, |e.children|))
    ensures var K := BuildKids(e, at, b, rel, |e.children|);
      var id := Base(e, b, |e.children|);
      Build(e, at, b, rel) == Built(K.ids[at := id], K.memo[id := Solution(e, at, b, rel)], K.cur)
  {
  }

  /** Ids in a subtree lie below its root path and in its id range; its memo entries fill that range exactly. */
  lemma {:induction false} BuildRange(e: Expr, at: Path, b: nat, rel: map<Path, RelevantTag>)
    ensures forall p | p in Build(e, at, b, rel).ids ::
      Below(at, p) && b <= Build(e, at, b, rel).ids[p] < b + Count(e)
    ensures forall x: nat :: x in Build(e, at, b, rel).memo <==> b <= x < b + Count(e)
    ensures Build(e, at, b, rel).cur.Keys <= Build(e, at, b, rel).memo.Keys
    decreases e, |e.children| + 1
  {
    if !e.kind.Other? && !e.kind.Leaf? {
      var n := |e.children|;
      var K := BuildKids(e, at, b, rel, n);
      var id := IdOf(e, b);
      BuildKidsRange(e, at, b, rel, n);
      assert id == Base(e, b, n);
      var B := Build(e, at, b, rel);
      assert B.ids == K.ids[at := id];
      assert B.memo == K.memo[id := Solution(e, at, b, rel)];
      assert B.cur.Keys <= K.cur.Keys + {id};
    }
  }

  lemma {:induction false} BuildKidsRange(e: Expr, at: Path, b: nat, rel: map<Path, RelevantTag>, k: nat)
    requires k <= |e.children|
    ensures forall p | p in BuildKids(e, at, b, rel, k).ids ::
      StrictlyBelow(at, p) && p[|at|] < k && b <= BuildKids(e, at, b, rel, k).ids[p] < Base(e, b, k)
    ensures forall x: nat :: x in BuildKids(e, at, b, rel, k).memo <==> b <= x < Base(e, b, k)
    ensures BuildKids(e, at, b, rel, k).cur.Keys <= BuildKids(e, at, b, rel, k).memo.Keys
    decreases e, k
  {
    if k > 0 {
      var c := e.children[k - 1];
      var bc := Base(e, b, k - 1);
      var K := BuildKids(e, at, b, rel, k - 1);
      var C := Build(c, at + [k - 1], bc, rel);
      assert BuildKids(e, at, b, rel, k) == Merge(K, C);
      assert Base(e, b, k) == bc + Count(c);
      BuildKidsRange(e, at, b, rel, k - 1);
      BuildRange(c, at + [k - 1], bc, rel);
      forall p | p in C.ids
        ensures StrictlyBelow(at, p) && p[|at|] == k - 1
      {
        BelowParent(at, k - 1, p);
      }
    }
  }

  /** A subtree's root that gets an id is recorded under its own path with IdOf. */
  lemma BuildOwnId(e: Expr, at: Path, b: nat, rel: map<Path, RelevantTag>)
    requires !e.kind.Other?
    ensures at in Build(e, at, b, rel).ids && Build(e, at, b, rel).ids[at] == IdOf(e, b)
  {
  }

  /** Child `j` appears among the first `k` children's ids exactly when it gets an id, and then under IdOf. */
  lemma {:induction false} BuildKidsChildId(e: Expr, at: Path, b: nat, rel: map<Path, RelevantTag>, k: nat, j: nat)
    requires j < k <= |e.children|
    ensures at + [j] in BuildKids(e, at, b, rel, k).ids <==> !e.children[j].kind.Other?
    ensures at + [j] in BuildKids(e, at, b, rel, k).ids ==>
      BuildKids(e, at, b, rel, k).ids[at + [j]] == IdOf(e.children[j], Base(e, b, j))
    decreases k
  {
    var K := BuildKids(e, at, b, rel, k - 1);
    var c := e.children[k - 1];
    var C := Build(c, at + [k - 1], Base(e, b, k - 1), rel);
    assert BuildKids(e, at, b, rel, k).ids == K.ids + C.ids;
    if j == k - 1 {
      BuildKidsRange(e, at, b, rel, k - 1);
      assert (at + [j])[|at|] == j;
      assert at + [j] !in K.ids;
      if c.kind.Other? {
        assert C.ids == map[];
        UnionMiss(K.ids, C.ids, at + [j]);
      } else {
        BuildOwnId(c, at + [j], Base(e, b, j), rel);
        UnionHit(K.ids, C.ids, at + [j]);
      }
    } else {
      BuildRange(c, at + [k - 1], Base(e, b, k - 1), rel);
      BuildKidsChildId(e, at, b, rel, k - 1, j);
      assert (at + [j])[..|at| + 1] == at + [j];
      BelowSiblings(at, j, k - 1, at + [j]);
      UnionMiss(K.ids, C.ids, at + [j]);
    }
  }

  /** A key missing from the right operand of a union is looked up in the left one. */
  lemma UnionMiss<K, V>(a: map<K, V>, b: map<K, V>, k: K)
    requires k !in b
    ensures k in a + b <==> k in a
    ensures k in a ==> (a + b)[k] == a[k]
  {
  }

  /** A key present in the right operand of a union is looked up there. */
  lemma UnionHit<K, V>(a: map<K, V>, b: map<K, V>, k: K)
    requires k in b
    ensures k in a + b && (a + b)[k] == b[k]
  {
  }

  /** Once the first `i` children are added to `acc`, nothing recorded so far lies below child `i`. */
  lemma FreshForChild(acc: Built, e: Expr, at: Path, b: nat, rel: map<Path, RelevantTag>, i: nat)
    requires i < |e.children|
    requires Unvisited(acc.ids, at)
    ensures Unvisited(BuildKidsOnto(e, at, b, rel, i, acc).ids, at + [i])
  {
    BuildKidsOntoMerge(e, at, b, rel, i, acc);
    BuildKidsRange(e, at, b, rel, i);
    forall p | p in BuildKidsOnto(e, at, b, rel, i, acc).ids && Below(at + [i], p)
      ensures false
    {
      BelowParent(at, i, p);
      assert Below(at, p);
    }
  }

  /** A subtree's root that gets an id is recorded under its own path with IdOf, whatever was there before. */
  lemma OntoOwnId(e: Expr, at: Path, b: nat, rel: map<Path, RelevantTag>, acc: Built)
    requires !e.kind.Other?
    ensures at in BuildOnto(e, at, b, rel, acc).ids && BuildOnto(e, at, b, rel, acc).ids[at] == IdOf(e, b)
  {
  }

  /**
   * Once the first `k` children are added to `acc`, child `j < k` has an entry
   * exactly when it gets an id, and then under IdOf.
   */
  lemma OntoChildId(e: Expr, at: Path, b: nat, rel: map<Path, RelevantTag>, k: nat, acc: Built, j: nat)
    requires j < k <= |e.children|
    requires Unvisited(acc.ids, at)
    ensures at + [j] in BuildKidsOnto(e, at, b, rel, k, acc).ids <==> !e.children[j].kind.Other?
    ensures at + [j] in BuildKidsOnto(e, at, b, rel, k, acc).ids ==>
      BuildKidsOnto(e, at, b, rel, k, acc).ids[at + [j]] == IdOf(e.children[j], Base(e, b, j))
  {
    BuildKidsOntoMerge(e, at, b, rel, k, acc);
    BuildKidsChildId(e, at, b, rel, k, j);
    assert Below(at, at + [j]);
  }

  /** An AND or array-context node has an option exactly when one of its children is indexable. */
  lemma OptionsExistIffIndexable(e: Expr, at: Path, b: nat, rel: map<Path, RelevantTag>)
    requires e.kind.And? || e.kind.ArrayCtx?
    ensures |AndOptions(e, at, b, rel)| > 0 <==> Indexable(e, at, rel)
  {
    var n := |e.children|;
    ChildOptionsLength(e, at, b, rel, n);
    GeoSlotInKids(e, at, rel, n);
    OptKidsExist(e, at, rel, n);
  }

  /** Swapping option slots and swapping the children behind them give the same options. */
  lemma SingletonsSwap(e: Expr, b: nat, kids: seq<nat>, g: nat)
    requires forall j | 0 <= j < |kids| :: kids[j] < |e.children|
    requires g < |kids|
    ensures Singletons(e, b, SwapFront(kids, g)) == SwapFront(Singletons(e, b, kids), g)
  {
  }

  /** Option `j` among the first `k` children is the singleton id of the `j`-th indexable child. */
  lemma {:induction false} ChildOptionsKids(e: Expr, at: Path, b: nat, rel: map<Path, RelevantTag>, k: nat)
    requires k <= |e.children|
    ensures (forall j | 0 <= j < |OptKids(e, at, rel, k)| :: OptKids(e, at, rel, k)[j] < k) &&
      ChildOptions(e, at, b, rel, k) == Singletons(e, b, OptKids(e, at, rel, k))
  {
    OptKidsMeans(e, at, rel, k);
    if k > 0 {
      ChildOptionsKids(e, at, b, rel, k - 1);
    }
  }

  /** The options of an AND or array-context node are the singleton ids of the children AndKids lists. */
  lemma AndOptionsKids(e: Expr, at: Path, b: nat, rel: map<Path, RelevantTag>)
    ensures (forall j | 0 <= j < |AndKids(e, at, rel)| :: AndKids(e, at, rel)[j] < |e.children|) &&
      AndOptions(e, at, b, rel) == Singletons(e, b, AndKids(e, at, rel))
  {
    var n := |e.children|;
    ChildOptionsKids(e, at, b, rel, n);
    GeoSlotInKids(e, at, rel, n);
    match GeoSlot(e, at, rel, n)
    case Some(g) =>
      if e.kind.And? && g != 0 {
        SingletonsSwap(e, b, OptKids(e, at, rel, n), g);
      }
    case None =>
  }

  /** Building a leaf: one id, its index lists, choice 0; it is indexable when it has a leading-field index. */
  lemma BuildLeaf(e: Expr, at: Path, b: nat, rel: map<Path, RelevantTag>)
    requires e.kind.Leaf?
    ensures Count(e) == 1 && IdOf(e, b) == b
    ensures Indexable(e, at, rel) <==> |FirstOf(rel, at)| > 0
    ensures Build(e, at, b, rel) ==
      Built(map[at := b], map[b := Predicate(at, FirstOf(rel, at), NotFirstOf(rel, at))], map[b := 0])
  {
  }

  /** Some child among the first `k` is indexable exactly when one is listed. */
  lemma {:induction false} OptKidsExist(e: Expr, at: Path, rel: map<Path, RelevantTag>, k: nat)
    requires k <= |e.children|
    ensures |OptKids(e, at, rel, k)| > 0 <==> AnyIndexable(e, at, rel, k)
  {
    if k > 0 {
      OptKidsExist(e, at, rel, k - 1);
    }
  }

  /** One more child examined: an indexable child adds its singleton option, and may become the GEO_NEAR slot. */
  lemma OptionsNext(e: Expr, at: Path, b: nat, rel: map<Path, RelevantTag>, i: nat)
    requires i < |e.children|
    ensures ChildOptions(e, at, b, rel, i + 1) ==
      if Indexable(e.children[i], at + [i], rel) then
        ChildOptions(e, at, b, rel, i) + [[IdOf(e.children[i], Base(e, b, i))]]
      else ChildOptions(e, at, b, rel, i)
    ensures GeoSlot(e, at, rel, i + 1) ==
      if Indexable(e.children[i], at + [i], rel) && IsGeoNear(e.children[i]) then
        Some(|OptKids(e, at, rel, i + 1)| - 1)
      else GeoSlot(e, at, rel, i)
  {
  }

  /** Every entry of `a` is also in `m`, with the same value. */
  predicate SubMap<K, V(==)>(a: map<K, V>, m: map<K, V>) {
    forall x | x in a :: x in m && m[x] == a[x]
  }

  /** Later children start later. */
  lemma {:induction false} BaseMonotone(e: Expr, b: nat, i: nat, j: nat)
    requires i <= j <= |e.children|
    ensures Base(e, b, i) <= Base(e, b, j)
    decreases j - i
  {
    if i < j {
      BaseMonotone(e, b, i, j - 1);
    }
  }

  /** Built from an empty start, the accumulated records are the subtree's own. */
  lemma BuildOntoEmpty(e: Expr, at: Path, b: nat, rel: map<Path, RelevantTag>)
    ensures BuildOnto(e, at, b, rel, Empty) == Build(e, at, b, rel)
  {
    var B := Build(e, at, b, rel);
    BuildOntoMerge(e, at, b, rel, Empty);
    assert map[] + B.ids == B.ids;
    assert map[] + B.memo == B.memo;
    assert map[] + B.cur == B.cur;
  }

  /** An id recorded for child `i` stays in the records of the first `k > i` children. */
  lemma {:induction false} KidsKeepChildId(e: Expr, at: Path, b: nat, rel: map<Path, RelevantTag>, k: nat, i: nat, p: Path)
    requires i < k <= |e.children|
    requires p in Build(e.children[i], at + [i], Base(e, b, i), rel).ids
    ensures p in BuildKids(e, at, b, rel, k).ids
    ensures BuildKids(e, at, b, rel, k).ids[p] == Build(e.children[i], at + [i], Base(e, b, i), rel).ids[p]
    decreases k
  {
    var K := BuildKids(e, at, b, rel, k - 1);
    var C := Build(e.children[k - 1], at + [k - 1], Base(e, b, k - 1), rel);
    if i < k - 1 {
      KidsKeepChildId(e, at, b, rel, k - 1, i, p);
      BuildRange(e.children[i], at + [i], Base(e, b, i), rel);
      BuildRange(e.children[k - 1], at + [k - 1], Base(e, b, k - 1), rel);
      BelowSiblings(at, i, k - 1, p);
      UnionMiss(K.ids, C.ids, p);
    } else {
      UnionHit(K.ids, C.ids, p);
    }
  }

  /** A memo entry recorded for child `i` stays in the records of the first `k > i` children. */
  lemma {:induction false} KidsKeepChildMemo(e: Expr, at: Path, b: nat, rel: map<Path, RelevantTag>, k: nat, i: nat, x: nat)
    requires i < k <= |e.children|
    requires x in Build(e.children[i], at + [i], Base(e, b, i), rel).memo
    ensures x in BuildKids(e, at, b, rel, k).memo
    ensures BuildKids(e, at, b, rel, k).memo[x] == Build(e.children[i], at + [i], Base(e, b, i), rel).memo[x]
    decreases k
  {
    var K := BuildKids(e, at, b, rel, k - 1);
    var C := Build(e.children[k - 1], at + [k - 1], Base(e, b, k - 1), rel);
    if i < k - 1 {
      KidsKeepChildMemo(e, at, b, rel, k - 1, i, x);
      BuildRange(e.children[i], at + [i], Base(e, b, i), rel);
      BuildRange(e.children[k - 1], at + [k - 1], Base(e, b, k - 1), rel);
      BaseMonotone(e, b, i + 1, k - 1);
      assert Base(e, b, i + 1) == Base(e, b, i) + Count(e.children[i]);
      UnionMiss(K.memo, C.memo, x);
    } else {
      UnionHit(K.memo, C.memo, x);
    }
  }

  /** A child subtree's ids and memo entries appear unchanged in its parent's records. */
  lemma ChildRecordsKept(e: Expr, at: Path, b: nat, rel: map<Path, RelevantTag>, i: nat)
    requires !e.kind.Other? && !e.kind.Leaf? && i < |e.children|
    ensures SubMap(Build(e.children[i], at + [i], Base(e, b, i), rel).ids, Build(e, at, b, rel).ids)
    ensures SubMap(Build(e.children[i], at + [i], Base(e, b, i), rel).memo, Build(e, at, b, rel).memo)
  {
    var n := |e.children|;
    var Ci := Build(e.children[i], at + [i], Base(e, b, i), rel);
    BuildRange(e.children[i], at + [i], Base(e, b, i), rel);
    BaseMonotone(e, b, i + 1, n);
    assert Base(e, b, i + 1) == Base(e, b, i) + Count(e.children[i]);
    forall p | p in Ci.ids
      ensures p in Build(e, at, b, rel).ids && Build(e, at, b, rel).ids[p] == Ci.ids[p]
    {
      KidsKeepChildId(e, at, b, rel, n, i, p);
    }
    forall x | x in Ci.memo
      ensures x in Build(e, at, b, rel).memo && Build(e, at, b, rel).memo[x] == Ci.memo[x]
    {
      KidsKeepChildMemo(e, at, b, rel, n, i, x);
    }
  }

  /** A subtree's root that gets an id has its own solution stored under it. */
  lemma OwnSolution(e: Expr, at: Path, b: nat, rel: map<Path, RelevantTag>)
    requires !e.kind.Other?
    ensures IdOf(e, b) in Build(e, at, b, rel).memo && Build(e, at, b, rel).memo[IdOf(e, b)] == Solution(e, at, b, rel)
  {
  }

  /** Every node starts on choice 0; only an OR has no choice recorded. */
  lemma {:induction false} ChoicesStartAtZero(e: Expr, at: Path, b: nat, rel: map<Path, RelevantTag>)
    ensures forall x | x in Build(e, at, b, rel).cur :: Build(e, at, b, rel).cur[x] == 0
    ensures !e.kind.Other? && !e.kind.Or? ==> IdOf(e, b) in Build(e, at, b, rel).cur
    decreases e, |e.children| + 1
  {
    if !e.kind.Other? && !e.kind.Leaf? {
      KidsChoicesStartAtZero(e, at, b, rel, |e.children|);
    }
  }

  lemma {:induction false} KidsChoicesStartAtZero(e: Expr, at: Path, b: nat, rel: map<Path, RelevantTag>, k: nat)
    requires k <= |e.children|
    ensures forall x | x in BuildKids(e, at, b, rel, k).cur :: BuildKids(e, at, b, rel, k).cur[x] == 0
    decreases e, k
  {
    if k > 0 {
      KidsChoicesStartAtZero(e, at, b, rel, k - 1);
      ChoicesStartAtZero(e.children[k - 1], at + [k - 1], Base(e, b, k - 1), rel);
    }
  }

  /** No two keys of `m` share a value. */
  predicate Injective<K>(m: map<K, nat>) {
    forall p, q | p in m && q in m && p != q :: m[p] != m[q]
  }

  /** Every value of `m` lies in `[lo, hi)`. */
  predicate ValuesIn<K>(m: map<K, nat>, lo: nat, hi: nat) {
    forall p | p in m :: lo <= m[p] < hi
  }

  lemma UnionInjective<K>(a: map<K, nat>, c: map<K, nat>, lo: nat, mid: nat, hi: nat)
    requires lo <= mid <= hi && Injective(a) && Injective(c) && ValuesIn(a, lo, mid) && ValuesIn(c, mid, hi)
    ensures Injective(a + c) && ValuesIn(a + c, lo, hi)
  {
    forall p | p in a + c ensures lo <= (a + c)[p] < hi {
      if p in c {
        UnionHit(a, c, p);
      } else {
        UnionMiss(a, c, p);
      }
    }
    forall p, q | p in a + c && q in a + c && p != q
      ensures (a + c)[p] != (a + c)[q]
    {
      if p in c && q !in c {
        UnionHit(a, c, p);
        UnionMiss(a, c, q);
      } else if q in c && p !in c {
        UnionMiss(a, c, p);
        UnionHit(a, c, q);
      }
    }
  }

  /**
   * Ids are handed out in post-order: distinct nodes get distinct ids, the ids
   * of a subtree starting at `b` fill `[b, b + Count(e))`, and a node's id is
   * larger than every other id in its subtree.
   */
  lemma {:induction false} PostOrderIds(e: Expr, at: Path, b: nat, rel: map<Path, RelevantTag>)
    ensures Injective(Build(e, at, b, rel).ids)
    ensures ValuesIn(Build(e, at, b, rel).ids, b, b + Count(e))
    ensures !e.kind.Other? ==> forall p | p in Build(e, at, b, rel).ids && p != at ::
      Build(e, at, b, rel).ids[p] < Build(e, at, b, rel).ids[at]
    decreases e, |e.children| + 1
  {
    if !e.kind.Other? && !e.kind.Leaf? {
      var n := |e.children|;
      var K := BuildKids(e, at, b, rel, n);
      KidsPostOrderIds(e, at, b, rel, n);
      BuildKidsRange(e, at, b, rel, n);
      assert IdOf(e, b) == Base(e, b, n);
      assert Build(e, at, b, rel).ids == K.ids[at := IdOf(e, b)];
    }
  }

  lemma {:induction false} KidsPostOrderIds(e: Expr, at: Path, b: nat, rel: map<Path, RelevantTag>, k: nat)
    requires k <= |e.children|
    ensures Injective(BuildKids(e, at, b, rel, k).ids)
    ensures ValuesIn(BuildKids(e, at, b, rel, k).ids, b, Base(e, b, k))
    decreases e, k
  {
    if k > 0 {
      var K := BuildKids(e, at, b, rel, k - 1);
      var C := Build(e.children[k - 1], at + [k - 1], Base(e, b, k - 1), rel);
      KidsPostOrderIds(e, at, b, rel, k - 1);
      PostOrderIds(e.children[k - 1], at + [k - 1], Base(e, b, k - 1), rel);
      UnionInjective(K.ids, C.ids, b, Base(e, b, k - 1), Base(e, b, k));
    }
  }

  lemma SubMapTrans<K, V>(a: map<K, V>, m: map<K, V>, n: map<K, V>)
    requires SubMap(a, m) && SubMap(m, n)
    ensures SubMap(a, n)
  {
  }

  /** Leaf `p` has an id whose memo entry is a predicate entry carrying `p`'s later-field indexes. */
  predicate LeafRecorded(p: Path, ids: map<Path, nat>, memo: map<nat, NodeSolution>, rel: map<Path, RelevantTag>) {
    p in ids && ids[p] in memo && memo[ids[p]].Predicate? && memo[ids[p]].notFirst == NotFirstOf(rel, p)
  }

  /** Every leaf child of every AND in the subtree is recorded in `ids` and `memo`. */
  predicate AndLeavesRecorded(e: Expr, at: Path, ids: map<Path, nat>, memo: map<nat, NodeSolution>, rel: map<Path, RelevantTag>)
    decreases e
  {
    (e.kind.And? ==> forall i | 0 <= i < |e.children| && e.children[i].kind.Leaf? :: LeafRecorded(at + [i], ids, memo, rel)) &&
    forall i | 0 <= i < |e.children| :: AndLeavesRecorded(e.children[i], at + [i], ids, memo, rel)
  }

  /** A subtree without an AND asks nothing of the records. */
  lemma {:induction false} NoAndRecorded(e: Expr, at: Path, ids: map<Path, nat>, memo: map<nat, NodeSolution>, rel: map<Path, RelevantTag>)
    requires NoAnd(e)
    ensures AndLeavesRecorded(e, at, ids, memo, rel)
    decreases e
  {
    forall i | 0 <= i < |e.children| ensures AndLeavesRecorded(e.children[i], at + [i], ids, memo, rel) {
      NoAndRecorded(e.children[i], at + [i], ids, memo, rel);
    }
  }

  /** Records stay sufficient when more entries are added. */
  lemma {:induction false} RecordedGrows(e: Expr, at: Path, ids: map<Path, nat>, memo: map<nat, NodeSolution>,
                                         ids': map<Path, nat>, memo': map<nat, NodeSolution>, rel: map<Path, RelevantTag>)
    requires AndLeavesRecorded(e, at, ids, memo, rel) && SubMap(ids, ids') && SubMap(memo, memo')
    ensures AndLeavesRecorded(e, at, ids', memo', rel)
    decreases e
  {
    if e.kind.And? {
      forall i | 0 <= i < |e.children| && e.children[i].kind.Leaf? ensures LeafRecorded(at + [i], ids', memo', rel) {
        assert LeafRecorded(at + [i], ids, memo, rel);
      }
    }
    forall i | 0 <= i < |e.children| ensures AndLeavesRecorded(e.children[i], at + [i], ids', memo', rel) {
      RecordedGrows(e.children[i], at + [i], ids, memo, ids', memo', rel);
    }
  }

  /**
   * On a well-formed tree the memo builder records every leaf child of every
   * AND as a predicate entry, so the compound pass finds each one's entry.
   */
  lemma {:induction false} BuildRecordsAndLeaves(e: Expr, at: Path, b: nat, rel: map<Path, RelevantTag>)
    requires WellFormed(e)
    ensures AndLeavesRecorded(e, at, Build(e, at, b, rel).ids, Build(e, at, b, rel).memo, rel)
    decreases e
  {
    var B := Build(e, at, b, rel);
    if e.kind.Leaf? || e.kind.Other? {
      forall i | 0 <= i < |e.children| ensures AndLeavesRecorded(e.children[i], at + [i], B.ids, B.memo, rel) {
        NoAndRecorded(e.children[i], at + [i], B.ids, B.memo, rel);
      }
    } else {
      forall i | 0 <= i < |e.children| ensures AndLeavesRecorded(e.children[i], at + [i], B.ids, B.memo, rel) {
        var C := Build(e.children[i], at + [i], Base(e, b, i), rel);
        BuildRecordsAndLeaves(e.children[i], at + [i], Base(e, b, i), rel);
        ChildRecordsKept(e, at, b, rel, i);
        RecordedGrows(e.children[i], at + [i], C.ids, C.memo, B.ids, B.memo, rel);
      }
      if e.kind.And? {
        forall i | 0 <= i < |e.children| && e.children[i].kind.Leaf? ensures LeafRecorded(at + [i], B.ids, B.memo, rel) {
          var C := Build(e.children[i], at + [i], Base(e, b, i), rel);
          BuildLeaf(e.children[i], at + [i], Base(e, b, i), rel);
          ChildRecordsKept(e, at, b, rel, i);
          assert LeafRecorded(at + [i], C.ids, C.memo, rel);
        }
      }
    }
  }
}
