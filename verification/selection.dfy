/**
 * The index assignment the enumerator writes for the current choices: a
 * predicate leaf gets the leading-field index its choice names, an OR passes
 * the assignment on to every branch, and an AND or array-context node passes
 * it on only to the child behind its chosen option.
 */
module Selection {
  import opened Expression
  import opened Memo

  /** The current choice of memo entry `id`; a choice never recorded reads as 0, as a map read of a missing key does. */
  function Choice(cur: map<nat, nat>, id: nat): nat {
    if id in cur then cur[id] else 0
  }

  /** Every recorded choice is the first one. */
  predicate AllZero(cur: map<nat, nat>) {
    forall x | x in cur :: cur[x] == 0
  }

  /** The child behind the chosen option of an AND or array-context node. */
  function ChosenKid(e: Expr, at: Path, b: nat, rel: map<Path, RelevantTag>, cur: map<nat, nat>): (k: nat)
    requires Choice(cur, IdOf(e, b)) < |AndKids(e, at, rel)|
    ensures k < |e.children| && Indexable(e.children[k], at + [k], rel)
  {
    AndKidsIndexable(e, at, b, rel);
    AndKids(e, at, rel)[Choice(cur, IdOf(e, b))]
  }

  /**
   * The choices are usable for the subtree: every choice the assignment
   * consults names an existing option or leading-field index, and every OR
   * branch it reaches has a memo entry of its own.
   */
  predicate Fits(e: Expr, at: Path, b: nat, rel: map<Path, RelevantTag>, cur: map<nat, nat>)
    decreases e, |e.children| + 1
  {
    match e.kind
    case Other => false
    case Leaf(_, _) => |FirstOf(rel, at)| == 0 || Choice(cur, IdOf(e, b)) < |FirstOf(rel, at)|
    case Or => AllFit(e, at, b, rel, cur, |e.children|)
    case And =>
      Choice(cur, IdOf(e, b)) < |AndKids(e, at, rel)| &&
      var k := ChosenKid(e, at, b, rel, cur);
      Fits(e.children[k], at + [k], Base(e, b, k), rel, cur)
    case ArrayCtx(_) =>
      Choice(cur, IdOf(e, b)) < |AndKids(e, at, rel)| &&
      var k := ChosenKid(e, at, b, rel, cur);
      Fits(e.children[k], at + [k], Base(e, b, k), rel, cur)
  }

  /** The choices fit each of the first `k` children. */
  predicate AllFit(e: Expr, at: Path, b: nat, rel: map<Path, RelevantTag>, cur: map<nat, nat>, k: nat)
    requires k <= |e.children|
    decreases e, k
  {
    k == 0 || (AllFit(e, at, b, rel, cur, k - 1) && Fits(e.children[k - 1], at + [k - 1], Base(e, b, k - 1), rel, cur))
  }

  /** The index assignment for subtree `e` at `at` under the choices `cur`: leaf path to chosen index. */
  function Plan(e: Expr, at: Path, b: nat, rel: map<Path, RelevantTag>, cur: map<nat, nat>): map<Path, IndexTag>
    requires Fits(e, at, b, rel, cur)
    decreases e, |e.children| + 1
  {
    match e.kind
    case Other => map[]
    case Leaf(_, _) =>
      if |FirstOf(rel, at)| == 0 then map[]
      else map[at := IndexTag(FirstOf(rel, at)[Choice(cur, IdOf(e, b))], 0)]
    case Or => PlanKids(e, at, b, rel, cur, |e.children|)
    case And =>
      var k := ChosenKid(e, at, b, rel, cur);
      Plan(e.children[k], at + [k], Base(e, b, k), rel, cur)
    case ArrayCtx(_) =>
      var k := ChosenKid(e, at, b, rel, cur);
      Plan(e.children[k], at + [k], Base(e, b, k), rel, cur)
  }

  /** The assignments of the first `k` children together. */
  function PlanKids(e: Expr, at: Path, b: nat, rel: map<Path, RelevantTag>, cur: map<nat, nat>, k: nat): map<Path, IndexTag>
    requires k <= |e.children| && AllFit(e, at, b, rel, cur, k)
    decreases e, k
  {
    if k == 0 then map[]
    else PlanKids(e, at, b, rel, cur, k - 1) + Plan(e.children[k - 1], at + [k - 1], Base(e, b, k - 1), rel, cur)
  }

  /** Every child behind an option of an AND or array-context node is indexable. */
  lemma AndKidsIndexable(e: Expr, at: Path, b: nat, rel: map<Path, RelevantTag>)
    ensures forall j | 0 <= j < |AndKids(e, at, rel)| ::
      AndKids(e, at, rel)[j] < |e.children| && Indexable(e.children[AndKids(e, at, rel)[j]], at + [AndKids(e, at, rel)[j]], rel)
  {
    var n := |e.children|;
    var kids := OptKids(e, at, rel, n);
    OptKidsMeans(e, at, rel, n);
    assert forall j | 0 <= j < |kids| :: kids[j] in kids;
    GeoSlotInKids(e, at, rel, n);
    match GeoSlot(e, at, rel, n)
    case Some(g) =>
      if e.kind.And? && g != 0 {
        var s := SwapFront(kids, g);
        forall j | 0 <= j < |s|
          ensures s[j] < n && Indexable(e.children[s[j]], at + [s[j]], rel)
        {
          assert s[j] == kids[if j == 0 then g else if j == g then 0 else j];
        }
      }
    case None =>
  }

  /** Choices that fit the first `k` children fit each of them. */
  lemma {:induction false} AllFitChild(e: Expr, at: Path, b: nat, rel: map<Path, RelevantTag>, cur: map<nat, nat>, k: nat, i: nat)
    requires i < k <= |e.children| && AllFit(e, at, b, rel, cur, k)
    ensures Fits(e.children[i], at + [i], Base(e, b, i), rel, cur)
    decreases k
  {
    if i < k - 1 {
      AllFitChild(e, at, b, rel, cur, k - 1, i);
    }
  }

  /**
   * Every tag of the assignment lies in the subtree and puts the leaf on one of
   * its leading-field indexes, at key position 0; with every choice still the
   * first, that index is the leaf's first leading-field index.
   */
  lemma {:induction false} PlanTags(e: Expr, at: Path, b: nat, rel: map<Path, RelevantTag>, cur: map<nat, nat>)
    requires Fits(e, at, b, rel, cur)
    ensures forall p | p in Plan(e, at, b, rel, cur) ::
      Below(at, p) && Plan(e, at, b, rel, cur)[p].pos == 0 && Plan(e, at, b, rel, cur)[p].index in FirstOf(rel, p)
    ensures AllZero(cur) ==> forall p | p in Plan(e, at, b, rel, cur) ::
      |FirstOf(rel, p)| > 0 && Plan(e, at, b, rel, cur)[p].index == FirstOf(rel, p)[0]
    decreases e, |e.children| + 1
  {
    match e.kind
    case Other =>
    case Leaf(_, _) =>
    case Or =>
      PlanKidsTags(e, at, b, rel, cur, |e.children|);
    case And =>
      var k := ChosenKid(e, at, b, rel, cur);
      PlanTags(e.children[k], at + [k], Base(e, b, k), rel, cur);
      forall p | Below(at + [k], p)
        ensures Below(at, p)
      {
        BelowParent(at, k, p);
      }
    case ArrayCtx(_) =>
      var k := ChosenKid(e, at, b, rel, cur);
      PlanTags(e.children[k], at + [k], Base(e, b, k), rel, cur);
      forall p | Below(at + [k], p)
        ensures Below(at, p)
      {
        BelowParent(at, k, p);
      }
  }

  lemma {:induction false} PlanKidsTags(e: Expr, at: Path, b: nat, rel: map<Path, RelevantTag>, cur: map<nat, nat>, k: nat)
    requires k <= |e.children| && AllFit(e, at, b, rel, cur, k)
    ensures forall p | p in PlanKids(e, at, b, rel, cur, k) ::
      Below(at, p) && PlanKids(e, at, b, rel, cur, k)[p].pos == 0 && PlanKids(e, at, b, rel, cur, k)[p].index in FirstOf(rel, p)
    ensures AllZero(cur) ==> forall p | p in PlanKids(e, at, b, rel, cur, k) ::
      |FirstOf(rel, p)| > 0 && PlanKids(e, at, b, rel, cur, k)[p].index == FirstOf(rel, p)[0]
    decreases e, k
  {
    if k > 0 {
      var P: map<Path, IndexTag> := PlanKids(e, at, b, rel, cur, k - 1);
      var C: map<Path, IndexTag> := Plan(e.children[k - 1], at + [k - 1], Base(e, b, k - 1), rel, cur);
      PlanKidsTags(e, at, b, rel, cur, k - 1);
      PlanTags(e.children[k - 1], at + [k - 1], Base(e, b, k - 1), rel, cur);
      forall p | p in P + C
        ensures Below(at, p) && (P + C)[p].pos == 0 && (P + C)[p].index in FirstOf(rel, p)
        ensures AllZero(cur) ==> |FirstOf(rel, p)| > 0 && (P + C)[p].index == FirstOf(rel, p)[0]
      {
        if p in C {
          UnionHit(P, C, p);
          BelowParent(at, k - 1, p);
        } else {
          UnionMiss(P, C, p);
        }
      }
    }
  }

  /** Choices that fit the first `k` children fit the first `i <= k`. */
  lemma {:induction false} AllFitPrefix(e: Expr, at: Path, b: nat, rel: map<Path, RelevantTag>, cur: map<nat, nat>, k: nat, i: nat)
    requires i <= k <= |e.children| && AllFit(e, at, b, rel, cur, k)
    ensures AllFit(e, at, b, rel, cur, i)
    decreases k
  {
    if i < k {
      AllFitPrefix(e, at, b, rel, cur, k - 1, i);
    }
  }

  /** The assignment of the first `k` children tags nothing outside those children's subtrees. */
  lemma {:induction false} PlanKidsEarlier(e: Expr, at: Path, b: nat, rel: map<Path, RelevantTag>, cur: map<nat, nat>, k: nat)
    requires k <= |e.children| && AllFit(e, at, b, rel, cur, k)
    ensures forall p | p in PlanKids(e, at, b, rel, cur, k) :: StrictlyBelow(at, p) && p[|at|] < k
    decreases k
  {
    if k > 0 {
      var P: map<Path, IndexTag> := PlanKids(e, at, b, rel, cur, k - 1);
      var C: map<Path, IndexTag> := Plan(e.children[k - 1], at + [k - 1], Base(e, b, k - 1), rel, cur);
      PlanKidsEarlier(e, at, b, rel, cur, k - 1);
      PlanTags(e.children[k - 1], at + [k - 1], Base(e, b, k - 1), rel, cur);
      forall p | p in P + C ensures StrictlyBelow(at, p) && p[|at|] < k {
        if p in C {
          BelowParent(at, k - 1, p);
        }
      }
    }
  }

  /** A tag of child `i`'s assignment stays in the assignment of the first `k > i` children. */
  lemma {:induction false} PlanKidsKeep(e: Expr, at: Path, b: nat, rel: map<Path, RelevantTag>, cur: map<nat, nat>, k: nat, i: nat, p: Path)
    requires i < k <= |e.children| && AllFit(e, at, b, rel, cur, k)
    requires Fits(e.children[i], at + [i], Base(e, b, i), rel, cur)
    requires p in Plan(e.children[i], at + [i], Base(e, b, i), rel, cur)
    ensures p in PlanKids(e, at, b, rel, cur, k)
    ensures PlanKids(e, at, b, rel, cur, k)[p] == Plan(e.children[i], at + [i], Base(e, b, i), rel, cur)[p]
    decreases k
  {
    var P := PlanKids(e, at, b, rel, cur, k - 1);
    var C := Plan(e.children[k - 1], at + [k - 1], Base(e, b, k - 1), rel, cur);
    if i < k - 1 {
      PlanKidsKeep(e, at, b, rel, cur, k - 1, i, p);
      PlanTags(e.children[i], at + [i], Base(e, b, i), rel, cur);
      PlanTags(e.children[k - 1], at + [k - 1], Base(e, b, k - 1), rel, cur);
      BelowSiblings(at, i, k - 1, p);
      UnionMiss(P, C, p);
    } else {
      UnionHit(P, C, p);
    }
  }

  /** An OR's assignment contains every branch's assignment. */
  lemma OrTagsAllBranches(e: Expr, at: Path, b: nat, rel: map<Path, RelevantTag>, cur: map<nat, nat>)
    requires e.kind.Or? && Fits(e, at, b, rel, cur)
    ensures forall i | 0 <= i < |e.children| :: Fits(e.children[i], at + [i], Base(e, b, i), rel, cur)
    ensures forall i | 0 <= i < |e.children| ::
      SubMap(Plan(e.children[i], at + [i], Base(e, b, i), rel, cur), Plan(e, at, b, rel, cur))
  {
    var n := |e.children|;
    forall i | 0 <= i < n
      ensures Fits(e.children[i], at + [i], Base(e, b, i), rel, cur)
      ensures SubMap(Plan(e.children[i], at + [i], Base(e, b, i), rel, cur), Plan(e, at, b, rel, cur))
    {
      AllFitChild(e, at, b, rel, cur, n, i);
      var C := Plan(e.children[i], at + [i], Base(e, b, i), rel, cur);
      forall p | p in C
        ensures p in Plan(e, at, b, rel, cur) && Plan(e, at, b, rel, cur)[p] == C[p]
      {
        PlanKidsKeep(e, at, b, rel, cur, n, i, p);
      }
    }
  }

  /** An AND or array-context node tags only inside the child behind its chosen option. */
  lemma AndTagsOnlyChosen(e: Expr, at: Path, b: nat, rel: map<Path, RelevantTag>, cur: map<nat, nat>)
    requires (e.kind.And? || e.kind.ArrayCtx?) && Fits(e, at, b, rel, cur)
    ensures forall p | p in Plan(e, at, b, rel, cur) :: Below(at + [ChosenKid(e, at, b, rel, cur)], p)
    ensures forall j, p | 0 <= j < |e.children| && j != ChosenKid(e, at, b, rel, cur) && p in Plan(e, at, b, rel, cur) ::
      !Below(at + [j], p)
  {
    var k := ChosenKid(e, at, b, rel, cur);
    PlanTags(e.children[k], at + [k], Base(e, b, k), rel, cur);
    forall j, p | 0 <= j < |e.children| && j != k && p in Plan(e, at, b, rel, cur)
      ensures !Below(at + [j], p)
    {
      BelowSiblings(at, k, j, p);
    }
  }

  /** With every choice the first, an indexable subtree has usable choices. */
  lemma {:induction false} ZeroChoicesFit(e: Expr, at: Path, b: nat, rel: map<Path, RelevantTag>, cur: map<nat, nat>)
    requires AllZero(cur) && Indexable(e, at, rel)
    ensures Fits(e, at, b, rel, cur)
    decreases e, |e.children| + 1
  {
    match e.kind
    case Leaf(_, _) =>
    case Or =>
      ZeroKidsFit(e, at, b, rel, cur, |e.children|);
    case And =>
      AndZeroFits(e, at, b, rel, cur);
    case ArrayCtx(_) =>
      AndZeroFits(e, at, b, rel, cur);
  }

  lemma {:induction false} ZeroKidsFit(e: Expr, at: Path, b: nat, rel: map<Path, RelevantTag>, cur: map<nat, nat>, k: nat)
    requires k <= |e.children|
    requires AllZero(cur) && AllIndexable(e, at, rel, k)
    ensures AllFit(e, at, b, rel, cur, k)
    decreases e, k
  {
    if k > 0 {
      ZeroKidsFit(e, at, b, rel, cur, k - 1);
      ZeroChoicesFit(e.children[k - 1], at + [k - 1], Base(e, b, k - 1), rel, cur);
    }
  }

  lemma {:induction false} AndZeroFits(e: Expr, at: Path, b: nat, rel: map<Path, RelevantTag>, cur: map<nat, nat>)
    requires e.kind.And? || e.kind.ArrayCtx?
    requires AllZero(cur) && Indexable(e, at, rel)
    ensures Fits(e, at, b, rel, cur)
    decreases e, |e.children|
  {
    OptionsExistIffIndexable(e, at, b, rel);
    AndOptionsKids(e, at, b, rel);
    assert |AndKids(e, at, rel)| > 0;
    var k := ChosenKid(e, at, b, rel, cur);
    ZeroChoicesFit(e.children[k], at + [k], Base(e, b, k), rel, cur);
  }

  /** Child `c` is an indexable GEO_NEAR leaf. */
  predicate GeoKid(e: Expr, at: Path, rel: map<Path, RelevantTag>, c: nat)
    requires c < |e.children|
  {
    Indexable(e.children[c], at + [c], rel) && IsGeoNear(e.children[c])
  }

  /** The GEO_NEAR slot names the last indexable GEO_NEAR child among the first `k`, and exists exactly when one does. */
  lemma {:induction false} GeoSlotLast(e: Expr, at: Path, rel: map<Path, RelevantTag>, k: nat)
    requires k <= |e.children|
    ensures GeoSlot(e, at, rel, k).None? <==> forall c | 0 <= c < k :: !GeoKid(e, at, rel, c)
    ensures GeoSlot(e, at, rel, k).Some? ==>
      GeoSlot(e, at, rel, k).value < |OptKids(e, at, rel, k)| &&
      var g := OptKids(e, at, rel, k)[GeoSlot(e, at, rel, k).value];
      g < k && GeoKid(e, at, rel, g) && forall c | g < c < k :: !GeoKid(e, at, rel, c)
  {
    GeoSlotInKids(e, at, rel, k);
    OptKidsMeans(e, at, rel, k);
    if k > 0 {
      GeoSlotLast(e, at, rel, k - 1);
      OptKidsMeans(e, at, rel, k - 1);
      if !GeoKid(e, at, rel, k - 1) && GeoSlot(e, at, rel, k - 1).Some? {
        var s := GeoSlot(e, at, rel, k - 1).value;
        assert OptKids(e, at, rel, k)[s] == OptKids(e, at, rel, k - 1)[s];
      }
    }
  }

  /**
   * GEO_NEAR priority: when an AND has an indexable GEO_NEAR child, its first
   * option is the last such child, so on choice 0 that leaf is the one tagged.
   */
  lemma GeoNearFirst(e: Expr, at: Path, b: nat, rel: map<Path, RelevantTag>, cur: map<nat, nat>, c: nat)
    requires e.kind.And? && c < |e.children| && GeoKid(e, at, rel, c)
    ensures |AndKids(e, at, rel)| > 0
    ensures var g := AndKids(e, at, rel)[0];
      g < |e.children| && GeoKid(e, at, rel, g) && forall j | g < j < |e.children| :: !GeoKid(e, at, rel, j)
    ensures Choice(cur, IdOf(e, b)) == 0 && Fits(e, at, b, rel, cur) ==>
      var g := AndKids(e, at, rel)[0];
      at + [g] in Plan(e, at, b, rel, cur) && Plan(e, at, b, rel, cur)[at + [g]].index in FirstOf(rel, at + [g])
  {
    var n := |e.children|;
    GeoSlotLast(e, at, rel, n);
    var s := GeoSlot(e, at, rel, n).value;
    var kids := OptKids(e, at, rel, n);
    var g := kids[s];
    assert AndKids(e, at, rel)[0] == g;
    if Choice(cur, IdOf(e, b)) == 0 && Fits(e, at, b, rel, cur) {
      assert ChosenKid(e, at, b, rel, cur) == g;
      var leaf := e.children[g];
      assert leaf.kind.Leaf? && |FirstOf(rel, at + [g])| > 0;
      assert Fits(leaf, at + [g], Base(e, b, g), rel, cur);
      var P := Plan(leaf, at + [g], Base(e, b, g), rel, cur);
      assert P == map[at + [g] := IndexTag(FirstOf(rel, at + [g])[Choice(cur, IdOf(leaf, Base(e, b, g)))], 0)];
      assert Plan(e, at, b, rel, cur) == P;
    }
  }
}
