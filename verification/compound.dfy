/**
 * Compound-index extension.  Under every AND, a leaf tagged with a compound
 * index (an anchor) tries to claim the index's later key fields, in key
 * order, for untagged sibling leaves on the matching field that list the
 * index among their later-field indexes.  Extension of one anchor stops at
 * the first key field no leaf can take.
 */
module Compound {
  import opened Expression
  import opened Memo

  /**
   * Which catalog entry the multikey test consults before an anchor is
   * extended.  AsWritten: the entry at the anchor's position in the list of
   * anchors.  AnchorIndex: the anchor's own index.
   */
  datatype MultikeyRule = AsWritten | AnchorIndex

  /** A compound index has more than one key field. */
  predicate IsCompound(indices: seq<IndexEntry>, x: nat)
    requires x < |indices|
  {
    |indices[x].fields| > 1
  }

  /** Every tag names a catalog entry. */
  predicate InCatalog(tags: map<Path, IndexTag>, n: nat) {
    forall p | p in tags :: tags[p].index < n
  }

  /** `p` is child `p[|at|]` of `at`. */
  predicate ChildOf(at: Path, p: Path) {
    |p| == |at| + 1 && p[..|at|] == at
  }

  /** Positions, in order, of the first `k` children that are leaves tagged with a compound index. */
  function Anchors(e: Expr, at: Path, tags: map<Path, IndexTag>, indices: seq<IndexEntry>, k: nat): (r: seq<nat>)
    requires k <= |e.children| && InCatalog(tags, |indices|)
    ensures forall j | 0 <= j < |r| :: r[j] < k && e.children[r[j]].kind.Leaf? && at + [r[j]] in tags
  {
    if k == 0 then []
    else if e.children[k - 1].kind.Leaf? && at + [k - 1] in tags && IsCompound(indices, tags[at + [k - 1]].index) then
      Anchors(e, at, tags, indices, k - 1) + [k - 1]
    else Anchors(e, at, tags, indices, k - 1)
  }

  /** Positions, in order, of the first `k` children that are untagged leaves. */
  function Unassigned(e: Expr, at: Path, tags: map<Path, IndexTag>, k: nat): (r: seq<nat>)
    requires k <= |e.children|
    ensures forall j | 0 <= j < |r| :: r[j] < k && e.children[r[j]].kind.Leaf? && at + [r[j]] !in tags
  {
    if k == 0 then []
    else if e.children[k - 1].kind.Leaf? && at + [k - 1] !in tags then Unassigned(e, at, tags, k - 1) + [k - 1]
    else Unassigned(e, at, tags, k - 1)
  }

  /**
   * Step one's anchors: exactly the leaf children tagged with an index of more
   * than one key field, in child order.
   */
  lemma {:induction false} AnchorsMeans(e: Expr, at: Path, tags: map<Path, IndexTag>, indices: seq<IndexEntry>, k: nat)
    requires k <= |e.children| && InCatalog(tags, |indices|)
    ensures forall c | 0 <= c < k :: c in Anchors(e, at, tags, indices, k) <==>
      e.children[c].kind.Leaf? && at + [c] in tags && IsCompound(indices, tags[at + [c]].index)
    ensures forall j, j' | 0 <= j < j' < |Anchors(e, at, tags, indices, k)| ::
      Anchors(e, at, tags, indices, k)[j] < Anchors(e, at, tags, indices, k)[j']
    decreases k
  {
    if k > 0 {
      var r := Anchors(e, at, tags, indices, k - 1);
      AnchorsMeans(e, at, tags, indices, k - 1);
      forall c | 0 <= c < k - 1 ensures c in Anchors(e, at, tags, indices, k) <==> c in r {
      }
    }
  }

  /** Step one's candidates: exactly the untagged leaf children, in child order. */
  lemma {:induction false} UnassignedMeans(e: Expr, at: Path, tags: map<Path, IndexTag>, k: nat)
    requires k <= |e.children|
    ensures forall c | 0 <= c < k :: c in Unassigned(e, at, tags, k) <==> e.children[c].kind.Leaf? && at + [c] !in tags
    ensures forall j, j' | 0 <= j < j' < |Unassigned(e, at, tags, k)| ::
      Unassigned(e, at, tags, k)[j] < Unassigned(e, at, tags, k)[j']
    decreases k
  {
    if k > 0 {
      var r := Unassigned(e, at, tags, k - 1);
      UnassignedMeans(e, at, tags, k - 1);
      forall c | 0 <= c < k - 1 ensures c in Unassigned(e, at, tags, k) <==> c in r {
      }
    }
  }

  /** Whether the anchor at position `i` of the anchor list, tagged with index `x`, is passed over. */
  predicate Skipped(rule: MultikeyRule, indices: seq<IndexEntry>, i: nat, x: nat) {
    match rule
    case AsWritten => i < |indices| && indices[i].multikey
    case AnchorIndex => x < |indices| && indices[x].multikey
  }

  /**
   * Child `c` can take key field `field` of index `x`: an untagged leaf whose
   * path under the current prefix is that field and which lists `x` among its
   * later-field indexes.
   */
  predicate Eligible(e: Expr, at: Path, prefix: string, c: nat, field: string, x: nat,
                     tags: map<Path, IndexTag>, rel: map<Path, RelevantTag>)
    requires c < |e.children|
  {
    e.children[c].kind.Leaf? && prefix + e.children[c].kind.path == field &&
    at + [c] !in tags && x in NotFirstOf(rel, at + [c])
  }

  /** The first candidate, from slot `j` on, that can take `field`. */
  function FirstMatch(e: Expr, at: Path, prefix: string, cands: seq<nat>, field: string, x: nat,
                      tags: map<Path, IndexTag>, rel: map<Path, RelevantTag>, j: nat): (r: Option<nat>)
    requires forall m | 0 <= m < |cands| :: cands[m] < |e.children|
    ensures r.Some? ==> j <= r.value < |cands| && Eligible(e, at, prefix, cands[r.value], field, x, tags, rel)
    ensures forall m | j <= m < |cands| && (r.None? || m < r.value) :: !Eligible(e, at, prefix, cands[m], field, x, tags, rel)
    decreases |cands| - j
  {
    if j >= |cands| then None
    else if Eligible(e, at, prefix, cands[j], field, x, tags, rel) then Some(j)
    else FirstMatch(e, at, prefix, cands, field, x, tags, rel, j + 1)
  }

  /** A tag the extension may add: key field `t.pos` of index `x` on an eligible child of `at`. */
  predicate Extension(e: Expr, at: Path, prefix: string, cands: seq<nat>, x: nat, fields: seq<string>,
                      rel: map<Path, RelevantTag>, p: Path, t: IndexTag)
  {
    t.index == x && 1 <= t.pos < |fields| && ChildOf(at, p) && p[|at|] in cands && p[|at|] < |e.children| &&
    e.children[p[|at|]].kind.Leaf? && prefix + e.children[p[|at|]].kind.path == fields[t.pos] &&
    x in NotFirstOf(rel, p)
  }

  /**
   * Extends the anchor with index `x` (key fields `fields`) from key position
   * `pos` on: each position goes to the first candidate that can take it, and
   * extension stops at the first position none can.
   */
  function ExtendFrom(e: Expr, at: Path, prefix: string, cands: seq<nat>, x: nat, fields: seq<string>, pos: nat,
                      tags: map<Path, IndexTag>, rel: map<Path, RelevantTag>): (r: map<Path, IndexTag>)
    requires forall m | 0 <= m < |cands| :: cands[m] < |e.children|
    requires 1 <= pos
    ensures SubMap(tags, r)
    decreases |fields| - pos
  {
    if pos >= |fields| then tags
    else
      match FirstMatch(e, at, prefix, cands, fields[pos], x, tags, rel, 0)
      case None => tags
      case Some(j) =>
        var p := at + [cands[j]];
        assert p[..|at|] == at && p[|at|] == cands[j];
        ExtendFrom(e, at, prefix, cands, x, fields, pos + 1, tags[p := IndexTag(x, pos)], rel)
  }

  /** Every tag the extension adds is key field `pos` or later of index `x` on an eligible child. */
  lemma {:induction false} ExtendFromTags(e: Expr, at: Path, prefix: string, cands: seq<nat>, x: nat, fields: seq<string>,
                                          pos: nat, tags: map<Path, IndexTag>, rel: map<Path, RelevantTag>)
    requires forall m | 0 <= m < |cands| :: cands[m] < |e.children|
    requires 1 <= pos
    ensures forall p | p in ExtendFrom(e, at, prefix, cands, x, fields, pos, tags, rel) && p !in tags ::
      pos <= ExtendFrom(e, at, prefix, cands, x, fields, pos, tags, rel)[p].pos &&
      Extension(e, at, prefix, cands, x, fields, rel, p, ExtendFrom(e, at, prefix, cands, x, fields, pos, tags, rel)[p])
    decreases |fields| - pos
  {
    if pos < |fields| {
      match FirstMatch(e, at, prefix, cands, fields[pos], x, tags, rel, 0)
      case None =>
      case Some(j) =>
        var p0 := at + [cands[j]];
        assert p0[..|at|] == at && p0[|at|] == cands[j];
        ExtendFromTags(e, at, prefix, cands, x, fields, pos + 1, tags[p0 := IndexTag(x, pos)], rel);
    }
  }

  /**
   * Processes the anchors from slot `i` on: each one that is not passed over
   * is extended with the key fields of its index.
   */
  function AndStep(e: Expr, at: Path, prefix: string, anchors: seq<nat>, cands: seq<nat>, i: nat,
                   tags: map<Path, IndexTag>, rel: map<Path, RelevantTag>, indices: seq<IndexEntry>,
                   rule: MultikeyRule): (r: map<Path, IndexTag>)
    requires forall m | 0 <= m < |cands| :: cands[m] < |e.children|
    requires forall m | 0 <= m < |anchors| :: at + [anchors[m]] in tags
    requires InCatalog(tags, |indices|)
    ensures SubMap(tags, r) && InCatalog(r, |indices|)
    decreases |anchors| - i
  {
    if i >= |anchors| then tags
    else
      var x := tags[at + [anchors[i]]].index;
      if Skipped(rule, indices, i, x) then AndStep(e, at, prefix, anchors, cands, i + 1, tags, rel, indices, rule)
      else
        var t := ExtendFrom(e, at, prefix, cands, x, indices[x].fields, 1, tags, rel);
        ExtendFromTags(e, at, prefix, cands, x, indices[x].fields, 1, tags, rel);
        AndStep(e, at, prefix, anchors, cands, i + 1, t, rel, indices, rule)
  }

  /** What the compound step does at node `e`: only an AND extends its anchors. */
  function CompoundAt(e: Expr, at: Path, prefix: string, tags: map<Path, IndexTag>, rel: map<Path, RelevantTag>,
                      indices: seq<IndexEntry>, rule: MultikeyRule): (r: map<Path, IndexTag>)
    requires InCatalog(tags, |indices|)
    ensures SubMap(tags, r) && InCatalog(r, |indices|)
  {
    if !e.kind.And? then tags
    else
      var n := |e.children|;
      AndStep(e, at, prefix, Anchors(e, at, tags, indices, n), Unassigned(e, at, tags, n), 0, tags, rel, indices, rule)
  }

  /**
   * The tags after the compound pass over subtree `e` at `at`: the node's own
   * step first, then each child in order, under the prefix the node passes on.
   */
  function Extended(e: Expr, at: Path, prefix: string, tags: map<Path, IndexTag>, rel: map<Path, RelevantTag>,
                    indices: seq<IndexEntry>, rule: MultikeyRule): (r: map<Path, IndexTag>)
    requires InCatalog(tags, |indices|)
    ensures SubMap(tags, r) && InCatalog(r, |indices|)
    decreases e, |e.children| + 1
  {
    var t := CompoundAt(e, at, prefix, tags, rel, indices, rule);
    ExtendedKids(e, at, Grow(e, prefix), |e.children|, t, rel, indices, rule)
  }

  /** The compound pass over the first `k` children of `e`, in order. */
  function ExtendedKids(e: Expr, at: Path, prefix: string, k: nat, tags: map<Path, IndexTag>, rel: map<Path, RelevantTag>,
                        indices: seq<IndexEntry>, rule: MultikeyRule): (r: map<Path, IndexTag>)
    requires k <= |e.children| && InCatalog(tags, |indices|)
    ensures SubMap(tags, r) && InCatalog(r, |indices|)
    decreases e, k
  {
    if k == 0 then tags
    else
      var t := ExtendedKids(e, at, prefix, k - 1, tags, rel, indices, rule);
      Extended(e.children[k - 1], at + [k - 1], prefix, t, rel, indices, rule)
  }

  /** Every tag `after` adds to `before` is a later key field on a child of `at` that lists its index among its later-field indexes. */
  predicate AddsOnChildren(before: map<Path, IndexTag>, after: map<Path, IndexTag>, at: Path, rel: map<Path, RelevantTag>) {
    forall p | p in after && p !in before :: ChildOf(at, p) && 1 <= after[p].pos && after[p].index in NotFirstOf(rel, p)
  }

  /** Every tag `after` adds to `before` is a later key field below `at` on a node that lists its index among its later-field indexes. */
  predicate AddsBelow(before: map<Path, IndexTag>, after: map<Path, IndexTag>, at: Path, rel: map<Path, RelevantTag>) {
    forall p | p in after && p !in before :: StrictlyBelow(at, p) && 1 <= after[p].pos && after[p].index in NotFirstOf(rel, p)
  }

  lemma AddsOnChildrenTrans(a: map<Path, IndexTag>, b: map<Path, IndexTag>, c: map<Path, IndexTag>, at: Path, rel: map<Path, RelevantTag>)
    requires SubMap(b, c) && AddsOnChildren(a, b, at, rel) && AddsOnChildren(b, c, at, rel)
    ensures AddsOnChildren(a, c, at, rel)
  {
    forall p | p in c && p !in a ensures ChildOf(at, p) && 1 <= c[p].pos && c[p].index in NotFirstOf(rel, p) {
      if p in b {
        assert c[p] == b[p];
      }
    }
  }

  lemma AddsBelowTrans(a: map<Path, IndexTag>, b: map<Path, IndexTag>, c: map<Path, IndexTag>, at: Path, rel: map<Path, RelevantTag>)
    requires SubMap(b, c) && AddsBelow(a, b, at, rel) && AddsBelow(b, c, at, rel)
    ensures AddsBelow(a, c, at, rel)
  {
    forall p | p in c && p !in a ensures StrictlyBelow(at, p) && 1 <= c[p].pos && c[p].index in NotFirstOf(rel, p) {
      if p in b {
        assert c[p] == b[p];
      }
    }
  }

  /** The anchors' extensions tag only children of the AND, with later key fields their relevance allows. */
  lemma {:induction false} AndStepTags(e: Expr, at: Path, prefix: string, anchors: seq<nat>, cands: seq<nat>, i: nat,
                                       tags: map<Path, IndexTag>, rel: map<Path, RelevantTag>, indices: seq<IndexEntry>,
                                       rule: MultikeyRule)
    requires forall m | 0 <= m < |cands| :: cands[m] < |e.children|
    requires forall m | 0 <= m < |anchors| :: at + [anchors[m]] in tags
    requires InCatalog(tags, |indices|)
    ensures AddsOnChildren(tags, AndStep(e, at, prefix, anchors, cands, i, tags, rel, indices, rule), at, rel)
    decreases |anchors| - i
  {
    if i < |anchors| {
      var x := tags[at + [anchors[i]]].index;
      if Skipped(rule, indices, i, x) {
        AndStepTags(e, at, prefix, anchors, cands, i + 1, tags, rel, indices, rule);
      } else {
        var t := ExtendFrom(e, at, prefix, cands, x, indices[x].fields, 1, tags, rel);
        ExtendFromTags(e, at, prefix, cands, x, indices[x].fields, 1, tags, rel);
        assert AddsOnChildren(tags, t, at, rel);
        AndStepTags(e, at, prefix, anchors, cands, i + 1, t, rel, indices, rule);
        AddsOnChildrenTrans(tags, t, AndStep(e, at, prefix, anchors, cands, i + 1, t, rel, indices, rule), at, rel);
      }
    }
  }

  /**
   * No overwrite and locality: the compound pass keeps every existing tag
   * and adds only later key fields, strictly below the node it starts at, on
   * nodes whose relevance lists that index among their later-field indexes.
   */
  lemma {:induction false} ExtendedTags(e: Expr, at: Path, prefix: string, tags: map<Path, IndexTag>, rel: map<Path, RelevantTag>,
                                        indices: seq<IndexEntry>, rule: MultikeyRule)
    requires InCatalog(tags, |indices|)
    ensures AddsBelow(tags, Extended(e, at, prefix, tags, rel, indices, rule), at, rel)
    decreases e, |e.children| + 1
  {
    var t := CompoundAt(e, at, prefix, tags, rel, indices, rule);
    if e.kind.And? {
      var n := |e.children|;
      AndStepTags(e, at, prefix, Anchors(e, at, tags, indices, n), Unassigned(e, at, tags, n), 0, tags, rel, indices, rule);
    }
    assert AddsBelow(tags, t, at, rel);
    ExtendedKidsTags(e, at, Grow(e, prefix), |e.children|, t, rel, indices, rule);
    AddsBelowTrans(tags, t, ExtendedKids(e, at, Grow(e, prefix), |e.children|, t, rel, indices, rule), at, rel);
  }

  lemma {:induction false} ExtendedKidsTags(e: Expr, at: Path, prefix: string, k: nat, tags: map<Path, IndexTag>,
                                            rel: map<Path, RelevantTag>, indices: seq<IndexEntry>, rule: MultikeyRule)
    requires k <= |e.children| && InCatalog(tags, |indices|)
    ensures AddsBelow(tags, ExtendedKids(e, at, prefix, k, tags, rel, indices, rule), at, rel)
    decreases e, k
  {
    if k > 0 {
      var t := ExtendedKids(e, at, prefix, k - 1, tags, rel, indices, rule);
      var r := Extended(e.children[k - 1], at + [k - 1], prefix, t, rel, indices, rule);
      ExtendedKidsTags(e, at, prefix, k - 1, tags, rel, indices, rule);
      ExtendedTags(e.children[k - 1], at + [k - 1], prefix, t, rel, indices, rule);
      forall p | p in r && p !in t ensures StrictlyBelow(at, p) {
        BelowParent(at, k - 1, p);
      }
      AddsBelowTrans(tags, t, r, at, rel);
    }
  }

  /** Tag `t` names key field `t.pos` of a catalog index, and that field is `name`. */
  predicate KeyFieldIs(indices: seq<IndexEntry>, t: IndexTag, name: string) {
    t.index < |indices| && t.pos < |indices[t.index].fields| && indices[t.index].fields[t.pos] == name
  }

  /**
   * Every tag `after` adds to `before` lies strictly below `at` on a leaf whose
   * full dotted path, read from `e` at `at` under `prefix`, is the key field
   * the tag names.
   */
  predicate AddsOnField(before: map<Path, IndexTag>, after: map<Path, IndexTag>, e: Expr, at: Path, prefix: string,
                        indices: seq<IndexEntry>) {
    forall p | p in after && p !in before ::
      StrictlyBelow(at, p) && FullPath(e, p[|at|..], prefix).Some? && KeyFieldIs(indices, after[p], FullPath(e, p[|at|..], prefix).value)
  }

  lemma AddsOnFieldTrans(a: map<Path, IndexTag>, b: map<Path, IndexTag>, c: map<Path, IndexTag>, e: Expr, at: Path,
                         prefix: string, indices: seq<IndexEntry>)
    requires SubMap(b, c) && AddsOnField(a, b, e, at, prefix, indices) && AddsOnField(b, c, e, at, prefix, indices)
    ensures AddsOnField(a, c, e, at, prefix, indices)
  {
    forall p | p in c && p !in a
      ensures StrictlyBelow(at, p) && FullPath(e, p[|at|..], prefix).Some? && KeyFieldIs(indices, c[p], FullPath(e, p[|at|..], prefix).value)
    {
      if p in b {
        assert c[p] == b[p];
      }
    }
  }

  /** Below a node that is not an array context, a leaf child's full path is the prefix and the leaf's own path. */
  lemma ChildFullPath(e: Expr, at: Path, p: Path, prefix: string)
    requires !e.kind.ArrayCtx? && ChildOf(at, p) && p[|at|] < |e.children| && e.children[p[|at|]].kind.Leaf?
    ensures FullPath(e, p[|at|..], prefix) == Some(prefix + e.children[p[|at|]].kind.path)
  {
    assert p[|at|..] == [p[|at|]];
    assert [p[|at|]][1..] == [];
  }

  /** The anchors' extensions tag each leaf with the key field its full dotted path names. */
  lemma {:induction false} AndStepFields(e: Expr, at: Path, prefix: string, anchors: seq<nat>, cands: seq<nat>, i: nat,
                                         tags: map<Path, IndexTag>, rel: map<Path, RelevantTag>, indices: seq<IndexEntry>,
                                         rule: MultikeyRule)
    requires e.kind.And?
    requires forall m | 0 <= m < |cands| :: cands[m] < |e.children|
    requires forall m | 0 <= m < |anchors| :: at + [anchors[m]] in tags
    requires InCatalog(tags, |indices|)
    ensures AddsOnField(tags, AndStep(e, at, prefix, anchors, cands, i, tags, rel, indices, rule), e, at, prefix, indices)
    decreases |anchors| - i
  {
    if i < |anchors| {
      var x := tags[at + [anchors[i]]].index;
      if Skipped(rule, indices, i, x) {
        AndStepFields(e, at, prefix, anchors, cands, i + 1, tags, rel, indices, rule);
      } else {
        var fields := indices[x].fields;
        var t := ExtendFrom(e, at, prefix, cands, x, fields, 1, tags, rel);
        ExtendFromTags(e, at, prefix, cands, x, fields, 1, tags, rel);
        forall p | p in t && p !in tags
          ensures StrictlyBelow(at, p) && FullPath(e, p[|at|..], prefix).Some? && KeyFieldIs(indices, t[p], FullPath(e, p[|at|..], prefix).value)
        {
          assert Extension(e, at, prefix, cands, x, fields, rel, p, t[p]);
          ChildFullPath(e, at, p, prefix);
        }
        AndStepFields(e, at, prefix, anchors, cands, i + 1, t, rel, indices, rule);
        AddsOnFieldTrans(tags, t, AndStep(e, at, prefix, anchors, cands, i + 1, t, rel, indices, rule), e, at, prefix, indices);
      }
    }
  }

  /**
   * Field names carry the array-context prefix: started at the root with an
   * empty prefix, every tag the compound pass adds sits on a leaf whose full
   * dotted path (the paths of the array contexts above it, each followed by a
   * dot, then its own path) is the key field of the tag's index at the tag's
   * position.
   */
  lemma {:induction false} ExtendedFields(e: Expr, at: Path, prefix: string, tags: map<Path, IndexTag>, rel: map<Path, RelevantTag>,
                                          indices: seq<IndexEntry>, rule: MultikeyRule)
    requires InCatalog(tags, |indices|)
    ensures AddsOnField(tags, Extended(e, at, prefix, tags, rel, indices, rule), e, at, prefix, indices)
    decreases e, |e.children| + 1
  {
    var t := CompoundAt(e, at, prefix, tags, rel, indices, rule);
    if e.kind.And? {
      var n := |e.children|;
      AndStepFields(e, at, prefix, Anchors(e, at, tags, indices, n), Unassigned(e, at, tags, n), 0, tags, rel, indices, rule);
    }
    assert AddsOnField(tags, t, e, at, prefix, indices);
    ExtendedKidsFields(e, at, prefix, |e.children|, t, rel, indices, rule);
    AddsOnFieldTrans(tags, t, ExtendedKids(e, at, Grow(e, prefix), |e.children|, t, rel, indices, rule), e, at, prefix, indices);
  }

  /** The children's passes, run under the prefix `e` passes on, keep the full-path property as seen from `e`. */
  lemma {:induction false} ExtendedKidsFields(e: Expr, at: Path, prefix: string, k: nat, tags: map<Path, IndexTag>,
                                              rel: map<Path, RelevantTag>, indices: seq<IndexEntry>, rule: MultikeyRule)
    requires k <= |e.children| && InCatalog(tags, |indices|)
    ensures AddsOnField(tags, ExtendedKids(e, at, Grow(e, prefix), k, tags, rel, indices, rule), e, at, prefix, indices)
    decreases e, k
  {
    if k > 0 {
      var t := ExtendedKids(e, at, Grow(e, prefix), k - 1, tags, rel, indices, rule);
      var r := Extended(e.children[k - 1], at + [k - 1], Grow(e, prefix), t, rel, indices, rule);
      ExtendedKidsFields(e, at, prefix, k - 1, tags, rel, indices, rule);
      ExtendedFields(e.children[k - 1], at + [k - 1], Grow(e, prefix), t, rel, indices, rule);
      forall p | p in r && p !in t
        ensures StrictlyBelow(at, p) && FullPath(e, p[|at|..], prefix).Some? && KeyFieldIs(indices, r[p], FullPath(e, p[|at|..], prefix).value)
      {
        BelowParent(at, k - 1, p);
        var rp := p[|at|..];
        assert rp[0] == k - 1;
        assert rp[1..] == p[|at + [k - 1]|..];
        assert FullPath(e, rp, prefix) == FullPath(e.children[k - 1], p[|at + [k - 1]|..], Grow(e, prefix));
      }
      AddsOnFieldTrans(tags, t, r, e, at, prefix, indices);
    }
  }

  /** The leaves ExtendFrom hands positions `pos`, `pos + 1`, ... to, in that order. */
  function Picked(e: Expr, at: Path, prefix: string, cands: seq<nat>, x: nat, fields: seq<string>, pos: nat,
                  tags: map<Path, IndexTag>, rel: map<Path, RelevantTag>): seq<Path>
    requires forall m | 0 <= m < |cands| :: cands[m] < |e.children|
    decreases |fields| - pos
  {
    if pos >= |fields| then []
    else
      match FirstMatch(e, at, prefix, cands, fields[pos], x, tags, rel, 0)
      case None => []
      case Some(j) =>
        var p := at + [cands[j]];
        [p] + Picked(e, at, prefix, cands, x, fields, pos + 1, tags[p := IndexTag(x, pos)], rel)
  }

  /**
   * Contiguity: the leaves an anchor's extension picks take the key positions
   * `pos`, `pos + 1`, ... in order.
   */
  lemma {:induction false} PickedInOrder(e: Expr, at: Path, prefix: string, cands: seq<nat>, x: nat, fields: seq<string>,
                                 pos: nat, tags: map<Path, IndexTag>, rel: map<Path, RelevantTag>)
    requires forall m | 0 <= m < |cands| :: cands[m] < |e.children|
    requires 1 <= pos
    ensures forall t | 0 <= t < |Picked(e, at, prefix, cands, x, fields, pos, tags, rel)| ::
      Picked(e, at, prefix, cands, x, fields, pos, tags, rel)[t] !in tags && Picked(e, at, prefix, cands, x, fields, pos, tags, rel)[t] in ExtendFrom(e, at, prefix, cands, x, fields, pos, tags, rel) &&
      ExtendFrom(e, at, prefix, cands, x, fields, pos, tags, rel)[Picked(e, at, prefix, cands, x, fields, pos, tags, rel)[t]] == IndexTag(x, pos + t)
    decreases |fields| - pos
  {
    if pos < |fields| {
      match FirstMatch(e, at, prefix, cands, fields[pos], x, tags, rel, 0)
      case None =>
      case Some(j) =>
        var p0 := at + [cands[j]];
        var t := tags[p0 := IndexTag(x, pos)];
        PickedInOrder(e, at, prefix, cands, x, fields, pos + 1, t, rel);
        var r := ExtendFrom(e, at, prefix, cands, x, fields, pos + 1, t, rel);
        var rest := Picked(e, at, prefix, cands, x, fields, pos + 1, t, rel);
        assert SubMap(t, r);
        forall k | 0 <= k < 1 + |rest|
          ensures ([p0] + rest)[k] !in tags && ([p0] + rest)[k] in r && r[([p0] + rest)[k]] == IndexTag(x, pos + k)
        {
          if k > 0 {
            assert ([p0] + rest)[k] == rest[k - 1];
          }
        }
    }
  }

  /** Contiguity: the extension adds no tag other than on the leaves it picks. */
  lemma {:induction false} OnlyPickedTagged(e: Expr, at: Path, prefix: string, cands: seq<nat>, x: nat, fields: seq<string>,
                                 pos: nat, tags: map<Path, IndexTag>, rel: map<Path, RelevantTag>)
    requires forall m | 0 <= m < |cands| :: cands[m] < |e.children|
    requires 1 <= pos
    ensures forall p | p in ExtendFrom(e, at, prefix, cands, x, fields, pos, tags, rel) && p !in tags :: p in Picked(e, at, prefix, cands, x, fields, pos, tags, rel)
    decreases |fields| - pos
  {
    if pos < |fields| {
      match FirstMatch(e, at, prefix, cands, fields[pos], x, tags, rel, 0)
      case None =>
      case Some(j) =>
        var p0 := at + [cands[j]];
        var t := tags[p0 := IndexTag(x, pos)];
        OnlyPickedTagged(e, at, prefix, cands, x, fields, pos + 1, t, rel);
    }
  }

  /** The extension stops at a gap: when it ends before the last key field, no candidate can take the next one. */
  lemma {:induction false} StopsAtGap(e: Expr, at: Path, prefix: string, cands: seq<nat>, x: nat, fields: seq<string>,
                                 pos: nat, tags: map<Path, IndexTag>, rel: map<Path, RelevantTag>)
    requires forall m | 0 <= m < |cands| :: cands[m] < |e.children|
    requires 1 <= pos
    ensures pos + |Picked(e, at, prefix, cands, x, fields, pos, tags, rel)| < |fields| ==>
      forall m | 0 <= m < |cands| :: !Eligible(e, at, prefix, cands[m], fields[pos + |Picked(e, at, prefix, cands, x, fields, pos, tags, rel)|], x, ExtendFrom(e, at, prefix, cands, x, fields, pos, tags, rel), rel)
    decreases |fields| - pos
  {
    if pos < |fields| {
      match FirstMatch(e, at, prefix, cands, fields[pos], x, tags, rel, 0)
      case None =>
      case Some(j) =>
        var p0 := at + [cands[j]];
        var t := tags[p0 := IndexTag(x, pos)];
        StopsAtGap(e, at, prefix, cands, x, fields, pos + 1, t, rel);
    }
  }

  /** Index `x` is in the catalog and multikey. */
  predicate Multikey(indices: seq<IndexEntry>, x: nat) {
    x < |indices| && indices[x].multikey
  }

  /** No tag `after` adds to `before` names a multikey index. */
  predicate AddsNoMultikey(before: map<Path, IndexTag>, after: map<Path, IndexTag>, indices: seq<IndexEntry>) {
    forall p | p in after && p !in before :: !Multikey(indices, after[p].index)
  }

  lemma AddsNoMultikeyTrans(a: map<Path, IndexTag>, b: map<Path, IndexTag>, c: map<Path, IndexTag>, indices: seq<IndexEntry>)
    requires SubMap(b, c) && AddsNoMultikey(a, b, indices) && AddsNoMultikey(b, c, indices)
    ensures AddsNoMultikey(a, c, indices)
  {
    forall p | p in c && p !in a ensures !Multikey(indices, c[p].index) {
      if p in b {
        assert c[p] == b[p];
      }
    }
  }

  /** With the test on the anchor's own index, no compound tag names a multikey index. */
  lemma {:induction false} AndStepNoMultikey(e: Expr, at: Path, prefix: string, anchors: seq<nat>, cands: seq<nat>, i: nat,
                                             tags: map<Path, IndexTag>, rel: map<Path, RelevantTag>, indices: seq<IndexEntry>)
    requires forall m | 0 <= m < |cands| :: cands[m] < |e.children|
    requires forall m | 0 <= m < |anchors| :: at + [anchors[m]] in tags
    requires InCatalog(tags, |indices|)
    ensures AddsNoMultikey(tags, AndStep(e, at, prefix, anchors, cands, i, tags, rel, indices, AnchorIndex), indices)
    decreases |anchors| - i
  {
    if i < |anchors| {
      var x := tags[at + [anchors[i]]].index;
      if Skipped(AnchorIndex, indices, i, x) {
        AndStepNoMultikey(e, at, prefix, anchors, cands, i + 1, tags, rel, indices);
      } else {
        var t := ExtendFrom(e, at, prefix, cands, x, indices[x].fields, 1, tags, rel);
        ExtendFromTags(e, at, prefix, cands, x, indices[x].fields, 1, tags, rel);
        assert AddsNoMultikey(tags, t, indices);
        AndStepNoMultikey(e, at, prefix, anchors, cands, i + 1, t, rel, indices);
        AddsNoMultikeyTrans(tags, t, AndStep(e, at, prefix, anchors, cands, i + 1, t, rel, indices, AnchorIndex), indices);
      }
    }
  }

  /** With the test on the anchor's own index, the whole pass never compounds a multikey index. */
  lemma {:induction false} NoMultikeyCompound(e: Expr, at: Path, prefix: string, tags: map<Path, IndexTag>,
                                              rel: map<Path, RelevantTag>, indices: seq<IndexEntry>)
    requires InCatalog(tags, |indices|)
    ensures AddsNoMultikey(tags, Extended(e, at, prefix, tags, rel, indices, AnchorIndex), indices)
    decreases e, |e.children| + 1
  {
    var t := CompoundAt(e, at, prefix, tags, rel, indices, AnchorIndex);
    if e.kind.And? {
      var n := |e.children|;
      AndStepNoMultikey(e, at, prefix, Anchors(e, at, tags, indices, n), Unassigned(e, at, tags, n), 0, tags, rel, indices);
    }
    KidsNoMultikeyCompound(e, at, Grow(e, prefix), |e.children|, t, rel, indices);
    AddsNoMultikeyTrans(tags, t, ExtendedKids(e, at, Grow(e, prefix), |e.children|, t, rel, indices, AnchorIndex), indices);
  }

  lemma {:induction false} KidsNoMultikeyCompound(e: Expr, at: Path, prefix: string, k: nat, tags: map<Path, IndexTag>,
                                                  rel: map<Path, RelevantTag>, indices: seq<IndexEntry>)
    requires k <= |e.children| && InCatalog(tags, |indices|)
    ensures AddsNoMultikey(tags, ExtendedKids(e, at, prefix, k, tags, rel, indices, AnchorIndex), indices)
    decreases e, k
  {
    if k > 0 {
      var t := ExtendedKids(e, at, prefix, k - 1, tags, rel, indices, AnchorIndex);
      KidsNoMultikeyCompound(e, at, prefix, k - 1, tags, rel, indices);
      NoMultikeyCompound(e.children[k - 1], at + [k - 1], prefix, t, rel, indices);
      AddsNoMultikeyTrans(tags, t, Extended(e.children[k - 1], at + [k - 1], prefix, t, rel, indices, AnchorIndex), indices);
    }
  }

  /*
   * The multikey test as written reads the catalog entry at the anchor's
   * position in the anchor list, not the anchor's own index. The instance
   * below: a single-field index 0 and a multikey two-field index 1 on
   * `{b, c}`, and an AND of leaves `b` (tagged with index 1) and `c` (which
   * lists index 1 among its later-field indexes).
   */
  const CxIndices := [IndexEntry(["a"], false), IndexEntry(["b", "c"], true)]
  const CxAnd := Node(And, [Node(Leaf("b", false), []), Node(Leaf("c", false), [])])
  const CxTags := map[[0] := IndexTag(1, 0)]
  const CxRel := map[[1] := RelevantTag([], [1])]

  /** The pass over a leaf changes nothing. */
  lemma LeafUnchanged(e: Expr, at: Path, prefix: string, tags: map<Path, IndexTag>, rel: map<Path, RelevantTag>,
                      indices: seq<IndexEntry>, rule: MultikeyRule)
    requires e.kind.Leaf? && e.children == [] && InCatalog(tags, |indices|)
    ensures Extended(e, at, prefix, tags, rel, indices, rule) == tags
  {
  }

  lemma CxLists()
    ensures Anchors(CxAnd, [], CxTags, CxIndices, 2) == [0]
    ensures Unassigned(CxAnd, [], CxTags, 2) == [1]
  {
    var p0: Path, p1: Path := [] + [0], [] + [1];
    assert p0 == [0] && p1 == [1];
    assert IsCompound(CxIndices, 1);
    assert Anchors(CxAnd, [], CxTags, CxIndices, 1) == [0];
    assert Unassigned(CxAnd, [], CxTags, 1) == [];
  }

  lemma CxAsWrittenStep()
    ensures InCatalog(CxTags, |CxIndices|)
    ensures CompoundAt(CxAnd, [], "", CxTags, CxRel, CxIndices, AsWritten) == CxTags[[1] := IndexTag(1, 1)]
  {
    CxLists();
    var p1: Path := [] + [1];
    assert p1 == [1];
    assert Eligible(CxAnd, [], "", 1, "c", 1, CxTags, CxRel);
    assert FirstMatch(CxAnd, [], "", [1], "c", 1, CxTags, CxRel, 0) == Some(0);
    assert ExtendFrom(CxAnd, [], "", [1], 1, ["b", "c"], 1, CxTags, CxRel) == CxTags[[1] := IndexTag(1, 1)];
  }

  lemma CxAnchorIndexStep()
    ensures InCatalog(CxTags, |CxIndices|)
    ensures CompoundAt(CxAnd, [], "", CxTags, CxRel, CxIndices, AnchorIndex) == CxTags
  {
    CxLists();
    var p0: Path := [] + [0];
    assert p0 == [0];
    assert Skipped(AnchorIndex, CxIndices, 0, CxTags[p0].index);
    assert AndStep(CxAnd, [], "", [0], [1], 1, CxTags, CxRel, CxIndices, AnchorIndex) == CxTags;
  }

  /**
   * As written, the pass compounds leaf `c` onto the multikey index 1; with
   * the test on the anchor's own index it leaves the tags as they are.
   */
  lemma AsWrittenCompoundsMultikey()
    ensures InCatalog(CxTags, |CxIndices|)
    ensures !AddsNoMultikey(CxTags, Extended(CxAnd, [], "", CxTags, CxRel, CxIndices, AsWritten), CxIndices)
    ensures Extended(CxAnd, [], "", CxTags, CxRel, CxIndices, AnchorIndex) == CxTags
  {
    CxAsWrittenStep();
    CxAnchorIndexStep();
    var t := CxTags[[1] := IndexTag(1, 1)];
    var r := Extended(CxAnd, [], "", CxTags, CxRel, CxIndices, AsWritten);
    assert SubMap(t, r);
    assert [1] in r && [1] !in CxTags && Multikey(CxIndices, r[[1]].index);
    var b := CxAnd.children[0];
    var c := CxAnd.children[1];
    LeafUnchanged(b, [0], "", CxTags, CxRel, CxIndices, AnchorIndex);
    LeafUnchanged(c, [1], "", CxTags, CxRel, CxIndices, AnchorIndex);
    assert ExtendedKids(CxAnd, [], "", 1, CxTags, CxRel, CxIndices, AnchorIndex) == CxTags;
  }
}
