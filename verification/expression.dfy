/**
 * The predicate tree the enumerator works on, the annotations attached to its
 * nodes, and the index catalog.  Tree nodes are addressed by their path: the
 * sequence of child positions taken from the root.
 */
module Expression {

  datatype Option<+T> = None | Some(value: T)

  /** Position of a node: child indices from the root. */
  type Path = seq<nat>

  /**
   * What the planner's indexability queries say about a node.
   * Leaf: can use an index on its own field (geoNear marks a GEO_NEAR predicate).
   * ArrayCtx: matches its children against the elements of an array field.
   * And, Or: the logical connectives.  Other: anything else.
   */
  datatype Kind =
    | Leaf(path: string, geoNear: bool)
    | ArrayCtx(path: string)
    | And
    | Or
    | Other

  datatype Expr = Node(kind: Kind, children: seq<Expr>)

  /** Input annotation: indexes usable with this leaf as leading field, or only as a later field. */
  datatype RelevantTag = RelevantTag(first: seq<nat>, notFirst: seq<nat>)

  /** Output annotation: the chosen index and the key-pattern position (0 for the leading field). */
  datatype IndexTag = IndexTag(index: nat, pos: nat)

  /** A catalog entry: key-pattern field names in order, and the multikey flag. */
  datatype IndexEntry = IndexEntry(fields: seq<string>, multikey: bool)

  /** `anc` is `p` or one of its ancestors. */
  predicate Below(anc: Path, p: Path) {
    |anc| <= |p| && p[..|anc|] == anc
  }

  /** `anc` is a proper ancestor of `p`. */
  predicate StrictlyBelow(anc: Path, p: Path) {
    |anc| < |p| && p[..|anc|] == anc
  }

  /** No key of `ids` is `at` or lies below it: the subtree at `at` has not been visited. */
  predicate Unvisited<V>(ids: map<Path, V>, at: Path) {
    forall p {:trigger Below(at, p)} | p in ids :: !Below(at, p)
  }

  /** A node strictly below child `i` of `at` is not below child `j` of `at` for `j != i`. */
  lemma BelowSiblings(at: Path, i: nat, j: nat, p: Path)
    requires i != j && Below(at + [i], p)
    ensures !Below(at + [j], p)
  {
    assert p[|at|] == (at + [i])[|at|];
  }

  lemma BelowParent(at: Path, i: nat, p: Path)
    requires Below(at + [i], p)
    ensures StrictlyBelow(at, p) && p[|at|] == i
  {
    assert p[..|at|] == p[..|at| + 1][..|at|];
    assert p[|at|] == p[..|at| + 1][|at|];
  }

  /** The prefix added to field names when passing through `e`: only array-context nodes with a path add one. */
  function Grow(e: Expr, prefix: string): string {
    if e.kind.ArrayCtx? && e.kind.path != "" then prefix + e.kind.path + "." else prefix
  }

  /**
   * The full dotted field name of the leaf at relative path `rp` below `e`:
   * the prefix in effect when `e` is reached, grown by every array context
   * passed on the way down, then the leaf's own path.  None when `rp` does not
   * lead to a leaf.
   */
  function FullPath(e: Expr, rp: Path, prefix: string): Option<string>
    decreases |rp|
  {
    if rp == [] then (if e.kind.Leaf? then Some(prefix + e.kind.path) else None)
    else if rp[0] < |e.children| then FullPath(e.children[rp[0]], rp[1..], Grow(e, prefix))
    else None
  }

  /** A node has no AND anywhere in its subtree (itself included). */
  predicate NoAnd(e: Expr) {
    !e.kind.And? && forall i | 0 <= i < |e.children| :: NoAnd(e.children[i])
  }

  /**
   * The tree shape the enumerator relies on: no AND sits below a node that the
   * memo builder does not descend into (a Leaf or an Other node).
   */
  predicate WellFormed(e: Expr) {
    if e.kind.Leaf? || e.kind.Other? then
      forall i | 0 <= i < |e.children| :: NoAnd(e.children[i])
    else
      forall i | 0 <= i < |e.children| :: WellFormed(e.children[i])
  }
}
