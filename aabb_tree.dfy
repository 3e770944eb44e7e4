/**
 * The dynamic AABB tree of src/logic/framework/bvh.js (`Node` and `AABBTree`).
 *
 * Nodes live in an arena `nodes`; a node reference is an index into it and
 * `null` is NIL. The two entries of a node's `children` array are the fields
 * `left` and `right`; a leaf has none, so both are NIL (reading `children[0]`
 * of a leaf gives `undefined` in the original, which `query` pushes and skips).
 * A node that the tree drops (a removed leaf, the parent it shared with its
 * sibling) stays in the arena but leaves the ghost set `Live` of the nodes
 * that belong to the tree.
 */
module AabbTree {
  import opened Aabb

  const NIL: int := -1

  datatype Node = Node(aabb: AABB, parent: int, left: int, right: int, height: int, piece: int)

  predicate IsLeaf(n: Node) { n.left == NIL }

  function MaxInt(a: int, b: int): int { if a < b then b else a }

  // ---------------------------------------------------------------------------
  // Shape of the arena
  // ---------------------------------------------------------------------------

  ghost predicate ChildLinked(ns: seq<Node>, live: set<int>, p: int, c: int) {
    c in live && 0 <= c < |ns| && ns[c].parent == p
  }

  ghost predicate ParentLinked(ns: seq<Node>, live: set<int>, c: int, p: int) {
    p in live && 0 <= p < |ns| && ns[p].left != NIL && (ns[p].left == c || ns[p].right == c)
  }

  /** The back-links of node `i` agree with its children and its parent. */
  ghost predicate LinkedAt(ns: seq<Node>, live: set<int>, root: int, i: int) {
    0 <= i < |ns| &&
    (ns[i].left == NIL <==> ns[i].right == NIL) &&
    (ns[i].left != NIL ==>
       ns[i].left != ns[i].right &&
       ChildLinked(ns, live, i, ns[i].left) && ChildLinked(ns, live, i, ns[i].right)) &&
    (ns[i].parent == NIL <==> i == root) &&
    (ns[i].parent != NIL ==> ParentLinked(ns, live, i, ns[i].parent))
  }

  /** Live indices address the arena and carry non-negative heights. */
  ghost predicate Bounded(ns: seq<Node>, live: set<int>) {
    forall i | i in live :: 0 <= i < |ns| && ns[i].height >= 0
  }

  ghost predicate Linked(ns: seq<Node>, live: set<int>, root: int) {
    Bounded(ns, live) &&
    (root == NIL <==> live == {}) &&
    (root != NIL ==> root in live) &&
    forall i {:trigger LinkedAt(ns, live, root, i)} | i in live :: LinkedAt(ns, live, root, i)
  }

  /** Node `i` has the box and height of its children (a leaf has height 0). */
  ghost predicate FittedAt(ns: seq<Node>, i: int) {
    0 <= i < |ns| &&
    (ns[i].left == NIL ==> ns[i].height == 0) &&
    (ns[i].left != NIL ==>
       var l, r := ns[i].left, ns[i].right;
       0 <= l < |ns| && 0 <= r < |ns| &&
       ns[i].aabb == Combine(ns[l].aabb, ns[r].aabb) &&
       ns[i].height == MaxInt(ns[l].height, ns[r].height) + 1)
  }

  /** Every live node off `path` is fitted. */
  ghost predicate FittedOutside(ns: seq<Node>, live: set<int>, path: seq<int>) {
    forall i {:trigger FittedAt(ns, i)} | i in live && i !in path :: FittedAt(ns, i)
  }

  ghost predicate WellFormed(ns: seq<Node>, live: set<int>, root: int) {
    Linked(ns, live, root) && FittedOutside(ns, live, [])
  }

  ghost function LeafSet(ns: seq<Node>, live: set<int>): set<int> {
    set i | i in live && 0 <= i < |ns| && IsLeaf(ns[i])
  }

  ghost function LeafBoxes(ns: seq<Node>, live: set<int>): map<int, AABB> {
    map l | l in LeafSet(ns, live) :: ns[l].aabb
  }

  ghost function LeafPieces(ns: seq<Node>, live: set<int>): map<int, int> {
    map l | l in LeafSet(ns, live) :: ns[l].piece
  }

  /** The leaf maps are defined on exactly the leaves. */
  lemma LeafMaps(ns: seq<Node>, live: set<int>)
    ensures LeafBoxes(ns, live).Keys == LeafSet(ns, live)
    ensures LeafPieces(ns, live).Keys == LeafSet(ns, live)
  {
  }

  /**
   * `path` lists a live internal node followed by its ancestors up to the
   * root, each the parent of the one before: the nodes a refit walk visits.
   */
  ghost predicate UpPath(ns: seq<Node>, live: set<int>, path: seq<int>) {
    (forall k | 0 <= k < |path| :: path[k] in live && 0 <= path[k] < |ns| && ns[path[k]].left != NIL) &&
    (forall k | 0 <= k < |path| - 1 :: ns[path[k]].parent == path[k + 1]) &&
    (|path| > 0 ==> ns[path[|path| - 1]].parent == NIL) &&
    (forall j, k | 0 <= j < k < |path| :: path[j] != path[k])
  }

  // ---------------------------------------------------------------------------
  // Facts about well-formed arenas
  // ---------------------------------------------------------------------------

  /** In a fitted tree a parent is an internal node strictly higher than each child. */
  lemma ParentHigher(ns: seq<Node>, live: set<int>, root: int, x: int)
    requires WellFormed(ns, live, root) && x in live && ns[x].parent != NIL
    ensures ns[x].parent in live && 0 <= ns[x].parent < |ns|
    ensures ns[ns[x].parent].left != NIL
    ensures ns[ns[x].parent].height > ns[x].height
  {
    assert LinkedAt(ns, live, root, x);
    var p := ns[x].parent;
    assert FittedAt(ns, p);
  }

  ghost function Higher(ns: seq<Node>, live: set<int>, x: int): set<int>
    requires 0 <= x < |ns|
  {
    set j | j in live && 0 <= j < |ns| && ns[j].height > ns[x].height
  }

  lemma SubsetSmaller(a: set<int>, b: set<int>)
    requires a < b
    ensures |a| < |b|
  {
    var d := b - a;
    assert b == a + d && a * d == {};
    assert d != {};
  }

  /** The ancestors of `x`, starting with `x` itself and ending with the root. */
  ghost function PathToRoot(ns: seq<Node>, live: set<int>, root: int, x: int): (p: seq<int>)
    requires WellFormed(ns, live, root) && x in live
    ensures |p| > 0 && p[0] == x && p[|p| - 1] == root
    ensures forall k | 0 <= k < |p| :: p[k] in live && 0 <= p[k] < |ns|
    ensures forall k | 0 <= k < |p| - 1 :: ns[p[k]].parent == p[k + 1] && ns[p[k]].height < ns[p[k + 1]].height
    ensures ns[p[|p| - 1]].parent == NIL
    decreases |Higher(ns, live, x)|
  {
    assert LinkedAt(ns, live, root, x);
    var par := ns[x].parent;
    if par == NIL then [x]
    else
      ParentHigher(ns, live, root, x);
      assert Higher(ns, live, par) < Higher(ns, live, x) by {
        assert par in Higher(ns, live, x) && par !in Higher(ns, live, par);
      }
      SubsetSmaller(Higher(ns, live, par), Higher(ns, live, x));
      [x] + PathToRoot(ns, live, root, par)
  }

  /** Heights strictly increase along an ancestor chain, so it never repeats a node. */
  lemma AscendingDistinct(ns: seq<Node>, p: seq<int>)
    requires forall k | 0 <= k < |p| :: 0 <= p[k] < |ns|
    requires forall k | 0 <= k < |p| - 1 :: ns[p[k]].height < ns[p[k + 1]].height
    ensures forall j, k | 0 <= j < k < |p| :: ns[p[j]].height < ns[p[k]].height
    ensures forall j, k | 0 <= j < k < |p| :: p[j] != p[k]
  {
    if |p| > 1 {
      var q := p[1..];
      AscendingDistinct(ns, q);
      forall j, k | 0 <= j < k < |p|
        ensures ns[p[j]].height < ns[p[k]].height
      {
        if j == 0 {
          if k > 1 {
            assert p[1] == q[0] && p[k] == q[k - 1];
          }
        } else {
          assert p[j] == q[j - 1] && p[k] == q[k - 1];
        }
      }
    }
  }

  /** The strict ancestors of a node form a refit path. */
  lemma AncestorsUpPath(ns: seq<Node>, live: set<int>, root: int, x: int)
    requires WellFormed(ns, live, root) && x in live
    ensures UpPath(ns, live, PathToRoot(ns, live, root, x)[1..])
  {
    AncestorsInternal(ns, live, root, x);
    AncestorsChain(ns, live, root, x);
    AncestorsDistinct(ns, live, root, x);
  }

  lemma AncestorsInternal(ns: seq<Node>, live: set<int>, root: int, x: int)
    requires WellFormed(ns, live, root) && x in live
    ensures var q := PathToRoot(ns, live, root, x)[1..];
      forall k | 0 <= k < |q| :: q[k] in live && 0 <= q[k] < |ns| && ns[q[k]].left != NIL
  {
    var q := PathToRoot(ns, live, root, x)[1..];
    forall k | 0 <= k < |q|
      ensures q[k] in live && 0 <= q[k] < |ns| && ns[q[k]].left != NIL
    {
      AncestorInternal(ns, live, root, x, k + 1);
    }
  }

  lemma AncestorsChain(ns: seq<Node>, live: set<int>, root: int, x: int)
    requires WellFormed(ns, live, root) && x in live
    ensures var q := PathToRoot(ns, live, root, x)[1..];
      (forall k | 0 <= k < |q| - 1 :: ns[q[k]].parent == q[k + 1]) &&
      (|q| > 0 ==> ns[q[|q| - 1]].parent == NIL)
  {
    var p := PathToRoot(ns, live, root, x);
    var q := p[1..];
    forall k | 0 <= k < |q| - 1
      ensures ns[q[k]].parent == q[k + 1]
    {
      assert q[k] == p[k + 1] && q[k + 1] == p[k + 2];
    }
  }

  lemma AncestorsDistinct(ns: seq<Node>, live: set<int>, root: int, x: int)
    requires WellFormed(ns, live, root) && x in live
    ensures var q := PathToRoot(ns, live, root, x)[1..];
      forall j, k | 0 <= j < k < |q| :: q[j] != q[k]
  {
    var p := PathToRoot(ns, live, root, x);
    var q := p[1..];
    AscendingDistinct(ns, p);
    forall j, k | 0 <= j < k < |q|
      ensures q[j] != q[k]
    {
      assert q[j] == p[j + 1] && q[k] == p[k + 1];
    }
  }

  lemma AncestorInternal(ns: seq<Node>, live: set<int>, root: int, x: int, k: int)
    requires WellFormed(ns, live, root) && x in live && 1 <= k < |PathToRoot(ns, live, root, x)|
    ensures ns[PathToRoot(ns, live, root, x)[k]].left != NIL
  {
    var p := PathToRoot(ns, live, root, x);
    assert LinkedAt(ns, live, root, p[k - 1]);
  }

  /** A node whose parent is neither NIL nor on `path` after its head is not on `path`. */
  lemma OffPath(ns: seq<Node>, live: set<int>, path: seq<int>, x: int)
    requires UpPath(ns, live, path) && 0 <= x < |ns| && ns[x].parent != NIL
    requires forall k | 1 <= k < |path| :: path[k] != ns[x].parent
    ensures x !in path
  {
    forall k | 0 <= k < |path|
      ensures path[k] != x
    {
      if k < |path| - 1 {
        assert ns[path[k]].parent == path[k + 1];
      }
    }
  }

  /** A root that is a leaf is the only node of the tree. */
  lemma LeafRootAlone(ns: seq<Node>, live: set<int>, root: int)
    requires WellFormed(ns, live, root) && root != NIL && IsLeaf(ns[root])
    ensures live == {root}
  {
    forall x | x in live
      ensures x == root
    {
      var p := PathToRoot(ns, live, root, x);
      if |p| > 1 {
        ParentHigher(ns, live, root, p[|p| - 2]);
        assert false;
      }
    }
  }

  // ---------------------------------------------------------------------------
  // Leaves below a node
  // ---------------------------------------------------------------------------

  /** The leaves of the subtree rooted at live node `i`; `i`'s box covers each of their boxes. */
  ghost function Under(ns: seq<Node>, live: set<int>, root: int, i: int): (u: set<int>)
    requires WellFormed(ns, live, root) && i in live
    ensures u <= LeafSet(ns, live)
    ensures IsLeaf(ns[i]) ==> u == {i}
    ensures forall l | l in u :: Contains(ns[i].aabb, ns[l].aabb)
    decreases ns[i].height
  {
    assert LinkedAt(ns, live, root, i) && FittedAt(ns, i);
    if IsLeaf(ns[i]) then {i}
    else
      var c0, c1 := ns[i].left, ns[i].right;
      assert FittedAt(ns, c0) && FittedAt(ns, c1);
      var u0, u1 := Under(ns, live, root, c0), Under(ns, live, root, c1);
      forall l | l in u0 + u1
        ensures Contains(ns[i].aabb, ns[l].aabb)
      {
        if l in u0 {
          ContainsTransitive(ns[i].aabb, ns[c0].aabb, ns[l].aabb);
        } else {
          ContainsTransitive(ns[i].aabb, ns[c1].aabb, ns[l].aabb);
        }
      }
      u0 + u1
  }

  /** A leaf lies below every node on its way to the root. */
  lemma {:induction false} UnderAlongPath(ns: seq<Node>, live: set<int>, root: int, l: int, p: seq<int>, k: nat)
    requires WellFormed(ns, live, root) && l in LeafSet(ns, live)
    requires p == PathToRoot(ns, live, root, l) && k < |p|
    ensures l in Under(ns, live, root, p[k])
    decreases k
  {
    if k > 0 {
      UnderAlongPath(ns, live, root, l, p, k - 1);
      assert ns[p[k - 1]].parent == p[k];
      assert LinkedAt(ns, live, root, p[k - 1]);
    }
  }

  /** Every leaf of the tree is below the root. */
  lemma UnderRoot(ns: seq<Node>, live: set<int>, root: int)
    requires WellFormed(ns, live, root) && root != NIL
    ensures Under(ns, live, root, root) == LeafSet(ns, live)
  {
    forall l | l in LeafSet(ns, live)
      ensures l in Under(ns, live, root, root)
    {
      var p := PathToRoot(ns, live, root, l);
      UnderAlongPath(ns, live, root, l, p, |p| - 1);
    }
  }

  /** Conversely, a node lies on the way to the root of every leaf below it, at index `k`. */
  lemma {:induction false} UnderOnPath(ns: seq<Node>, live: set<int>, root: int, i: int, l: int) returns (k: nat)
    requires WellFormed(ns, live, root) && i in live && l in Under(ns, live, root, i)
    ensures k < |PathToRoot(ns, live, root, l)| && PathToRoot(ns, live, root, l)[k] == i
    decreases ns[i].height
  {
    assert LinkedAt(ns, live, root, i) && FittedAt(ns, i);
    var p := PathToRoot(ns, live, root, l);
    if IsLeaf(ns[i]) {
      k := 0;
    } else {
      var c := if l in Under(ns, live, root, ns[i].left) then ns[i].left else ns[i].right;
      assert FittedAt(ns, c) && LinkedAt(ns, live, root, c);
      var j := UnderOnPath(ns, live, root, c, l);
      assert j < |p| - 1 && p[j + 1] == i;
      k := j + 1;
    }
  }

  /** A non-root node on an ancestor chain is followed there by its parent. */
  lemma ChildThenParent(ns: seq<Node>, live: set<int>, root: int, l: int, k: nat)
    requires WellFormed(ns, live, root) && l in live
    requires k < |PathToRoot(ns, live, root, l)|
    requires ns[PathToRoot(ns, live, root, l)[k]].parent != NIL
    ensures k < |PathToRoot(ns, live, root, l)| - 1
    ensures PathToRoot(ns, live, root, l)[k + 1] == ns[PathToRoot(ns, live, root, l)[k]].parent
  {
  }

  /** The two subtrees of an internal node share no leaf. */
  lemma SiblingsDisjoint(ns: seq<Node>, live: set<int>, root: int, i: int)
    requires WellFormed(ns, live, root) && i in live && !IsLeaf(ns[i])
    ensures ns[i].left in live && ns[i].right in live
    ensures Under(ns, live, root, ns[i].left) !! Under(ns, live, root, ns[i].right)
  {
    assert LinkedAt(ns, live, root, i);
    var c0, c1 := ns[i].left, ns[i].right;
    forall l | l in Under(ns, live, root, c0) && l in Under(ns, live, root, c1)
      ensures false
    {
      var p := PathToRoot(ns, live, root, l);
      var k0 := UnderOnPath(ns, live, root, c0, l);
      var k1 := UnderOnPath(ns, live, root, c1, l);
      ChildThenParent(ns, live, root, l, k0);
      ChildThenParent(ns, live, root, l, k1);
      AscendingDistinct(ns, p);
      assert false;
    }
  }

  // ---------------------------------------------------------------------------
  // The query stack
  // ---------------------------------------------------------------------------

  /** The number of live nodes in the subtree at `i` (0 for NIL). */
  ghost function Weight(ns: seq<Node>, live: set<int>, root: int, i: int): (w: nat)
    requires WellFormed(ns, live, root)
    ensures i in live ==> w > 0
    decreases if i in live && 0 <= i < |ns| then ns[i].height + 1 else 0
  {
    if i !in live then 0
    else
      assert LinkedAt(ns, live, root, i) && FittedAt(ns, i);
      if IsLeaf(ns[i]) then 1
      else
        assert FittedAt(ns, ns[i].left) && FittedAt(ns, ns[i].right);
        1 + Weight(ns, live, root, ns[i].left) + Weight(ns, live, root, ns[i].right)
  }

  ghost predicate StackEntries(live: set<int>, s: seq<int>) {
    forall k | 0 <= k < |s| :: s[k] == NIL || s[k] in live
  }

  ghost function StackWeight(ns: seq<Node>, live: set<int>, root: int, s: seq<int>): nat
    requires WellFormed(ns, live, root)
  {
    if s == [] then 0
    else StackWeight(ns, live, root, s[..|s| - 1]) + Weight(ns, live, root, s[|s| - 1])
  }

  ghost function Below(ns: seq<Node>, live: set<int>, root: int, i: int): set<int>
    requires WellFormed(ns, live, root) && (i == NIL || i in live)
  {
    if i == NIL then {} else Under(ns, live, root, i)
  }

  /** The leaves below the entries of a query stack. */
  ghost function StackLeaves(ns: seq<Node>, live: set<int>, root: int, s: seq<int>): set<int>
    requires WellFormed(ns, live, root) && StackEntries(live, s)
  {
    if s == [] then {}
    else StackLeaves(ns, live, root, s[..|s| - 1]) + Below(ns, live, root, s[|s| - 1])
  }

  /** No leaf lies below two entries of the stack. */
  ghost predicate StackDisjoint(ns: seq<Node>, live: set<int>, root: int, s: seq<int>)
    requires WellFormed(ns, live, root) && StackEntries(live, s)
  {
    s == [] ||
    (StackDisjoint(ns, live, root, s[..|s| - 1]) &&
     StackLeaves(ns, live, root, s[..|s| - 1]) !! Below(ns, live, root, s[|s| - 1]))
  }

  lemma StackPush2Weight(ns: seq<Node>, live: set<int>, root: int, s: seq<int>, a: int, b: int)
    requires WellFormed(ns, live, root)
    ensures StackWeight(ns, live, root, s + [a, b]) ==
            StackWeight(ns, live, root, s) + Weight(ns, live, root, a) + Weight(ns, live, root, b)
  {
    assert (s + [a, b])[..|s| + 1] == s + [a];
    assert (s + [a])[..|s|] == s;
  }

  lemma StackPush2Leaves(ns: seq<Node>, live: set<int>, root: int, s: seq<int>, a: int, b: int)
    requires WellFormed(ns, live, root) && StackEntries(live, s)
    requires a == NIL || a in live
    requires b == NIL || b in live
    ensures StackEntries(live, s + [a, b])
    ensures StackLeaves(ns, live, root, s + [a, b]) ==
            StackLeaves(ns, live, root, s) + Below(ns, live, root, a) + Below(ns, live, root, b)
    ensures StackDisjoint(ns, live, root, s + [a, b]) <==>
            StackDisjoint(ns, live, root, s) &&
            StackLeaves(ns, live, root, s) !! Below(ns, live, root, a) &&
            StackLeaves(ns, live, root, s) + Below(ns, live, root, a) !! Below(ns, live, root, b)
  {
    assert (s + [a, b])[..|s| + 1] == s + [a];
    assert (s + [a])[..|s|] == s;
  }

  /** The leaves of the tree that overlap `q`, except `self`. */
  ghost function Hits(ns: seq<Node>, live: set<int>, q: AABB, self: int): set<int> {
    set l | l in LeafSet(ns, live) && l != self && Test(ns[l].aabb, q)
  }

  /** The hits, read through the leaf maps. */
  lemma HitsAreLeaves(ns: seq<Node>, live: set<int>, q: AABB, self: int)
    ensures forall l :: l in Hits(ns, live, q, self) <==>
      l in LeafSet(ns, live) && l != self && Test(LeafBoxes(ns, live)[l], q)
  {
  }

  /** A node whose box misses `q` has no leaf below it that meets `q` (the pruning of `query`). */
  lemma MissPrunes(ns: seq<Node>, live: set<int>, root: int, i: int, q: AABB, self: int)
    requires WellFormed(ns, live, root) && i in live && !Test(ns[i].aabb, q)
    ensures Under(ns, live, root, i) * Hits(ns, live, q, self) == {}
  {
    forall l | l in Under(ns, live, root, i) && Test(ns[l].aabb, q)
      ensures false
    {
      TestMonotone(ns[i].aabb, ns[l].aabb, q);
    }
  }

  // ---------------------------------------------------------------------------
  // Rotation
  // ---------------------------------------------------------------------------

  /** How the nodes a rotation at `a` involves hang together before it. */
  ghost predicate RotationShape(ns: seq<Node>, live: set<int>, a: int, t: int, kept: int, stay: int, move: int) {
    0 <= a < |ns| && 0 <= t < |ns| && 0 <= kept < |ns| && 0 <= stay < |ns| && 0 <= move < |ns| &&
    a in live && t in live && kept in live && stay in live && move in live &&
    t != kept && stay != move && a != t && a != kept && a != stay && a != move &&
    t != stay && t != move && kept != stay && kept != move &&
    ns[a].parent != t && ns[a].parent != kept && ns[a].parent != stay && ns[a].parent != move &&
    ns[a].parent != a &&
    ns[t].parent == a && ns[kept].parent == a && ns[stay].parent == t && ns[move].parent == t &&
    ((ns[a].left == kept && ns[a].right == t) || (ns[a].left == t && ns[a].right == kept)) &&
    ((ns[t].left == stay && ns[t].right == move) || (ns[t].left == move && ns[t].right == stay))
  }

  /** `ns2` is `ns` after the rotation at `a` that lifts `t` into `a`'s place. */
  ghost predicate Rotated(ns: seq<Node>, ns2: seq<Node>, root: int, root2: int,
                          a: int, t: int, kept: int, stay: int, move: int)
    requires 0 <= a < |ns| && 0 <= t < |ns| && 0 <= kept < |ns| && 0 <= stay < |ns| && 0 <= move < |ns|
  {
    var p := ns[a].parent;
    |ns2| == |ns| &&
    ns2[a].parent == t &&
    ((ns2[a].left == kept && ns2[a].right == move) || (ns2[a].left == move && ns2[a].right == kept)) &&
    ns2[a].aabb == Combine(ns[kept].aabb, ns[move].aabb) &&
    ns2[a].height == MaxInt(ns[kept].height, ns[move].height) + 1 &&
    ns2[t].parent == p && ns2[t].left == a && ns2[t].right == stay &&
    ns2[t].aabb == Combine(ns2[a].aabb, ns[stay].aabb) &&
    ns2[t].height == MaxInt(ns2[a].height, ns[stay].height) + 1 &&
    ns2[move].parent == a &&
    (p == NIL ==> root2 == t) &&
    (p != NIL ==>
       0 <= p < |ns| && root2 == root &&
       ((ns[p].left == a && ns2[p].left == t && ns2[p].right == ns[p].right) ||
        (ns[p].left != a && ns2[p].left == ns[p].left && ns2[p].right == t))) &&
    (forall c | 0 <= c < |ns| && c != a && c != t && c != move :: ns2[c].parent == ns[c].parent) &&
    (forall c | 0 <= c < |ns| && c != a && c != t && c != p ::
       ns2[c].left == ns[c].left && ns2[c].right == ns[c].right) &&
    (forall c | 0 <= c < |ns| :: ns2[c].piece == ns[c].piece) &&
    (forall c | 0 <= c < |ns| && c != a && c != t :: ns2[c].aabb == ns[c].aabb && ns2[c].height == ns[c].height)
  }

  /** The nodes a rotation touches are distinct, and only `a` and its parent are on the path. */
  lemma RotationDistinct(ns: seq<Node>, live: set<int>, root: int, path: seq<int>,
                         a: int, t: int, kept: int, stay: int, move: int)
    requires Linked(ns, live, root) && UpPath(ns, live, path) && |path| > 0 && path[0] == a
    requires FittedOutside(ns, live, path)
    requires 0 <= t < |ns| && 0 <= stay < |ns| && 0 <= move < |ns|
    requires (ns[a].left == kept && ns[a].right == t) || (ns[a].left == t && ns[a].right == kept)
    requires (ns[t].left == stay && ns[t].right == move) || (ns[t].left == move && ns[t].right == stay)
    ensures RotationShape(ns, live, a, t, kept, stay, move)
    ensures t !in path && kept !in path && stay !in path && move !in path
    ensures ns[a].parent != NIL ==> |path| > 1 && ns[a].parent == path[1]
    ensures FittedAt(ns, t) && FittedAt(ns, kept) && FittedAt(ns, stay) && FittedAt(ns, move)
  {
    assert LinkedAt(ns, live, root, a);
    OffPath(ns, live, path, t);
    OffPath(ns, live, path, kept);
    assert LinkedAt(ns, live, root, t);
    OffPath(ns, live, path, stay);
    OffPath(ns, live, path, move);
    assert FittedAt(ns, t);
    if ns[a].parent != NIL {
      assert |path| > 1 && ns[a].parent == path[1];
    }
  }

  /** The arena after the writes of a rotation (a helper for `Tree.Rotate`). */
  lemma RotationWrites(ns: seq<Node>, live: set<int>, root: int, side: int,
                       a: int, t: int, kept: int, stay: int, move: int,
                       na2: Node, nt2: Node, ns1: seq<Node>, ns2: seq<Node>, root2: int)
    requires RotationShape(ns, live, a, t, kept, stay, move)
    requires (side == 0 && ns[a].left == t) || (side == 1 && ns[a].right == t)
    requires var p := ns[a].parent; p == NIL || (0 <= p < |ns| && p != a && p != t && p != move)
    requires na2 == (if side == 0 then ns[a].(parent := t, left := move) else ns[a].(parent := t, right := move))
                    .(aabb := Combine(ns[kept].aabb, ns[move].aabb),
                      height := MaxInt(ns[kept].height, ns[move].height) + 1)
    requires nt2 == ns[t].(parent := ns[a].parent, left := a, right := stay,
                           aabb := Combine(na2.aabb, ns[stay].aabb),
                           height := MaxInt(na2.height, ns[stay].height) + 1)
    requires ns1 == ns[a := na2][t := nt2][move := ns[move].(parent := a)]
    requires ns[a].parent == NIL ==> ns2 == ns1 && root2 == t
    requires ns[a].parent != NIL ==>
      (0 <= ns[a].parent < |ns| && root2 == root &&
       ns2 == ns1[ns[a].parent := SpliceSlot(ns[ns[a].parent], a, t)])
    ensures Rotated(ns, ns2, root, root2, a, t, kept, stay, move)
    ensures ns2[t].right == stay
    ensures if side == 0 then ns2[a].left == move && ns2[a].right == kept else ns2[a].right == move && ns2[a].left == kept
  {
  }

  /** The lifted node and the node it replaces are linked after the rotation. */
  lemma RotatedLinkedTop(ns: seq<Node>, ns2: seq<Node>, live: set<int>, root: int, root2: int,
                         a: int, t: int, kept: int, stay: int, move: int)
    requires RotationShape(ns, live, a, t, kept, stay, move)
    requires LinkedAt(ns, live, root, a) && LinkedAt(ns, live, root, t)
    requires Rotated(ns, ns2, root, root2, a, t, kept, stay, move)
    ensures LinkedAt(ns2, live, root2, a) && LinkedAt(ns2, live, root2, t)
  {
  }

  /** The nodes whose parent changed, or whose parent's children changed, are linked. */
  lemma RotatedLinkedMoved(ns: seq<Node>, ns2: seq<Node>, live: set<int>, root: int, root2: int,
                           a: int, t: int, kept: int, stay: int, move: int, i: int)
    requires RotationShape(ns, live, a, t, kept, stay, move)
    requires LinkedAt(ns, live, root, a) && LinkedAt(ns, live, root, i)
    requires i == kept || i == stay || i == move
    requires Rotated(ns, ns2, root, root2, a, t, kept, stay, move)
    ensures LinkedAt(ns2, live, root2, i)
  {
    if ns[i].left != NIL {
      var c0, c1 := ns[i].left, ns[i].right;
      assert c0 != a && c0 != t && c0 != move && c1 != a && c1 != t && c1 != move;
    }
  }

  /** The parent of `a`, whose child slot now holds `t`, is linked. */
  lemma RotatedLinkedAbove(ns: seq<Node>, ns2: seq<Node>, live: set<int>, root: int, root2: int,
                           a: int, t: int, kept: int, stay: int, move: int)
    requires RotationShape(ns, live, a, t, kept, stay, move)
    requires LinkedAt(ns, live, root, a) && ns[a].parent != NIL
    requires LinkedAt(ns, live, root, ns[a].parent)
    requires Rotated(ns, ns2, root, root2, a, t, kept, stay, move)
    ensures LinkedAt(ns2, live, root2, ns[a].parent)
  {
    var p := ns[a].parent;
    var q := ns[p].parent;
    assert q != a && q != t;
    var o := if ns[p].left == a then ns[p].right else ns[p].left;
    assert o != a && o != t && o != move;
  }

  /** Every other live node keeps its links. */
  lemma RotatedLinkedOther(ns: seq<Node>, ns2: seq<Node>, live: set<int>, root: int, root2: int,
                           a: int, t: int, kept: int, stay: int, move: int, i: int)
    requires RotationShape(ns, live, a, t, kept, stay, move)
    requires LinkedAt(ns, live, root, a) && LinkedAt(ns, live, root, i)
    requires i != a && i != t && i != kept && i != stay && i != move && i != ns[a].parent
    requires Rotated(ns, ns2, root, root2, a, t, kept, stay, move)
    ensures LinkedAt(ns2, live, root2, i)
  {
    var q := ns[i].parent;
    if q != NIL {
      assert q != a && q != t;
    }
    if ns[i].left != NIL {
      var c0, c1 := ns[i].left, ns[i].right;
      assert c0 != a && c0 != t && c0 != move && c1 != a && c1 != t && c1 != move;
    }
  }

  lemma RotatedLinked(ns: seq<Node>, ns2: seq<Node>, live: set<int>, root: int, root2: int,
                      a: int, t: int, kept: int, stay: int, move: int)
    requires Linked(ns, live, root) && RotationShape(ns, live, a, t, kept, stay, move)
    requires Rotated(ns, ns2, root, root2, a, t, kept, stay, move)
    ensures Linked(ns2, live, root2)
  {
    assert LinkedAt(ns, live, root, a) && LinkedAt(ns, live, root, t);
    RotatedLinkedTop(ns, ns2, live, root, root2, a, t, kept, stay, move);
    forall i | i in live
      ensures LinkedAt(ns2, live, root2, i)
    {
      assert LinkedAt(ns, live, root, i);
      if i == a || i == t {
      } else if i == kept || i == stay || i == move {
        RotatedLinkedMoved(ns, ns2, live, root, root2, a, t, kept, stay, move, i);
      } else if i == ns[a].parent {
        RotatedLinkedAbove(ns, ns2, live, root, root2, a, t, kept, stay, move);
      } else {
        RotatedLinkedOther(ns, ns2, live, root, root2, a, t, kept, stay, move, i);
      }
    }
  }

  lemma RotatedUpPath(ns: seq<Node>, ns2: seq<Node>, live: set<int>, root: int, root2: int, path: seq<int>,
                      a: int, t: int, kept: int, stay: int, move: int)
    requires UpPath(ns, live, path) && |path| > 0 && path[0] == a
    requires RotationShape(ns, live, a, t, kept, stay, move)
    requires t !in path && move !in path
    requires ns[a].parent != NIL ==> |path| > 1 && ns[a].parent == path[1]
    requires Rotated(ns, ns2, root, root2, a, t, kept, stay, move)
    ensures UpPath(ns2, live, [t] + path[1..])
  {
  }

  /** A node off the new path other than `a` was fitted and its children kept their boxes. */
  lemma RotatedFittedAt(ns: seq<Node>, ns2: seq<Node>, live: set<int>, root: int, root2: int,
                        a: int, t: int, kept: int, stay: int, move: int, i: int)
    requires RotationShape(ns, live, a, t, kept, stay, move)
    requires LinkedAt(ns, live, root, i) && FittedAt(ns, i)
    requires i != a && i != t && i != ns[a].parent
    requires Rotated(ns, ns2, root, root2, a, t, kept, stay, move)
    ensures FittedAt(ns2, i)
  {
    if ns[i].left != NIL {
      var c0, c1 := ns[i].left, ns[i].right;
      assert c0 != a && c0 != t && c1 != a && c1 != t;
    }
  }

  lemma RotatedFitted(ns: seq<Node>, ns2: seq<Node>, live: set<int>, root: int, root2: int, path: seq<int>,
                      a: int, t: int, kept: int, stay: int, move: int)
    requires Linked(ns, live, root) && UpPath(ns, live, path) && |path| > 0 && path[0] == a
    requires FittedOutside(ns, live, path)
    requires RotationShape(ns, live, a, t, kept, stay, move)
    requires FittedAt(ns, kept) && FittedAt(ns, stay) && FittedAt(ns, move)
    requires ns[a].parent != NIL ==> |path| > 1 && ns[a].parent == path[1]
    requires Rotated(ns, ns2, root, root2, a, t, kept, stay, move)
    ensures FittedOutside(ns2, live, [t] + path[1..])
  {
    forall i | i in live && i !in [t] + path[1..]
      ensures FittedAt(ns2, i)
    {
      if i != a {
        assert LinkedAt(ns, live, root, i);
        OffRotatedPath(ns, path, t, i);
        assert LinkedAt(ns, live, root, i) && FittedAt(ns, i);
        RotatedFittedAt(ns, ns2, live, root, root2, a, t, kept, stay, move, i);
      } else {
        RotatedFittedLowered(ns, ns2, live, root, root2, a, t, kept, stay, move);
      }
    }
  }

  /** The lowered node `a` gets the box and height of its new children, whichever slot each is in. */
  lemma RotatedFittedLowered(ns: seq<Node>, ns2: seq<Node>, live: set<int>, root: int, root2: int,
                             a: int, t: int, kept: int, stay: int, move: int)
    requires RotationShape(ns, live, a, t, kept, stay, move)
    requires Rotated(ns, ns2, root, root2, a, t, kept, stay, move)
    ensures FittedAt(ns2, a)
  {
    CombineCommutes(ns[kept].aabb, ns[move].aabb);
  }

  /** A node off the path after a rotation, other than the path's old head, was off it before. */
  lemma OffRotatedPath(ns: seq<Node>, path: seq<int>, t: int, i: int)
    requires |path| > 0 && 0 <= path[0] < |ns| && 0 <= i && i != path[0] && i !in [t] + path[1..]
    requires ns[path[0]].parent != NIL ==> |path| > 1 && ns[path[0]].parent == path[1]
    ensures i !in path && i != ns[path[0]].parent
  {
    assert path == [path[0]] + path[1..];
    if |path| > 1 {
      var r := [t] + path[1..];
      assert path[1] == r[1] && r[1] in r;
    }
  }

  lemma RotatedLeaves(ns: seq<Node>, ns2: seq<Node>, live: set<int>, root: int, root2: int,
                      a: int, t: int, kept: int, stay: int, move: int)
    requires RotationShape(ns, live, a, t, kept, stay, move)
    requires Rotated(ns, ns2, root, root2, a, t, kept, stay, move)
    ensures LeafSet(ns2, live) == LeafSet(ns, live)
    ensures LeafBoxes(ns2, live) == LeafBoxes(ns, live)
    ensures LeafPieces(ns2, live) == LeafPieces(ns, live)
  {
    assert LeafSet(ns2, live) == LeafSet(ns, live);
  }

  /** Everything `Tree.Rotate` promises about the arena it leaves behind. */
  lemma RotationCorrect(ns: seq<Node>, live: set<int>, root: int, path: seq<int>, side: int,
                        a: int, t: int, kept: int, stay: int, move: int,
                        na2: Node, nt2: Node, ns1: seq<Node>, ns2: seq<Node>, root2: int)
    requires Linked(ns, live, root) && UpPath(ns, live, path) && |path| > 0 && path[0] == a
    requires FittedOutside(ns, live, path)
    requires 0 <= t < |ns|
    requires (side == 0 && ns[a].left == t && ns[a].right == kept) || (side == 1 && ns[a].right == t && ns[a].left == kept)
    requires (ns[t].left == stay && ns[t].right == move) || (ns[t].left == move && ns[t].right == stay)
    requires 0 <= kept < |ns| && 0 <= stay < |ns| && 0 <= move < |ns|
    requires na2 == (if side == 0 then ns[a].(parent := t, left := move) else ns[a].(parent := t, right := move))
                    .(aabb := Combine(ns[kept].aabb, ns[move].aabb),
                      height := MaxInt(ns[kept].height, ns[move].height) + 1)
    requires nt2 == ns[t].(parent := ns[a].parent, left := a, right := stay,
                           aabb := Combine(na2.aabb, ns[stay].aabb),
                           height := MaxInt(na2.height, ns[stay].height) + 1)
    requires ns1 == ns[a := na2][t := nt2][move := ns[move].(parent := a)]
    requires ns[a].parent == NIL ==> ns2 == ns1 && root2 == t
    requires ns[a].parent != NIL ==>
      (0 <= ns[a].parent < |ns| && root2 == root &&
       ns2 == ns1[ns[a].parent := SpliceSlot(ns[ns[a].parent], a, t)])
    ensures |ns2| == |ns| && 0 <= a < |ns2| && ns2[t].left == a && ns2[a].parent == t
    ensures ns2[t].right == stay
    ensures if side == 0 then ns2[a].left == move && ns2[a].right == kept else ns2[a].right == move && ns2[a].left == kept
    ensures FittedAt(ns2, a)
    ensures Linked(ns2, live, root2) && UpPath(ns2, live, [t] + path[1..])
    ensures FittedOutside(ns2, live, [t] + path[1..])
    ensures LeafSet(ns2, live) == LeafSet(ns, live)
    ensures LeafBoxes(ns2, live) == LeafBoxes(ns, live)
    ensures LeafPieces(ns2, live) == LeafPieces(ns, live)
  {
    RotationDistinct(ns, live, root, path, a, t, kept, stay, move);
    RotationWrites(ns, live, root, side, a, t, kept, stay, move, na2, nt2, ns1, ns2, root2);
    RotatedLinked(ns, ns2, live, root, root2, a, t, kept, stay, move);
    RotatedUpPath(ns, ns2, live, root, root2, path, a, t, kept, stay, move);
    RotatedFitted(ns, ns2, live, root, root2, path, a, t, kept, stay, move);
    RotatedLeaves(ns, ns2, live, root, root2, a, t, kept, stay, move);
    RotatedFittedLowered(ns, ns2, live, root, root2, a, t, kept, stay, move);
  }

  /**
   * The heights bvh.js:240-241 store in the right rotation at `a` (its first
   * child `b` is lifted) when `b`'s first child `d` is the taller: `a` gets
   * one more than the larger of `c` and `d`, though `a`'s children are now
   * `e` and `c`, and `b` gets one more than the larger of that and `e`,
   * though `b`'s second child is now `d`. Arguments are the heights of `c`,
   * `d` and `e`; the result is the pair stored in `a` and `b`.
   */
  function RightRotationHeightsAsWritten(c: int, d: int, e: int): (r: (int, int))
    requires d > e
    ensures r.0 == MaxInt(c, e) + 1 <==> d <= c
    ensures r.0 > MaxInt(c, e) + 1 <==> d > c
  {
    var aHeight := MaxInt(c, d) + 1;
    (aHeight, MaxInt(aHeight, e) + 1)
  }

  /**
   * With `c` a leaf and `d` one level above `e`, the lowered node's stored
   * height is 2 while its children `e` and `c` are both leaves, and the
   * lifted node's height comes out equal to the height of `a` before the
   * rotation instead of one less.
   */
  lemma RightRotationHeightsMisfit()
    ensures var r := RightRotationHeightsAsWritten(0, 1, 0);
      r.0 == 2 && MaxInt(0, 0) + 1 == 1 &&
      r.1 == MaxInt(0, MaxInt(1, 0) + 1) + 1 &&
      MaxInt(MaxInt(0, 0) + 1, 1) + 1 == 2
  {
  }

  // ---------------------------------------------------------------------------
  // Refitting one node
  // ---------------------------------------------------------------------------

  /** `ns2` is `ns` with node `h` given the box and height of its children. */
  ghost predicate Refitted(ns: seq<Node>, ns2: seq<Node>, h: int)
  {
    0 <= h < |ns| &&
    var l, r := ns[h].left, ns[h].right;
    0 <= l < |ns| && 0 <= r < |ns| &&
    ns2 == ns[h := ns[h].(height := MaxInt(ns[l].height, ns[r].height) + 1,
                          aabb := Combine(ns[l].aabb, ns[r].aabb))]
  }

  lemma RefitLinked(ns: seq<Node>, live: set<int>, root: int, h: int, ns2: seq<Node>)
    requires Linked(ns, live, root) && h in live && Refitted(ns, ns2, h)
    ensures Linked(ns2, live, root)
    ensures LeafSet(ns2, live) == LeafSet(ns, live)
    ensures LeafBoxes(ns2, live) == LeafBoxes(ns, live)
    ensures LeafPieces(ns2, live) == LeafPieces(ns, live)
  {
    assert LinkedAt(ns, live, root, h);
    LinksKept(ns, ns2, live, root);
    assert LeafSet(ns2, live) == LeafSet(ns, live);
  }

  /** Links only read the parent and child fields, so edits to other fields keep them. */
  lemma LinksKept(ns: seq<Node>, ns2: seq<Node>, live: set<int>, root: int)
    requires Linked(ns, live, root) && |ns2| == |ns|
    requires forall i | 0 <= i < |ns| ::
      ns2[i].parent == ns[i].parent && ns2[i].left == ns[i].left && ns2[i].right == ns[i].right
    requires forall i | i in live :: ns2[i].height >= 0
    ensures Linked(ns2, live, root)
  {
    forall i | i in live
      ensures LinkedAt(ns2, live, root, i)
    {
      assert LinkedAt(ns, live, root, i);
    }
  }

  lemma RefitFitted(ns: seq<Node>, live: set<int>, root: int, path: seq<int>, ns2: seq<Node>)
    requires Linked(ns, live, root) && UpPath(ns, live, path) && |path| > 0
    requires FittedOutside(ns, live, path) && Refitted(ns, ns2, path[0])
    ensures UpPath(ns2, live, path[1..])
    ensures FittedOutside(ns2, live, path[1..])
  {
    var h := path[0];
    assert LinkedAt(ns, live, root, h);
    if |path| > 1 {
      assert ns[h].parent == path[1] && path[1] != h;
    } else {
      assert ns[h].parent == NIL;
    }
    forall i | i in live && i !in path[1..]
      ensures FittedAt(ns2, i)
    {
      if i != h {
        assert i !in path;
        assert |path| > 1 ==> path[1] != i;
        assert LinkedAt(ns, live, root, i) && FittedAt(ns, i);
      }
    }
  }

  // ---------------------------------------------------------------------------
  // Splicing a new leaf in next to `walk`
  // ---------------------------------------------------------------------------

  /** `p` with its child `c` replaced by `d`. */
  function SpliceSlot(p: Node, c: int, d: int): (r: Node)
    ensures r.aabb == p.aabb && r.height == p.height && r.parent == p.parent && r.piece == p.piece
    ensures p.left == c ==> r.left == d && r.right == p.right
    ensures p.left != c ==> r.left == p.left && r.right == d
  {
    if p.left == c then p.(left := d) else p.(right := d)
  }

  /**
   * `ns2` is `ns` with leaf `leaf` holding `box` and a new node `np` that takes
   * `walk`'s place and has `walk` and `leaf` as its children.
   */
  ghost predicate Spliced(ns: seq<Node>, ns2: seq<Node>, root: int, root2: int,
                          walk: int, leaf: int, np: int, box: AABB)
    requires 0 <= walk < |ns|
  {
    var op := ns[walk].parent;
    leaf == |ns| && np == |ns| + 1 && |ns2| == |ns| + 2 &&
    ns2[leaf] == Node(box, np, NIL, NIL, 0, NIL) &&
    ns2[np] == Node(Combine(box, ns[walk].aabb), op, walk, leaf, ns[walk].height + 1, NIL) &&
    ns2[walk] == ns[walk].(parent := np) &&
    (op == NIL ==> root2 == np) &&
    (op != NIL ==>
       0 <= op < |ns| && root2 == root &&
       ((ns[op].left == walk && ns2[op] == ns[op].(left := np)) ||
        (ns[op].left != walk && ns2[op] == ns[op].(right := np)))) &&
    forall c | 0 <= c < |ns| && c != walk && c != op :: ns2[c] == ns[c]
  }

  lemma SplicedLinkedAt(ns: seq<Node>, ns2: seq<Node>, live: set<int>, root: int, root2: int,
                        walk: int, leaf: int, np: int, box: AABB, i: int)
    requires Bounded(ns, live) && walk in live && LinkedAt(ns, live, root, walk)
    requires Spliced(ns, ns2, root, root2, walk, leaf, np, box)
    requires i in live && LinkedAt(ns, live, root, i)
    requires ns[walk].parent != NIL ==> LinkedAt(ns, live, root, ns[walk].parent)
    ensures LinkedAt(ns2, live + {leaf, np}, root2, i)
  {
    var op := ns[walk].parent;
    if i != walk && i != op {
      var q := ns[i].parent;
      if ns[i].left != NIL {
        assert ns[i].left != walk && ns[i].right != walk;
      }
    }
  }

  lemma SplicedLinked(ns: seq<Node>, ns2: seq<Node>, live: set<int>, root: int, root2: int,
                      walk: int, leaf: int, np: int, box: AABB)
    requires Linked(ns, live, root) && walk in live
    requires Spliced(ns, ns2, root, root2, walk, leaf, np, box)
    ensures Linked(ns2, live + {leaf, np}, root2)
  {
    assert LinkedAt(ns, live, root, walk);
    var op := ns[walk].parent;
    if op != NIL {
      assert LinkedAt(ns, live, root, op);
    }
    forall i | i in live + {leaf, np}
      ensures LinkedAt(ns2, live + {leaf, np}, root2, i)
    {
      if i in live {
        assert LinkedAt(ns, live, root, i);
        SplicedLinkedAt(ns, ns2, live, root, root2, walk, leaf, np, box, i);
      }
    }
  }

  /** An up-path survives any edit that keeps its nodes live, internal and linked to the same parents. */
  lemma UpPathTransfer(ns: seq<Node>, ns2: seq<Node>, live: set<int>, live2: set<int>, up: seq<int>)
    requires UpPath(ns, live, up) && |ns| <= |ns2|
    requires forall k | 0 <= k < |up| ::
      up[k] in live2 && ns2[up[k]].parent == ns[up[k]].parent && ns2[up[k]].left != NIL
    ensures UpPath(ns2, live2, up)
  {
  }

  /** An internal node whose parent heads an up-path extends it. */
  lemma UpPathCons(ns: seq<Node>, live: set<int>, x: int, up: seq<int>)
    requires UpPath(ns, live, up) && x in live && 0 <= x < |ns| && ns[x].left != NIL && x !in up
    requires if up == [] then ns[x].parent == NIL else ns[x].parent == up[0]
    ensures UpPath(ns, live, [x] + up)
  {
  }

  /** The ancestors of `walk` become the ancestors of the new parent. */
  lemma SplicedUpPath(ns: seq<Node>, ns2: seq<Node>, live: set<int>, root: int, root2: int,
                      walk: int, leaf: int, np: int, box: AABB)
    requires WellFormed(ns, live, root) && walk in live
    requires Spliced(ns, ns2, root, root2, walk, leaf, np, box)
    ensures UpPath(ns2, live + {leaf, np}, [np] + PathToRoot(ns, live, root, walk)[1..])
  {
    var p := PathToRoot(ns, live, root, walk);
    var up := p[1..];
    AncestorsUpPath(ns, live, root, walk);
    AscendingDistinct(ns, p);
    assert LinkedAt(ns, live, root, walk);
    var op := ns[walk].parent;
    forall k | 0 <= k < |up|
      ensures up[k] in live + {leaf, np} && ns2[up[k]].parent == ns[up[k]].parent && ns2[up[k]].left != NIL
    {
      assert up[k] == p[k + 1] && p[k + 1] != p[0];
    }
    UpPathTransfer(ns, ns2, live, live + {leaf, np}, up);
    if |p| > 1 {
      assert op == up[0];
    } else {
      assert walk == root && op == NIL;
    }
    UpPathCons(ns2, live + {leaf, np}, np, up);
  }

  /** Splicing keeps every old node's box and height, so only `walk`'s old parent can lose its fit. */
  lemma SplicedFittedAt(ns: seq<Node>, ns2: seq<Node>, root: int, root2: int,
                        walk: int, leaf: int, np: int, box: AABB, i: int)
    requires 0 <= walk < |ns| && Spliced(ns, ns2, root, root2, walk, leaf, np, box)
    requires 0 <= i < |ns| && i != ns[walk].parent && FittedAt(ns, i)
    ensures FittedAt(ns2, i)
  {
  }

  lemma SplicedFitted(ns: seq<Node>, ns2: seq<Node>, live: set<int>, root: int, root2: int,
                      walk: int, leaf: int, np: int, box: AABB)
    requires WellFormed(ns, live, root) && walk in live
    requires Spliced(ns, ns2, root, root2, walk, leaf, np, box)
    ensures FittedOutside(ns2, live + {leaf, np}, [np] + PathToRoot(ns, live, root, walk)[1..])
  {
    var p := PathToRoot(ns, live, root, walk);
    var path := [np] + p[1..];
    var op := ns[walk].parent;
    assert LinkedAt(ns, live, root, walk);
    assert op != NIL ==> |p| > 1 && op == path[1];
    forall i | i in live + {leaf, np} && i !in path
      ensures FittedAt(ns2, i)
    {
      if i in live {
        assert FittedAt(ns, i);
        SplicedFittedAt(ns, ns2, root, root2, walk, leaf, np, box, i);
      }
    }
  }

  lemma SplicedLeaves(ns: seq<Node>, ns2: seq<Node>, live: set<int>, root: int, root2: int,
                      walk: int, leaf: int, np: int, box: AABB)
    requires Linked(ns, live, root) && walk in live
    requires Spliced(ns, ns2, root, root2, walk, leaf, np, box)
    ensures LeafSet(ns2, live + {leaf, np}) == LeafSet(ns, live) + {leaf}
    ensures LeafBoxes(ns2, live + {leaf, np}) == LeafBoxes(ns, live)[leaf := box]
    ensures LeafPieces(ns2, live + {leaf, np}) == LeafPieces(ns, live)[leaf := NIL]
  {
    assert LeafSet(ns2, live + {leaf, np}) == LeafSet(ns, live) + {leaf};
  }

  // ---------------------------------------------------------------------------
  // Unlinking a leaf and its parent
  // ---------------------------------------------------------------------------

  /** `ns2` is `ns` with `sib` moved up into the slot of its parent `par` under `gp`. */
  ghost predicate Unspliced(ns: seq<Node>, ns2: seq<Node>, par: int, sib: int, gp: int)
    requires 0 <= par < |ns| && 0 <= sib < |ns| && 0 <= gp < |ns|
  {
    |ns2| == |ns| &&
    ((ns[gp].left == par && ns2[gp] == ns[gp].(left := sib)) ||
     (ns[gp].left != par && ns2[gp] == ns[gp].(right := sib))) &&
    ns2[sib] == ns[sib].(parent := gp) &&
    forall c | 0 <= c < |ns| && c != gp && c != sib :: ns2[c] == ns[c]
  }

  /** The nodes around a leaf that is not the root. */
  ghost predicate Family(ns: seq<Node>, live: set<int>, leaf: int, par: int, sib: int, gp: int) {
    0 <= leaf < |ns| && 0 <= par < |ns| && 0 <= sib < |ns| &&
    leaf in live && par in live && sib in live && leaf != par && leaf != sib && par != sib &&
    IsLeaf(ns[leaf]) && ns[leaf].parent == par && ns[sib].parent == par && ns[par].parent == gp &&
    ((ns[par].left == leaf && ns[par].right == sib) || (ns[par].left == sib && ns[par].right == leaf)) &&
    gp != leaf && gp != par && gp != sib &&
    (gp != NIL ==> 0 <= gp < |ns| && gp in live && (ns[gp].left == par || ns[gp].right == par))
  }

  lemma FamilyOf(ns: seq<Node>, live: set<int>, root: int, leaf: int) returns (par: int, sib: int, gp: int)
    requires WellFormed(ns, live, root) && leaf in LeafSet(ns, live) && leaf != root
    ensures par == ns[leaf].parent && 0 <= par < |ns| && gp == ns[par].parent
    ensures sib == (if ns[par].left == leaf then ns[par].right else ns[par].left)
    ensures Family(ns, live, leaf, par, sib, gp)
    ensures gp != NIL ==> ns[gp].height > ns[par].height
  {
    assert LinkedAt(ns, live, root, leaf);
    par := ns[leaf].parent;
    assert LinkedAt(ns, live, root, par) && FittedAt(ns, par);
    gp := ns[par].parent;
    sib := if ns[par].left == leaf then ns[par].right else ns[par].left;
    assert LinkedAt(ns, live, root, sib) && FittedAt(ns, sib);
    if gp != NIL {
      assert LinkedAt(ns, live, root, gp) && FittedAt(ns, gp);
    }
  }

  lemma UnsplicedLinkedAt(ns: seq<Node>, ns2: seq<Node>, live: set<int>, root: int,
                          leaf: int, par: int, sib: int, gp: int, i: int)
    requires Family(ns, live, leaf, par, sib, gp) && gp != NIL && Unspliced(ns, ns2, par, sib, gp)
    requires Bounded(ns, live) && LinkedAt(ns, live, root, gp) && LinkedAt(ns, live, root, par)
    requires LinkedAt(ns, live, root, i) && i in live - {leaf, par}
    requires ns[gp].parent != sib && (root != NIL ==> root in live)
    ensures LinkedAt(ns2, live - {leaf, par}, root, i)
  {
    if i != gp && i != sib {
      if ns[i].left != NIL {
        assert ns[i].left != par && ns[i].right != par && ns[i].left != leaf && ns[i].right != leaf;
      }
      var q := ns[i].parent;
      assert q != par && q != leaf;
    } else if i == gp {
      var o := if ns[gp].left == par then ns[gp].right else ns[gp].left;
      assert o != leaf && o != par;
    } else {
      if ns[sib].left != NIL {
        assert ns[sib].left != gp && ns[sib].right != gp;
      }
    }
  }

  lemma UnsplicedLinked(ns: seq<Node>, ns2: seq<Node>, live: set<int>, root: int,
                        leaf: int, par: int, sib: int, gp: int)
    requires WellFormed(ns, live, root) && Family(ns, live, leaf, par, sib, gp) && gp != NIL
    requires ns[gp].height > ns[par].height
    requires Unspliced(ns, ns2, par, sib, gp)
    ensures Linked(ns2, live - {leaf, par}, root)
  {
    assert LinkedAt(ns, live, root, gp) && LinkedAt(ns, live, root, par) && LinkedAt(ns, live, root, leaf);
    assert FittedAt(ns, par);
    if ns[gp].parent != NIL {
      ParentHigher(ns, live, root, gp);
    }
    forall i | i in live - {leaf, par}
      ensures LinkedAt(ns2, live - {leaf, par}, root, i)
    {
      assert LinkedAt(ns, live, root, i);
      UnsplicedLinkedAt(ns, ns2, live, root, leaf, par, sib, gp, i);
    }
  }

  /** The grandparent and its ancestors all stand higher than the removed pair and the sibling. */
  lemma UnsplicedPathAbove(ns: seq<Node>, live: set<int>, root: int,
                           leaf: int, par: int, sib: int, gp: int, k: int)
    requires WellFormed(ns, live, root) && Family(ns, live, leaf, par, sib, gp) && gp != NIL
    requires ns[gp].height > ns[par].height
    requires 0 <= k < |PathToRoot(ns, live, root, gp)|
    ensures var x := PathToRoot(ns, live, root, gp)[k]; x != leaf && x != par && x != sib
  {
    var path := PathToRoot(ns, live, root, gp);
    assert FittedAt(ns, par);
    if k > 0 {
      AscendingDistinct(ns, path);
      assert ns[path[0]].height < ns[path[k]].height;
    }
  }

  lemma UnsplicedFittedAt(ns: seq<Node>, ns2: seq<Node>, par: int, sib: int, gp: int, i: int)
    requires 0 <= par < |ns| && 0 <= sib < |ns| && 0 <= gp < |ns| && Unspliced(ns, ns2, par, sib, gp)
    requires 0 <= i < |ns| && i != gp && FittedAt(ns, i)
    ensures FittedAt(ns2, i)
  {
  }

  /** The path from an internal node to the root is an up-path. */
  lemma InternalUpPath(ns: seq<Node>, live: set<int>, root: int, x: int)
    requires WellFormed(ns, live, root) && x in live && ns[x].left != NIL
    ensures UpPath(ns, live, PathToRoot(ns, live, root, x))
  {
    var p := PathToRoot(ns, live, root, x);
    AncestorsUpPath(ns, live, root, x);
    AscendingDistinct(ns, p);
    assert LinkedAt(ns, live, root, x);
    assert x !in p[1..];
    UpPathCons(ns, live, x, p[1..]);
    assert [x] + p[1..] == p;
  }

  lemma UnsplicedUpPath(ns: seq<Node>, ns2: seq<Node>, live: set<int>, root: int,
                        leaf: int, par: int, sib: int, gp: int)
    requires WellFormed(ns, live, root) && Family(ns, live, leaf, par, sib, gp) && gp != NIL
    requires ns[gp].height > ns[par].height
    requires Unspliced(ns, ns2, par, sib, gp)
    ensures UpPath(ns2, live - {leaf, par}, PathToRoot(ns, live, root, gp))
  {
    var path := PathToRoot(ns, live, root, gp);
    assert LinkedAt(ns, live, root, gp);
    InternalUpPath(ns, live, root, gp);
    forall k | 0 <= k < |path|
      ensures path[k] in live - {leaf, par} && ns2[path[k]].parent == ns[path[k]].parent && ns2[path[k]].left != NIL
    {
      UnsplicedPathAbove(ns, live, root, leaf, par, sib, gp, k);
    }
    UpPathTransfer(ns, ns2, live, live - {leaf, par}, path);
  }

  lemma UnsplicedFitted(ns: seq<Node>, ns2: seq<Node>, live: set<int>, root: int,
                        leaf: int, par: int, sib: int, gp: int)
    requires WellFormed(ns, live, root) && gp != NIL && 0 <= par < |ns| && 0 <= sib < |ns| && gp in live
    requires 0 <= gp < |ns| && Unspliced(ns, ns2, par, sib, gp)
    ensures FittedOutside(ns2, live - {leaf, par}, PathToRoot(ns, live, root, gp))
  {
    var path := PathToRoot(ns, live, root, gp);
    forall i | i in live - {leaf, par} && i !in path
      ensures FittedAt(ns2, i)
    {
      assert FittedAt(ns, i);
      UnsplicedFittedAt(ns, ns2, par, sib, gp, i);
    }
  }

  lemma UnsplicedLeaves(ns: seq<Node>, ns2: seq<Node>, live: set<int>, root: int,
                        leaf: int, par: int, sib: int, gp: int)
    requires Family(ns, live, leaf, par, sib, gp) && gp != NIL && Unspliced(ns, ns2, par, sib, gp)
    ensures LeafSet(ns2, live - {leaf, par}) == LeafSet(ns, live) - {leaf}
    ensures LeafBoxes(ns2, live - {leaf, par}) == LeafBoxes(ns, live) - {leaf}
    ensures LeafPieces(ns2, live - {leaf, par}) == LeafPieces(ns, live) - {leaf}
  {
    assert LeafSet(ns2, live - {leaf, par}) == LeafSet(ns, live) - {leaf};
  }

  lemma RootRemovedLinkedAt(ns: seq<Node>, live: set<int>, root: int, leaf: int, par: int, sib: int,
                             ns2: seq<Node>, i: int)
    requires Family(ns, live, leaf, par, sib, NIL) && root == par
    requires ns2 == ns[sib := ns[sib].(parent := NIL)]
    requires i in live - {leaf, par} && LinkedAt(ns, live, root, i)
    ensures LinkedAt(ns2, live - {leaf, par}, sib, i)
  {
    if ns[i].left != NIL {
      assert ns[i].left != par && ns[i].right != par && ns[i].left != leaf && ns[i].right != leaf;
    }
  }

  /** Removing a leaf whose parent is the root makes the sibling the whole tree. */
  lemma SiblingBecomesRoot(ns: seq<Node>, live: set<int>, root: int, leaf: int, par: int, sib: int, ns2: seq<Node>)
    requires WellFormed(ns, live, root) && Family(ns, live, leaf, par, sib, NIL)
    requires ns2 == ns[sib := ns[sib].(parent := NIL)]
    ensures WellFormed(ns2, live - {leaf, par}, sib)
    ensures LeafSet(ns2, live - {leaf, par}) == LeafSet(ns, live) - {leaf}
    ensures LeafBoxes(ns2, live - {leaf, par}) == LeafBoxes(ns, live) - {leaf}
    ensures LeafPieces(ns2, live - {leaf, par}) == LeafPieces(ns, live) - {leaf}
  {
    SiblingRootLinked(ns, live, root, leaf, par, sib, ns2);
    forall i | i in live - {leaf, par}
      ensures FittedAt(ns2, i)
    {
      assert FittedAt(ns, i);
    }
    assert LeafSet(ns2, live - {leaf, par}) == LeafSet(ns, live) - {leaf};
  }

  lemma SiblingRootLinked(ns: seq<Node>, live: set<int>, root: int, leaf: int, par: int, sib: int, ns2: seq<Node>)
    requires Linked(ns, live, root) && Family(ns, live, leaf, par, sib, NIL)
    requires ns2 == ns[sib := ns[sib].(parent := NIL)]
    ensures Linked(ns2, live - {leaf, par}, sib)
  {
    assert sib in live - {leaf, par};
    assert LinkedAt(ns, live, root, par);
    forall i | i in live - {leaf, par}
      ensures LinkedAt(ns2, live - {leaf, par}, sib, i)
    {
      assert LinkedAt(ns, live, root, i);
      RootRemovedLinkedAt(ns, live, root, leaf, par, sib, ns2, i);
    }
  }

  /** Everything the splice of `insertLeaf` (bvh.js:114-131) leaves true of the arena. */
  lemma SpliceCorrect(ns: seq<Node>, live: set<int>, root: int, walk: int, leaf: int, np: int,
                      box: AABB, ns1: seq<Node>, ns2: seq<Node>, root2: int)
    requires WellFormed(ns, live, root) && walk in live && leaf == |ns| && np == |ns| + 1
    requires ns1 == (ns + [Node(box, np, NIL, NIL, 0, NIL),
                           Node(Combine(box, ns[walk].aabb), ns[walk].parent, walk, leaf, ns[walk].height + 1, NIL)])
                    [walk := ns[walk].(parent := np)]
    requires ns[walk].parent == NIL ==> ns2 == ns1 && root2 == np
    requires ns[walk].parent != NIL ==>
      (0 <= ns[walk].parent < |ns| && root2 == root &&
       ns2 == ns1[ns[walk].parent := SpliceSlot(ns[ns[walk].parent], walk, np)])
    ensures |ns2| == |ns| + 2
    ensures Linked(ns2, live + {leaf, np}, root2)
    ensures UpPath(ns2, live + {leaf, np}, [np] + PathToRoot(ns, live, root, walk)[1..])
    ensures FittedOutside(ns2, live + {leaf, np}, [np] + PathToRoot(ns, live, root, walk)[1..])
    ensures LeafSet(ns2, live + {leaf, np}) == LeafSet(ns, live) + {leaf}
    ensures LeafBoxes(ns2, live + {leaf, np}) == LeafBoxes(ns, live)[leaf := box]
    ensures LeafPieces(ns2, live + {leaf, np}) == LeafPieces(ns, live)[leaf := NIL]
  {
    assert LinkedAt(ns, live, root, walk);
    if ns[walk].parent != NIL {
      ParentHigher(ns, live, root, walk);
    }
    assert Spliced(ns, ns2, root, root2, walk, leaf, np, box);
    SplicedLinked(ns, ns2, live, root, root2, walk, leaf, np, box);
    SplicedUpPath(ns, ns2, live, root, root2, walk, leaf, np, box);
    SplicedFitted(ns, ns2, live, root, root2, walk, leaf, np, box);
    SplicedLeaves(ns, ns2, live, root, root2, walk, leaf, np, box);
  }

  /** The first leaf of an empty tree becomes its root. */
  lemma FirstLeaf(ns: seq<Node>, live: set<int>, root: int, box: AABB)
    requires WellFormed(ns, live, root) && root == NIL
    ensures WellFormed(ns + [Node(box, NIL, NIL, NIL, 0, NIL)], {|ns|}, |ns|)
    ensures LeafSet(ns, live) == {}
    ensures LeafSet(ns + [Node(box, NIL, NIL, NIL, 0, NIL)], {|ns|}) == {|ns|}
    ensures LeafBoxes(ns + [Node(box, NIL, NIL, NIL, 0, NIL)], {|ns|}) == LeafBoxes(ns, live)[|ns| := box]
    ensures LeafPieces(ns + [Node(box, NIL, NIL, NIL, 0, NIL)], {|ns|}) == LeafPieces(ns, live)[|ns| := NIL]
  {
    var ns2 := ns + [Node(box, NIL, NIL, NIL, 0, NIL)];
    assert LinkedAt(ns2, {|ns|}, |ns|, |ns|);
    assert LeafSet(ns2, {|ns|}) == {|ns|};
  }

  /** Everything the unlinking of `removeLeaf` (bvh.js:147-158) leaves true of the arena. */
  lemma UnspliceCorrect(ns: seq<Node>, live: set<int>, root: int, leaf: int, par: int, sib: int, gp: int,
                        ns2: seq<Node>)
    requires WellFormed(ns, live, root) && Family(ns, live, leaf, par, sib, gp) && gp != NIL
    requires ns[gp].height > ns[par].height
    requires ns2 == ns[gp := SpliceSlot(ns[gp], par, sib)][sib := ns[sib].(parent := gp)]
    ensures |ns2| == |ns|
    ensures Linked(ns2, live - {leaf, par}, root)
    ensures UpPath(ns2, live - {leaf, par}, PathToRoot(ns, live, root, gp))
    ensures FittedOutside(ns2, live - {leaf, par}, PathToRoot(ns, live, root, gp))
    ensures PathToRoot(ns, live, root, gp)[0] == gp
    ensures LeafSet(ns2, live - {leaf, par}) == LeafSet(ns, live) - {leaf}
    ensures LeafBoxes(ns2, live - {leaf, par}) == LeafBoxes(ns, live) - {leaf}
    ensures LeafPieces(ns2, live - {leaf, par}) == LeafPieces(ns, live) - {leaf}
  {
    assert Unspliced(ns, ns2, par, sib, gp);
    UnsplicedLinked(ns, ns2, live, root, leaf, par, sib, gp);
    UnsplicedUpPath(ns, ns2, live, root, leaf, par, sib, gp);
    UnsplicedFitted(ns, ns2, live, root, leaf, par, sib, gp);
    UnsplicedLeaves(ns, ns2, live, root, leaf, par, sib, gp);
  }

  /** Removing the only leaf empties the tree. */
  lemma LastLeaf(ns: seq<Node>, live: set<int>, root: int)
    requires WellFormed(ns, live, root) && live == {root} && root != NIL
    ensures WellFormed(ns, {}, NIL)
    ensures LeafSet(ns, {}) == LeafSet(ns, live) - {root}
    ensures LeafBoxes(ns, {}) == LeafBoxes(ns, live) - {root}
    ensures LeafPieces(ns, {}) == LeafPieces(ns, live) - {root}
  {
    assert LeafSet(ns, live) <= {root};
    assert LeafSet(ns, {}) == {};
  }

  /** Setting a leaf's payload changes nothing else. */
  lemma PieceSet(ns: seq<Node>, live: set<int>, root: int, leaf: int, piece: int)
    requires WellFormed(ns, live, root) && leaf in LeafSet(ns, live)
    ensures WellFormed(ns[leaf := ns[leaf].(piece := piece)], live, root)
    ensures LeafSet(ns[leaf := ns[leaf].(piece := piece)], live) == LeafSet(ns, live)
    ensures LeafBoxes(ns[leaf := ns[leaf].(piece := piece)], live) == LeafBoxes(ns, live)
    ensures LeafPieces(ns[leaf := ns[leaf].(piece := piece)], live) == LeafPieces(ns, live)[leaf := piece]
  {
    var ns2 := ns[leaf := ns[leaf].(piece := piece)];
    LinksKept(ns, ns2, live, root);
    forall i | i in live
      ensures FittedAt(ns2, i)
    {
      assert FittedAt(ns, i);
    }
    assert LeafSet(ns2, live) == LeafSet(ns, live);
  }

  /** Popping an internal node whose box meets the query replaces it by its two children. */
  lemma QueryDescend(ns: seq<Node>, live: set<int>, root: int, s: seq<int>, top: int)
    requires WellFormed(ns, live, root) && StackEntries(live, s) && top in live && !IsLeaf(ns[top])
    requires StackDisjoint(ns, live, root, s) && StackLeaves(ns, live, root, s) !! Under(ns, live, root, top)
    ensures ns[top].left in live && ns[top].right in live
    ensures StackEntries(live, s + [ns[top].left, ns[top].right])
    ensures StackDisjoint(ns, live, root, s + [ns[top].left, ns[top].right])
    ensures StackLeaves(ns, live, root, s + [ns[top].left, ns[top].right]) ==
            StackLeaves(ns, live, root, s) + Under(ns, live, root, top)
    ensures StackWeight(ns, live, root, s + [ns[top].left, ns[top].right]) + 1 ==
            StackWeight(ns, live, root, s) + Weight(ns, live, root, top)
  {
    SiblingsDisjoint(ns, live, root, top);
    var l, r := ns[top].left, ns[top].right;
    assert LinkedAt(ns, live, root, top) && FittedAt(ns, top);
    StackPush2Leaves(ns, live, root, s, l, r);
    StackPush2Weight(ns, live, root, s, l, r);
  }

  /** Popping a leaf whose box meets the query pushes its two absent children. */
  lemma QueryAtLeaf(ns: seq<Node>, live: set<int>, root: int, s: seq<int>, top: int)
    requires WellFormed(ns, live, root) && StackEntries(live, s) && top in live && IsLeaf(ns[top])
    requires StackDisjoint(ns, live, root, s)
    ensures ns[top].left == NIL && ns[top].right == NIL
    ensures StackEntries(live, s + [NIL, NIL])
    ensures StackDisjoint(ns, live, root, s + [NIL, NIL])
    ensures StackLeaves(ns, live, root, s + [NIL, NIL]) == StackLeaves(ns, live, root, s)
    ensures StackWeight(ns, live, root, s + [NIL, NIL]) + 1 ==
            StackWeight(ns, live, root, s) + Weight(ns, live, root, top)
  {
    assert LinkedAt(ns, live, root, top);
    StackPush2Leaves(ns, live, root, s, NIL, NIL);
    StackPush2Weight(ns, live, root, s, NIL, NIL);
  }

  ghost predicate NoDuplicates(s: seq<int>) {
    forall j, k | 0 <= j < k < |s| :: s[j] != s[k]
  }

  lemma AppendFresh(s: seq<int>, x: int)
    requires NoDuplicates(s) && x !in s
    ensures NoDuplicates(s + [x])
  {
  }

  /** Popping the top entry of a query stack. */
  lemma QueryPop(ns: seq<Node>, live: set<int>, root: int, s: seq<int>)
    requires WellFormed(ns, live, root) && StackEntries(live, s) && StackDisjoint(ns, live, root, s) && |s| > 0
    ensures var s', top := s[..|s| - 1], s[|s| - 1];
      (top == NIL || top in live) && StackEntries(live, s') && StackDisjoint(ns, live, root, s') &&
      StackLeaves(ns, live, root, s) == StackLeaves(ns, live, root, s') + Below(ns, live, root, top) &&
      StackLeaves(ns, live, root, s') !! Below(ns, live, root, top) &&
      StackWeight(ns, live, root, s) == StackWeight(ns, live, root, s') + Weight(ns, live, root, top)
  {
  }

  /** The stack `query` starts from holds every leaf below the root. */
  lemma QueryStart(ns: seq<Node>, live: set<int>, root: int)
    requires WellFormed(ns, live, root)
    ensures StackEntries(live, [root]) && StackDisjoint(ns, live, root, [root])
    ensures StackLeaves(ns, live, root, [root]) == LeafSet(ns, live)
  {
    assert [root][..0] == [];
    if root != NIL {
      UnderRoot(ns, live, root);
    } else {
      assert LeafSet(ns, live) == {};
    }
  }

  /**
   * The cost of sending the new leaf with box `box` down into `child`
   * (bvh.js:85-101): the perimeter of the merged box for a leaf, the growth
   * of the child's perimeter otherwise, plus what the ancestors inherit.
   */
  function DescentCost(box: AABB, child: Node, inheritanceCost: real): (cost: real)
    ensures (Proper(box) || !IsLeaf(child)) ==> cost >= inheritanceCost
  {
    if IsLeaf(child) then
      CombineProperCost(box, child.aabb);
      Perimeter(Combine(box, child.aabb)) + inheritanceCost
    else
      Perimeter(Combine(box, child.aabb)) - Perimeter(child.aabb) + inheritanceCost
  }

  lemma CombineProperCost(a: AABB, b: AABB)
    ensures Proper(a) ==> Perimeter(Combine(a, b)) >= 0.0
  {
    if Proper(a) {
      CombineProper(a, b);
    }
  }

  // ---------------------------------------------------------------------------
  // The tree
  // ---------------------------------------------------------------------------

  class Tree {
    var count: int
    var root: int
    var nodes: seq<Node>
    ghost var Live: set<int>

    ghost predicate Valid()
      reads this
    {
      WellFormed(nodes, Live, root) && count == |LeafSet(nodes, Live)|
    }

    /** The leaves of the tree (the nodes `insert` returned and `remove` has not taken). */
    ghost function Leaves(): set<int>
      reads this
    {
      LeafSet(nodes, Live)
    }

    /** The box of each leaf. */
    ghost function Boxes(): map<int, AABB>
      reads this
    {
      LeafBoxes(nodes, Live)
    }

    /** The payload of each leaf. */
    ghost function Pieces(): map<int, int>
      reads this
    {
      LeafPieces(nodes, Live)
    }

    constructor ()
      ensures Valid() && Leaves() == {} && root == NIL && count == 0 && nodes == []
    {
      count := 0;
      root := NIL;
      nodes := [];
      Live := {};
    }

    /**
     * The two rotations of `balance` (bvh.js:179-252), which mirror each other.
     * The child `t` of `a` on `side` (1: the second child, bvh.js:179-215;
     * 0: the first child, bvh.js:216-252) takes `a`'s place under `a`'s parent.
     * `a` becomes `t`'s first child; `t` keeps its taller child and hands the
     * other one to `a`, in the slot `t` left. Heights are those of the children
     * (README, Findings, describes the heights bvh.js:240-241 store instead).
     */
    method Rotate(a: int, side: int, ghost path: seq<int>) returns (t: int)
      requires side == 0 || side == 1
      requires Linked(nodes, Live, root) && UpPath(nodes, Live, path) && |path| > 0 && path[0] == a
      requires FittedOutside(nodes, Live, path)
      requires var c := if side == 0 then nodes[a].left else nodes[a].right;
        0 <= c < |nodes| && nodes[c].left != NIL
      modifies this
      ensures Live == old(Live) && count == old(count) && |nodes| == old(|nodes|)
      ensures t == (if side == 0 then old(nodes[a].left) else old(nodes[a].right))
      ensures 0 <= t < |nodes| && nodes[t].left == a && nodes[a].parent == t && FittedAt(nodes, a)
      ensures var tl, tr := old(nodes)[t].left, old(nodes)[t].right;
        0 <= tl < |nodes| && 0 <= tr < |nodes| &&
        var stay := if old(nodes)[tl].height > old(nodes)[tr].height then tl else tr;
        var move := if stay == tl then tr else tl;
        nodes[t].right == stay &&
        if side == 0 then nodes[a].left == move && nodes[a].right == old(nodes[a].right)
        else nodes[a].right == move && nodes[a].left == old(nodes[a].left)
      ensures Linked(nodes, Live, root) && UpPath(nodes, Live, [t] + path[1..])
      ensures FittedOutside(nodes, Live, [t] + path[1..])
      ensures LeafSet(nodes, Live) == old(LeafSet(nodes, Live))
      ensures LeafBoxes(nodes, Live) == old(LeafBoxes(nodes, Live))
      ensures LeafPieces(nodes, Live) == old(LeafPieces(nodes, Live))
    {
      var ns := nodes;
      var na := ns[a];
      assert LinkedAt(ns, Live, root, a);
      var kept;
      if side == 0 {
        t, kept := na.left, na.right;
      } else {
        t, kept := na.right, na.left;
      }
      assert LinkedAt(ns, Live, root, t);
      var nt := ns[t];
      var stay, move := nt.right, nt.left;
      if ns[nt.left].height > ns[nt.right].height {
        stay, move := nt.left, nt.right;
      }
      var p := na.parent;
      var na' := if side == 0 then na.(parent := t, left := move) else na.(parent := t, right := move);
      na' := na'.(aabb := Combine(ns[kept].aabb, ns[move].aabb),
                  height := MaxInt(ns[kept].height, ns[move].height) + 1);
      var nt' := nt.(parent := p, left := a, right := stay,
                     aabb := Combine(na'.aabb, ns[stay].aabb),
                     height := MaxInt(na'.height, ns[stay].height) + 1);
      var ns1 := ns[a := na'][t := nt'][move := ns[move].(parent := a)];
      var ns2, root2 := ns1, root;
      if p != NIL {
        ns2 := ns1[p := SpliceSlot(ns[p], a, t)];
      } else {
        root2 := t;
      }
      RotationCorrect(ns, Live, root, path, side, a, t, kept, stay, move, na', nt', ns1, ns2, root2);
      nodes, root := ns2, root2;
    }

    /**
     * AABBTree.balance (bvh.js:170-254): a node whose stored height is at
     * least 2 and whose children's heights differ by more than one is rotated;
     * the node now in its place is returned.
     */
    method Balance(a: int, ghost path: seq<int>) returns (top: int)
      requires Linked(nodes, Live, root) && UpPath(nodes, Live, path) && |path| > 0 && path[0] == a
      requires FittedOutside(nodes, Live, path)
      modifies this
      ensures Live == old(Live) && count == old(count) && |nodes| == old(|nodes|)
      ensures top == a || top == old(nodes[a].left) || top == old(nodes[a].right)
      ensures var l, r := old(nodes[a].left), old(nodes[a].right);
        if l == NIL || old(nodes[a].height) < 2 then top == a && nodes == old(nodes) && root == old(root)
        else
          0 <= l < |nodes| && 0 <= r < |nodes| &&
          var balance := old(nodes[r].height - nodes[l].height);
          if balance > 1 then top == r
          else if balance < -1 then top == l
          else top == a && nodes == old(nodes) && root == old(root)
      ensures Linked(nodes, Live, root) && UpPath(nodes, Live, [top] + path[1..])
      ensures FittedOutside(nodes, Live, [top] + path[1..])
      ensures LeafSet(nodes, Live) == old(LeafSet(nodes, Live))
      ensures LeafBoxes(nodes, Live) == old(LeafBoxes(nodes, Live))
      ensures LeafPieces(nodes, Live) == old(LeafPieces(nodes, Live))
    {
      var na := nodes[a];
      if na.left == NIL || na.height < 2 {
        assert [a] + path[1..] == path;
        return a;
      }
      var b, c := na.left, na.right;
      assert LinkedAt(nodes, Live, root, a);
      OffPath(nodes, Live, path, b);
      OffPath(nodes, Live, path, c);
      assert FittedAt(nodes, b) && FittedAt(nodes, c);
      var balance := nodes[c].height - nodes[b].height;
      if balance > 1 {
        top := Rotate(a, 1, path);
        return;
      }
      if balance < -1 {
        top := Rotate(a, 0, path);
        return;
      }
      assert [a] + path[1..] == path;
      top := a;
    }

    /**
     * The upward loops of insertLeaf (bvh.js:133-137) and removeLeaf
     * (bvh.js:159-164): from `start` to the root, balance each node, then give
     * the node now in its place the box and height of its children.
     */
    method Refit(start: int, ghost path: seq<int>)
      requires Linked(nodes, Live, root) && UpPath(nodes, Live, path) && FittedOutside(nodes, Live, path)
      requires if start == NIL then path == [] else |path| > 0 && path[0] == start
      modifies this
      ensures WellFormed(nodes, Live, root)
      ensures Live == old(Live) && count == old(count) && |nodes| == old(|nodes|)
      ensures LeafSet(nodes, Live) == old(LeafSet(nodes, Live))
      ensures LeafBoxes(nodes, Live) == old(LeafBoxes(nodes, Live))
      ensures LeafPieces(nodes, Live) == old(LeafPieces(nodes, Live))
    {
      var walk := start;
      ghost var rest := path;
      while walk != NIL
        invariant Linked(nodes, Live, root) && UpPath(nodes, Live, rest) && FittedOutside(nodes, Live, rest)
        invariant if walk == NIL then rest == [] else |rest| > 0 && rest[0] == walk
        invariant Live == old(Live) && count == old(count) && |nodes| == old(|nodes|)
        invariant LeafSet(nodes, Live) == old(LeafSet(nodes, Live))
        invariant LeafBoxes(nodes, Live) == old(LeafBoxes(nodes, Live))
        invariant LeafPieces(nodes, Live) == old(LeafPieces(nodes, Live))
        decreases |rest|
      {
        walk := Balance(walk, rest);
        rest := [walk] + rest[1..];
        Fit(walk, rest);
        walk := nodes[walk].parent;
        rest := rest[1..];
      }
    }

    /** The refit step of the upward loops: node `h` takes the box and height of its children. */
    method Fit(h: int, ghost path: seq<int>)
      requires Linked(nodes, Live, root) && UpPath(nodes, Live, path) && FittedOutside(nodes, Live, path)
      requires |path| > 0 && path[0] == h
      modifies this
      ensures Linked(nodes, Live, root) && UpPath(nodes, Live, path[1..]) && FittedOutside(nodes, Live, path[1..])
      ensures 0 <= h < |nodes| && FittedAt(nodes, h)
      ensures if |path| > 1 then nodes[h].parent == path[1] else nodes[h].parent == NIL
      ensures Live == old(Live) && count == old(count) && |nodes| == old(|nodes|)
      ensures LeafSet(nodes, Live) == old(LeafSet(nodes, Live))
      ensures LeafBoxes(nodes, Live) == old(LeafBoxes(nodes, Live))
      ensures LeafPieces(nodes, Live) == old(LeafPieces(nodes, Live))
    {
      assert LinkedAt(nodes, Live, root, h);
      var n := nodes[h];
      var ns2 := nodes[h := n.(height := MaxInt(nodes[n.left].height, nodes[n.right].height) + 1,
                               aabb := Combine(nodes[n.left].aabb, nodes[n.right].aabb))];
      RefitLinked(nodes, Live, root, h, ns2);
      RefitFitted(nodes, Live, root, path, ns2);
      nodes := ns2;
    }
    /**
     * The descent of insertLeaf (bvh.js:78-112): from the root, stop where
     * pairing with the node is cheaper than going into either child, or at a
     * leaf; otherwise go into the cheaper child (the second one on a tie).
     */
    method FindSibling(box: AABB) returns (walk: int)
      requires WellFormed(nodes, Live, root) && root != NIL
      ensures walk in Live && 0 <= walk < |nodes|
      ensures !IsLeaf(nodes[walk]) ==>
        var w := nodes[walk];
        0 <= w.left < |nodes| && 0 <= w.right < |nodes| &&
        var inheritanceCost := 2.0 * (Perimeter(Combine(box, w.aabb)) - Perimeter(w.aabb));
        Perimeter(Combine(box, w.aabb)) * 2.0 < DescentCost(box, nodes[w.left], inheritanceCost) &&
        Perimeter(Combine(box, w.aabb)) * 2.0 < DescentCost(box, nodes[w.right], inheritanceCost)
    {
      walk := root;
      while !IsLeaf(nodes[walk])
        invariant walk in Live && 0 <= walk < |nodes|
        decreases nodes[walk].height
      {
        var w := nodes[walk];
        assert LinkedAt(nodes, Live, root, walk) && FittedAt(nodes, walk);
        var perimeter := Perimeter(w.aabb);
        var combinedPerimeter := Perimeter(Combine(box, w.aabb));
        var cost := combinedPerimeter * 2.0;
        var inheritanceCost := 2.0 * (combinedPerimeter - perimeter);
        var cost0 := DescentCost(box, nodes[w.left], inheritanceCost);
        var cost1 := DescentCost(box, nodes[w.right], inheritanceCost);
        if cost < cost0 && cost < cost1 {
          return;
        }
        if cost0 < cost1 {
          walk := w.left;
        } else {
          walk := w.right;
        }
      }
    }

    /**
     * AABBTree.insert and insertLeaf (bvh.js:47-51, 70-138): add a leaf with
     * box `box` and return it. The descent picks the sibling by the perimeter
     * cost heuristic; a new internal node replaces the sibling, holding it and
     * the leaf, and the walk back to the root balances and refits.
     */
    method Insert(box: AABB) returns (leaf: int)
      requires Valid()
      modifies this
      ensures Valid() && count == old(count) + 1
      ensures leaf == old(|nodes|) && leaf !in old(Leaves())
      ensures Leaves() == old(Leaves()) + {leaf}
      ensures Boxes() == old(Boxes())[leaf := box]
      ensures Pieces() == old(Pieces())[leaf := NIL]
    {
      count := count + 1;
      leaf := |nodes|;
      assert leaf !in Leaves() && count == |Leaves() + {leaf}|;
      if root == NIL {
        FirstLeaf(nodes, Live, root, box);
        nodes := nodes + [Node(box, NIL, NIL, NIL, 0, NIL)];
        Live := {leaf};
        root := leaf;
        return;
      }
      var walk := FindSibling(box);
      var np;
      ghost var up;
      leaf, np, up := Splice(walk, box);
      Refit(np, [np] + up);
    }

    /**
     * The splice of insertLeaf (bvh.js:114-131): a new leaf holding `box` and
     * a new internal node that takes `walk`'s place under `walk`'s parent (or
     * as the root) with `walk` and the leaf as its children. The new node and
     * the ancestors of `walk` are left for the refit walk.
     */
    method Splice(walk: int, box: AABB) returns (leaf: int, np: int, ghost up: seq<int>)
      requires WellFormed(nodes, Live, root) && walk in Live
      modifies this
      ensures leaf == old(|nodes|) && np == leaf + 1 && count == old(count)
      ensures Live == old(Live) + {leaf, np}
      ensures Linked(nodes, Live, root) && UpPath(nodes, Live, [np] + up)
      ensures FittedOutside(nodes, Live, [np] + up)
      ensures Leaves() == old(Leaves()) + {leaf}
      ensures Boxes() == old(Boxes())[leaf := box]
      ensures Pieces() == old(Pieces())[leaf := NIL]
    {
      leaf := |nodes|;
      var op := nodes[walk].parent;
      np := leaf + 1;
      up := PathToRoot(nodes, Live, root, walk)[1..];
      var ns1 := (nodes + [Node(box, np, NIL, NIL, 0, NIL),
                           Node(Combine(box, nodes[walk].aabb), op, walk, leaf, nodes[walk].height + 1, NIL)])
                 [walk := nodes[walk].(parent := np)];
      var ns, root2 := ns1, root;
      if op != NIL {
        assert LinkedAt(nodes, Live, root, walk);
        ns := ns1[op := SpliceSlot(nodes[op], walk, np)];
      } else {
        root2 := np;
      }
      SpliceCorrect(nodes, Live, root, walk, leaf, np, box, ns1, ns, root2);
      nodes, root, Live := ns, root2, Live + {leaf, np};
    }

    /**
     * AABBTree.remove and removeLeaf (bvh.js:52-54, 139-169): take out a
     * leaf. Its sibling takes its parent's place; the walk from the
     * grandparent to the root balances and refits.
     */
    method Remove(leaf: int)
      requires Valid() && leaf in Leaves()
      modifies this
      ensures Valid() && count == old(count) - 1 && |nodes| == old(|nodes|)
      ensures Leaves() == old(Leaves()) - {leaf}
      ensures Boxes() == old(Boxes()) - {leaf}
      ensures Pieces() == old(Pieces()) - {leaf}
    {
      count := count - 1;
      if leaf == root {
        LeafRootAlone(nodes, Live, root);
        LastLeaf(nodes, Live, root);
        root := NIL;
        Live := {};
        return;
      }
      ghost var par, sib, gp := FamilyOf(nodes, Live, root, leaf);
      var parent := nodes[leaf].parent;
      var grandParent := nodes[parent].parent;
      var sibling := if nodes[parent].left == leaf then nodes[parent].right else nodes[parent].left;
      if grandParent != NIL {
        ghost var path := PathToRoot(nodes, Live, root, grandParent);
        var ns := nodes[grandParent := SpliceSlot(nodes[grandParent], parent, sibling)];
        ns := ns[sibling := nodes[sibling].(parent := grandParent)];
        UnspliceCorrect(nodes, Live, root, leaf, parent, sibling, grandParent, ns);
        nodes, Live := ns, Live - {leaf, parent};
        Refit(grandParent, path);
      } else {
        var ns := nodes[sibling := nodes[sibling].(parent := NIL)];
        SiblingBecomesRoot(nodes, Live, root, leaf, parent, sibling, ns);
        nodes, root, Live := ns, sibling, Live - {leaf, parent};
      }
    }

    /**
     * AABBTree.query (bvh.js:55-69): the leaves whose boxes meet `q`, in the
     * order the stack search reports them. `self` stands for the node whose
     * box is the very object `q` (NIL when there is none): the search skips it.
     */
    method Query(q: AABB, self: int) returns (hits: seq<int>)
      requires Valid() && (self == NIL || self in Leaves())
      ensures (set l | l in hits) == Hits(nodes, Live, q, self)
      ensures NoDuplicates(hits)
    {
      ghost var all := Hits(nodes, Live, q, self);
      ghost var found: set<int> := {};
      QueryStart(nodes, Live, root);
      var stack := [root];
      hits := [];
      while |stack| > 0
        invariant StackEntries(Live, stack) && StackDisjoint(nodes, Live, root, stack)
        invariant forall l :: l in hits <==> l in found
        invariant found <= all && all <= found + StackLeaves(nodes, Live, root, stack)
        invariant found !! StackLeaves(nodes, Live, root, stack)
        invariant NoDuplicates(hits)
        decreases StackWeight(nodes, Live, root, stack), |stack|
      {
        QueryPop(nodes, Live, root, stack);
        var top := stack[|stack| - 1];
        stack := stack[..|stack| - 1];
        if top == NIL || top == self {
          continue;
        }
        var n := nodes[top];
        if Test(n.aabb, q) {
          if IsLeaf(n) {
            QueryAtLeaf(nodes, Live, root, stack, top);
            assert top in Below(nodes, Live, root, top);
            AppendFresh(hits, top);
            hits := hits + [top];
            found := found + {top};
          } else {
            QueryDescend(nodes, Live, root, stack, top);
          }
          stack := stack + [n.left, n.right];
        } else {
          MissPrunes(nodes, Live, root, top, q, self);
        }
      }
      assert (set l | l in hits) == found;
    }

    /** `node.piece = piece` in BVH.insert (bvh.js:276): attach a payload to a leaf. */
    method SetPiece(leaf: int, piece: int)
      requires Valid() && leaf in Leaves()
      modifies this
      ensures Valid() && count == old(count) && |nodes| == old(|nodes|)
      ensures Leaves() == old(Leaves()) && Boxes() == old(Boxes())
      ensures Pieces() == old(Pieces())[leaf := piece]
    {
      PieceSet(nodes, Live, root, leaf, piece);
      nodes := nodes[leaf := nodes[leaf].(piece := piece)];
    }
  }
}
