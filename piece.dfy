/**
 * Pieces and groups (src/logic/framework/piece.js).
 *
 * Every piece founds a group object when it is made, so the groups are kept
 * in an arena indexed like the pieces: group g is the group founded by piece
 * g, and its id is g. A piece's `group` field is the index of the group it
 * points at. A group that has been absorbed by a join stays in the arena
 * with the member list it had then; no piece points at it any more.
 * Orientations are quarter-turns 0..3 (the radian getter and setter of the
 * renderable round-trip on these values).
 */
module Pieces {
  import AabbTree

  datatype Pos = Pos(x: real, y: real)

  function Add(a: Pos, b: Pos): Pos { Pos(a.x + b.x, a.y + b.y) }

  function Neg(a: Pos): Pos { Pos(-a.x, -a.y) }

  /** A quarter-turn counter-clockwise. */
  function Turn(p: Pos): Pos { Pos(-p.y, p.x) }

  /** `k` quarter-turns, one after the other. */
  function Turns(k: nat, p: Pos): Pos {
    if k == 0 then p else Turn(Turns(k - 1, p))
  }

  /** The table quickRotate: entry k turns a point by k quarter-turns and keeps its length. */
  function QuickRotate(k: int, p: Pos): Pos
    requires 0 <= k < 4
  {
    if k == 0 then p
    else if k == 1 then Pos(-p.y, p.x)
    else if k == 2 then Pos(-p.x, -p.y)
    else Pos(p.y, -p.x)
  }

  /** Every entry of the table keeps the length of a point. */
  lemma QuickRotateNorm(k: int, p: Pos)
    requires 0 <= k < 4
    ensures var r := QuickRotate(k, p); r.x * r.x + r.y * r.y == p.x * p.x + p.y * p.y
  {
  }

  /** Entry k of the table is k quarter-turns. */
  lemma QuickRotateTurns(k: int, p: Pos)
    requires 0 <= k < 4
    ensures QuickRotate(k, p) == Turns(k, p)
  {
  }

  /** Entry (4 - k) % 4 undoes entry k (the shadow offset relies on this). */
  lemma QuickRotateUndo(k: int, p: Pos)
    requires 0 <= k < 4
    ensures QuickRotate((4 - k) % 4, QuickRotate(k, p)) == p
  {
  }

  /** Every entry is linear: it maps sums to sums and negation to negation. */
  lemma QuickRotateLinear(k: int, a: Pos, b: Pos)
    requires 0 <= k < 4
    ensures QuickRotate(k, Add(a, b)) == Add(QuickRotate(k, a), QuickRotate(k, b))
    ensures QuickRotate(k, Neg(a)) == Neg(QuickRotate(k, a))
  {
  }

  /**
   * A piece: its id, its place (px, py) in the grid, its size in world
   * units, whether it lies on the border of the picture, and its live state.
   */
  datatype Piece = Piece(
    id: int, px: int, py: int, w: real, h: real, isEdge: bool,
    grabbed: bool, group: int, x: real, y: real, orientation: int, zIndex: int)

  function Abs(n: int): nat { if n < 0 then -n else n }

  /** Piece.isNeighbor: the grid positions are one step apart. */
  function IsNeighbor(a: Piece, b: Piece): (r: bool)
    ensures r <==> (a.px == b.px && Abs(a.py - b.py) == 1) || (a.py == b.py && Abs(a.px - b.px) == 1)
  {
    Abs(a.px - b.px) + Abs(a.py - b.py) == 1
  }

  /** Being neighbours is symmetric, and no piece neighbours a piece at its own grid position. */
  lemma NeighborSymmetricIrreflexive(a: Piece, b: Piece)
    ensures IsNeighbor(a, b) == IsNeighbor(b, a)
    ensures a.px == b.px && a.py == b.py ==> !IsNeighbor(a, b)
  {
  }

  /** The grid offset from `p` to `other`, in world units, before the turn. */
  function GridOffset(p: Piece, other: Piece): Pos {
    Pos((other.px - p.px) as real * p.w, -((other.py - p.py) as real * p.h))
  }

  /**
   * Piece.getConnectedPosition: where `other` belongs when it is joined to
   * `p` — the grid offset turned by p's orientation, from p's position.
   */
  function ConnectedPosition(p: Piece, other: Piece): (c: Pos)
    requires 0 <= p.orientation < 4
    ensures c == Add(Pos(p.x, p.y), QuickRotate(p.orientation, GridOffset(p, other)))
    ensures other.px == p.px && other.py == p.py ==> c == Pos(p.x, p.y)
  {
    var offset := QuickRotate(p.orientation, GridOffset(p, other));
    Pos(p.x + offset.x, p.y + offset.y)
  }

  /** `q` sits where `p` puts it. */
  predicate Aligned(p: Piece, q: Piece) {
    0 <= p.orientation < 4 && Pos(q.x, q.y) == ConnectedPosition(p, q)
  }

  predicate SameShape(p: Piece, q: Piece) {
    p.orientation == q.orientation && p.w == q.w && p.h == q.h
  }

  /** Pieces of the same shape and turn: if q sits where p puts it, p sits where q puts it. */
  lemma AlignedSymmetric(p: Piece, q: Piece)
    requires SameShape(p, q) && Aligned(p, q)
    ensures Aligned(q, p)
  {
    var k := p.orientation;
    assert GridOffset(q, p) == Neg(GridOffset(p, q));
    QuickRotateLinear(k, GridOffset(p, q), GridOffset(p, q));
  }

  /** The offset from a to b is the offset from r to b less the offset from r to a. */
  lemma OffsetDifference(r: Piece, a: Piece, b: Piece)
    requires a.w == r.w && a.h == r.h
    ensures GridOffset(a, b) == Add(GridOffset(r, b), Neg(GridOffset(r, a)))
  {
    assert (b.px - a.px) as real == (b.px - r.px) as real - (a.px - r.px) as real;
    assert (b.py - a.py) as real == (b.py - r.py) as real - (a.py - r.py) as real;
  }

  /**
   * Two pieces that both sit where a third puts them sit where each other
   * puts them: re-aligning a group on any of its members gives the same
   * picture.
   */
  lemma AlignedThrough(r: Piece, a: Piece, b: Piece)
    requires SameShape(r, a) && SameShape(r, b)
    requires Aligned(r, a) && Aligned(r, b)
    ensures Aligned(a, b)
  {
    OffsetDifference(r, a, b);
    QuickRotateLinear(r.orientation, GridOffset(r, b), Neg(GridOffset(r, a)));
    QuickRotateLinear(r.orientation, GridOffset(r, a), GridOffset(r, a));
  }

  /** A group: its id (its founder's), its members in insertion order, and whether it is frozen. */
  datatype Group = Group(id: int, members: seq<int>, frozen: bool)

  /** new Group(parent): the founder's id, the founder alone, not frozen. */
  function NewGroup(founder: int): (g: Group)
    ensures g.id == founder && founder in g.members && |g.members| == 1 && !g.frozen
  {
    Group(founder, [founder], false)
  }

  /** All pieces and all group objects. */
  datatype Arena = Arena(pieces: seq<Piece>, groups: seq<Group>)

  /** The member list of group g is exactly the set of pieces pointing at g. */
  ghost predicate Exact(a: Arena, g: int) {
    0 <= g < |a.groups| &&
    forall r | 0 <= r < |a.pieces| :: r in a.groups[g].members <==> a.pieces[r].group == g
  }

  /**
   * Piece i is piece number i, has a quarter-turn orientation, and points at
   * a group whose members are exactly the pieces pointing at it and whose
   * founder is one of them.
   */
  ghost predicate PieceOk(a: Arena, i: int)
    requires 0 <= i < |a.pieces|
  {
    var g := a.pieces[i].group;
    a.pieces[i].id == i && 0 <= a.pieces[i].orientation < 4 &&
    0 <= g < |a.pieces| && Exact(a, g) && a.pieces[g].group == g
  }

  /** Group g has id g and lists distinct pieces. */
  ghost predicate GroupOk(a: Arena, g: int)
    requires 0 <= g < |a.groups|
  {
    a.groups[g].id == g && AabbTree.NoDuplicates(a.groups[g].members) &&
    forall k | 0 <= k < |a.groups[g].members| :: 0 <= a.groups[g].members[k] < |a.pieces|
  }

  ghost predicate Wf(a: Arena) {
    |a.groups| == |a.pieces| &&
    (forall i | 0 <= i < |a.pieces| ::
       0 <= a.pieces[i].group < |a.pieces| && 0 <= a.pieces[i].orientation < 4) &&
    (forall i | 0 <= i < |a.pieces| :: PieceOk(a, i)) &&
    (forall g | 0 <= g < |a.groups| :: GroupOk(a, g))
  }

  /** `qs` has the ids and groups of `ps`, and quarter-turn orientations. */
  predicate SameGroups(ps: seq<Piece>, qs: seq<Piece>) {
    |qs| == |ps| &&
    forall i | 0 <= i < |ps| ::
      qs[i].id == ps[i].id && qs[i].group == ps[i].group && 0 <= qs[i].orientation < 4
  }

  /**
   * A change that keeps the group structure (ids, groups, member lists) and
   * quarter-turn orientations keeps the arena well formed.
   */
  lemma WfFrame(a: Arena, b: Arena)
    requires Wf(a) && b.groups == a.groups && SameGroups(a.pieces, b.pieces)
    ensures Wf(b)
  {
    forall i | 0 <= i < |b.pieces|
      ensures PieceOk(b, i)
    {
      assert PieceOk(a, i);
      var g := a.pieces[i].group;
      assert Exact(a, g);
    }
    forall g | 0 <= g < |b.groups|
      ensures GroupOk(b, g)
    {
      assert GroupOk(a, g);
    }
  }

  /** Every piece in its own new group. */
  ghost predicate Fresh(ps: seq<Piece>) {
    forall i | 0 <= i < |ps| :: ps[i].id == i && ps[i].group == i && 0 <= ps[i].orientation < 4
  }

  lemma FreshWf(ps: seq<Piece>)
    requires Fresh(ps)
    ensures Wf(Arena(ps, seq(|ps|, i => NewGroup(i))))
  {
    var a := Arena(ps, seq(|ps|, i => NewGroup(i)));
    forall i | 0 <= i < |ps|
      ensures PieceOk(a, i)
    {
      assert Exact(a, i);
    }
  }

  // ----- join -----

  /** The pieces of `b` that are not in `a`, in order. */
  function NewOf(a: seq<int>, b: seq<int>): (r: seq<int>)
    ensures |r| <= |b|
  {
    if |b| == 0 then []
    else NewOf(a, b[..|b| - 1]) + (if b[|b| - 1] in a then [] else [b[|b| - 1]])
  }

  lemma {:induction false} NewOfWithin(a: seq<int>, b: seq<int>, x: int)
    requires x in NewOf(a, b)
    ensures x in b && x !in a
  {
    if |b| > 0 {
      var c := b[..|b| - 1];
      if x in NewOf(a, c) {
        NewOfWithin(a, c, x);
        assert x in c;
      }
    }
  }

  lemma {:induction false} NewOfDisjoint(a: seq<int>, b: seq<int>)
    requires forall k | 0 <= k < |b| :: b[k] !in a
    ensures NewOf(a, b) == b
  {
    if |b| > 0 {
      var c := b[..|b| - 1];
      NewOfDisjoint(a, c);
      assert NewOf(a, b) == NewOf(a, c) + [b[|b| - 1]];
      assert b == c + [b[|b| - 1]];
    }
  }

  lemma {:induction false} NewOfContained(a: seq<int>, b: seq<int>)
    requires forall k | 0 <= k < |b| :: b[k] in a
    ensures NewOf(a, b) == []
  {
    if |b| > 0 {
      var c := b[..|b| - 1];
      NewOfContained(a, c);
      assert NewOf(a, b) == NewOf(a, c);
    }
  }

  /** The pieces, with those listed in `ms` pointed at group `s`. */
  function Repointed(ps: seq<Piece>, ms: seq<int>, s: int): (r: seq<Piece>)
    ensures |r| == |ps|
  {
    seq(|ps|, i requires 0 <= i < |ps| => if i in ms then ps[i].(group := s) else ps[i])
  }

  /** One step of the join loop. */
  lemma JoinStep(ps: seq<Piece>, A: seq<int>, B: seq<int>, k: int, s: int)
    requires AabbTree.NoDuplicates(B) && 0 <= k < |B| && 0 <= B[k] < |ps|
    ensures B[k] in A + NewOf(A, B[..k]) <==> B[k] in A
    ensures A + NewOf(A, B[..k + 1]) ==
      if B[k] in A then A + NewOf(A, B[..k]) else A + NewOf(A, B[..k]) + [B[k]]
    ensures Repointed(ps, B[..k], s)[B[k]] == ps[B[k]]
    ensures Repointed(ps, B[..k + 1], s) ==
      Repointed(ps, B[..k], s)[B[k] := ps[B[k]].(group := s)]
  {
    var x := B[k];
    assert B[..k + 1] == B[..k] + [x];
    assert B[..k + 1][..k] == B[..k];
    assert x !in B[..k];
    if x in NewOf(A, B[..k]) {
      NewOfWithin(A, B[..k], x);
    }
  }

  /** The group join keeps: `g` when it is strictly larger, `o` otherwise. */
  function Subsumer(a: Arena, g: int, o: int): int
    requires 0 <= g < |a.groups| && 0 <= o < |a.groups|
  {
    if |a.groups[g].members| > |a.groups[o].members| then g else o
  }

  /**
   * Group.join, `g.join(o)`: the subsumer takes the OR of both frozen flags,
   * lists every piece of the other group not already listed, after its own,
   * and every piece of the other group points at it.
   */
  function JoinSpec(a: Arena, g: int, o: int): Arena
    requires 0 <= g < |a.groups| && 0 <= o < |a.groups|
  {
    var s := Subsumer(a, g, o);
    var d := if s == g then o else g;
    var A := a.groups[s].members;
    var B := a.groups[d].members;
    Arena(Repointed(a.pieces, B, s),
          a.groups[s := Group(a.groups[s].id, A + NewOf(A, B), a.groups[s].frozen || a.groups[d].frozen)])
  }

  lemma JoinSpecIs(a: Arena, g: int, o: int, s: int, d: int)
    requires 0 <= g < |a.groups| && 0 <= o < |a.groups|
    requires s == Subsumer(a, g, o) && d == if s == g then o else g
    requires a.groups[s].id == s
    ensures JoinSpec(a, g, o) ==
      Arena(Repointed(a.pieces, a.groups[d].members, s),
            a.groups[s := Group(s, a.groups[s].members + NewOf(a.groups[s].members, a.groups[d].members),
                                a.groups[s].frozen || a.groups[d].frozen)])
  {
  }

  /** Joining a group with itself changes nothing. */
  lemma JoinSelf(a: Arena, p: int)
    requires Wf(a) && 0 <= p < |a.pieces|
    ensures JoinSpec(a, a.pieces[p].group, a.pieces[p].group) == a
  {
    var g := a.pieces[p].group;
    assert PieceOk(a, p) && GroupOk(a, g);
    var A := a.groups[g].members;
    NewOfContained(A, A);
    assert A + NewOf(A, A) == A;
    assert Repointed(a.pieces, A, g) == a.pieces;
  }

  /**
   * Joining the groups of two pieces in different groups: the subsumer is
   * the strictly larger group (else the second), it keeps its id, its
   * members are both lists one after the other, it is frozen when either
   * was, and exactly the pieces of the two groups point at it. The arena
   * stays well formed.
   */
  lemma JoinDistinct(a: Arena, p: int, q: int)
    requires Wf(a) && 0 <= p < |a.pieces| && 0 <= q < |a.pieces|
    requires a.pieces[p].group != a.pieces[q].group
    ensures var g, o := a.pieces[p].group, a.pieces[q].group;
      var s := Subsumer(a, g, o);
      var d := if s == g then o else g;
      var b := JoinSpec(a, g, o);
      Wf(b) &&
      (s == g <==> |a.groups[g].members| > |a.groups[o].members|) &&
      b.groups[s].id == s &&
      b.groups[s].members == a.groups[s].members + a.groups[d].members &&
      |b.groups[s].members| == |a.groups[g].members| + |a.groups[o].members| &&
      b.groups[s].frozen == (a.groups[g].frozen || a.groups[o].frozen) &&
      (forall r | 0 <= r < |a.pieces| ::
         b.pieces[r].group == if a.pieces[r].group == g || a.pieces[r].group == o then s else a.pieces[r].group)
  {
    var g, o := a.pieces[p].group, a.pieces[q].group;
    assert PieceOk(a, p) && PieceOk(a, q);
    var s := Subsumer(a, g, o);
    var d := if s == g then o else g;
    var A, B := a.groups[s].members, a.groups[d].members;
    assert GroupOk(a, s) && GroupOk(a, d);
    assert Exact(a, s) && Exact(a, d);
    forall k | 0 <= k < |B|
      ensures B[k] !in A
    {
    }
    NewOfDisjoint(A, B);
    var b := JoinSpec(a, g, o);
    assert b.groups[s].members == A + B;
    forall r | 0 <= r < |a.pieces|
      ensures r in B <==> a.pieces[r].group == d
      ensures b.pieces[r].group == if a.pieces[r].group == g || a.pieces[r].group == o then s else a.pieces[r].group
    {
    }
    JoinWf(a, b, s, d);
  }

  lemma JoinWf(a: Arena, b: Arena, s: int, d: int)
    requires Wf(a) && 0 <= s < |a.pieces| && 0 <= d < |a.pieces| && s != d
    requires Exact(a, s) && Exact(a, d) && a.pieces[s].group == s && a.pieces[d].group == d
    requires |b.pieces| == |a.pieces| && |b.groups| == |a.groups|
    requires forall r | 0 <= r < |a.pieces| ::
      b.pieces[r] == if a.pieces[r].group == d then a.pieces[r].(group := s) else a.pieces[r]
    requires b.groups == a.groups[s := Group(s, a.groups[s].members + a.groups[d].members, b.groups[s].frozen)]
    ensures Wf(b)
  {
    var A, B := a.groups[s].members, a.groups[d].members;
    assert GroupOk(a, s) && GroupOk(a, d);
    forall i | 0 <= i < |b.pieces|
      ensures PieceOk(b, i)
    {
      assert PieceOk(a, i);
      var h := a.pieces[i].group;
      assert Exact(a, h);
      if h == s || h == d {
        assert Exact(b, s);
      } else {
        assert Exact(b, h);
      }
    }
    forall x, y | 0 <= x < |A| && 0 <= y < |B|
      ensures A[x] != B[y]
    {
      assert a.pieces[A[x]].group == s;
    }
    forall g | 0 <= g < |b.groups|
      ensures GroupOk(b, g)
    {
      assert GroupOk(a, g);
    }
  }

  /** A group lists at most as many pieces as there are. */
  lemma MembersBound(a: Arena, g: int)
    requires Wf(a) && 0 <= g < |a.groups|
    ensures |a.groups[g].members| <= |a.pieces|
  {
    assert GroupOk(a, g);
    DistinctBound(a.groups[g].members, |a.pieces|);
  }

  lemma {:induction false} DistinctBound(s: seq<int>, n: nat)
    requires AabbTree.NoDuplicates(s)
    requires forall k | 0 <= k < |s| :: 0 <= s[k] < n
    ensures |s| <= n
    decreases n
  {
    if |s| > 0 {
      // drop the value n - 1, if present, and bound the rest below n - 1
      var t := Without(s, n - 1);
      DistinctBound(t, n - 1);
    }
  }

  /** `s` without the value `v`, for a list of distinct values below v + 1. */
  function Without(s: seq<int>, v: int): (t: seq<int>)
    requires AabbTree.NoDuplicates(s)
    requires forall k | 0 <= k < |s| :: 0 <= s[k] <= v
    ensures AabbTree.NoDuplicates(t)
    ensures forall k | 0 <= k < |t| :: 0 <= t[k] < v
    ensures |t| >= |s| - 1 && (v !in s ==> |t| == |s|)
    ensures forall x :: x in t <==> x in s && x != v
  {
    if |s| == 0 then []
    else
      var rest := Without(s[1..], v);
      if s[0] == v then rest
      else
        assert s[0] !in s[1..];
        [s[0]] + rest
  }

  /**
   * Group.size on the arena: the number of listed pieces, which for a
   * group the pieces point at is the number of pieces pointing at it.
   */
  function Size(a: Arena, g: int): (n: nat)
    requires 0 <= g < |a.groups|
    ensures Wf(a) && Exact(a, g) ==> n == |set r | 0 <= r < |a.pieces| && a.pieces[r].group == g|
  {
    SizeCounts(a, g);
    |a.groups[g].members|
  }

  lemma SizeCounts(a: Arena, g: int)
    requires 0 <= g < |a.groups|
    ensures Wf(a) && Exact(a, g) ==>
      |a.groups[g].members| == |set r | 0 <= r < |a.pieces| && a.pieces[r].group == g|
  {
    if Wf(a) && Exact(a, g) {
      assert GroupOk(a, g);
      DistinctCard(a.groups[g].members);
      assert (set r | 0 <= r < |a.pieces| && a.pieces[r].group == g) == (set x | x in a.groups[g].members);
    }
  }

  lemma {:induction false} DistinctCard(s: seq<int>)
    requires AabbTree.NoDuplicates(s)
    ensures |set x | x in s| == |s|
  {
    if |s| > 0 {
      var t := s[..|s| - 1];
      DistinctCard(t);
      assert (set x | x in s) == (set x | x in t) + {s[|s| - 1]};
    }
  }

  // ----- positions and orientations -----

  /** Every piece listed in `ms` other than `root` put where `root` puts it. */
  function CorrectedOver(ps: seq<Piece>, ms: seq<int>, root: int): (r: seq<Piece>)
    requires 0 <= root < |ps| && 0 <= ps[root].orientation < 4
    ensures |r| == |ps|
  {
    seq(|ps|, i requires 0 <= i < |ps| =>
      if i in ms && i != root then Placed(ps[root], ps[i]) else ps[i])
  }

  /** `q` moved to where `p` puts it; nothing else of `q` changes. */
  function Placed(p: Piece, q: Piece): (r: Piece)
    requires 0 <= p.orientation < 4
    ensures Aligned(p, r)
    ensures r == q.(x := r.x, y := r.y)
  {
    var c := ConnectedPosition(p, q);
    q.(x := c.x, y := c.y)
  }

  lemma CorrectedKeeps(a: Arena, ms: seq<int>, root: int)
    requires Wf(a) && 0 <= root < |a.pieces|
    ensures SameGroups(a.pieces, CorrectedOver(a.pieces, ms, root))
  {
  }

  /** Placing a piece twice places it once. */
  lemma PlacedTwice(p: Piece, q: Piece)
    requires 0 <= p.orientation < 4
    ensures Placed(p, Placed(p, q)) == Placed(p, q)
  {
  }

  /** One step of the correctPositions loop. */
  lemma CorrectedStep(ps: seq<Piece>, ms: seq<int>, k: int, root: int)
    requires 0 <= root < |ps| && 0 <= ps[root].orientation < 4
    requires 0 <= k < |ms| && 0 <= ms[k] < |ps|
    ensures var cur := CorrectedOver(ps, ms[..k], root);
      cur[root] == ps[root] &&
      CorrectedOver(ps, ms[..k + 1], root) ==
        if ms[k] == root then cur else cur[ms[k] := Placed(cur[root], cur[ms[k]])]
  {
    var cur := CorrectedOver(ps, ms[..k], root);
    var m := ms[k];
    assert ms[..k + 1] == ms[..k] + [m];
    if m != root {
      if m in ms[..k] {
        PlacedTwice(ps[root], ps[m]);
      }
    }
  }

  /**
   * After re-aligning the members of a group on `root`, `root` and every
   * non-member are untouched, each other member sits where `root` puts it,
   * and only positions change.
   */
  lemma CorrectedAligned(ps: seq<Piece>, ms: seq<int>, root: int)
    requires 0 <= root < |ps| && 0 <= ps[root].orientation < 4
    ensures var r := CorrectedOver(ps, ms, root);
      r[root] == ps[root] &&
      (forall i | 0 <= i < |ps| && i !in ms :: r[i] == ps[i]) &&
      (forall i | 0 <= i < |ps| && i in ms && i != root :: Aligned(ps[root], r[i])) &&
      (forall i | 0 <= i < |ps| :: r[i] == ps[i].(x := r[i].x, y := r[i].y))
  {
  }

  /**
   * When all members share one shape and turn, after re-aligning on a member
   * every member sits where every other member puts it.
   */
  lemma CorrectedGroupAligned(ps: seq<Piece>, ms: seq<int>, root: int, i: int, j: int)
    requires 0 <= root < |ps| && 0 <= ps[root].orientation < 4 && root in ms
    requires forall k | 0 <= k < |ps| && k in ms :: SameShape(ps[root], ps[k])
    requires 0 <= i < |ps| && 0 <= j < |ps| && i in ms && j in ms
    ensures var r := CorrectedOver(ps, ms, root); Aligned(r[i], r[j])
  {
    var r := CorrectedOver(ps, ms, root);
    var R := ps[root];
    assert r[root] == R;
    if i == root {
      if j != root {
        assert Aligned(R, r[j]);
      }
    } else if j == root {
      assert Aligned(R, r[i]);
      AlignedSymmetric(R, r[i]);
    } else {
      AlignedThrough(R, r[i], r[j]);
    }
  }

  /** Every piece listed in `ms` turned to orientation `o`. */
  function Reoriented(ps: seq<Piece>, ms: seq<int>, o: int): (r: seq<Piece>)
    ensures |r| == |ps|
  {
    seq(|ps|, i requires 0 <= i < |ps| => if i in ms then ps[i].(orientation := o) else ps[i])
  }

  lemma ReorientedStep(ps: seq<Piece>, ms: seq<int>, k: int, o: int)
    requires 0 <= k < |ms| && 0 <= ms[k] < |ps|
    ensures var cur := Reoriented(ps, ms[..k], o);
      Reoriented(ps, ms[..k + 1], o) == cur[ms[k] := cur[ms[k]].(orientation := o)]
  {
    assert ms[..k + 1] == ms[..k] + [ms[k]];
  }

  lemma ReorientedKeeps(a: Arena, ms: seq<int>, o: int)
    requires Wf(a) && 0 <= o < 4
    ensures SameGroups(a.pieces, Reoriented(a.pieces, ms, o))
  {
  }

  /** The pieces of a board and the group objects they point at. */
  class Board {
    var pieces: seq<Piece>
    var groups: seq<Group>

    function State(): Arena
      reads this
    {
      Arena(pieces, groups)
    }

    ghost predicate Valid()
      reads this
    {
      Wf(State())
    }

    /** A board holding the given pieces and groups. */
    constructor (ps: seq<Piece>, gs: seq<Group>)
      requires Wf(Arena(ps, gs))
      ensures Valid() && pieces == ps && groups == gs
    {
      pieces := ps;
      groups := gs;
    }

    /** `pieces[p].group.join(pieces[q].group)`. */
    method Join(p: int, q: int)
      requires Valid() && 0 <= p < |pieces| && 0 <= q < |pieces|
      modifies this
      ensures State() == JoinSpec(old(State()), old(pieces[p].group), old(pieces[q].group))
      ensures Valid()
    {
      ghost var a := State();
      var g, o := pieces[p].group, pieces[q].group;
      var s := if |groups[g].members| > |groups[o].members| then g else o;
      var d := if s == g then o else g;
      ghost var A := groups[s].members;
      var B := groups[d].members;
      assert GroupOk(a, s) && GroupOk(a, d);
      var frozen := groups[s].frozen || groups[d].frozen;
      // the subsumer's member list and the pieces, updated piece by piece
      var members, ps := groups[s].members, pieces;
      assert A + NewOf(A, B[..0]) == A;
      for k := 0 to |B|
        invariant members == A + NewOf(A, B[..k])
        invariant ps == Repointed(a.pieces, B[..k], s)
        modifies {}
      {
        var piece := B[k];
        JoinStep(a.pieces, A, B, k, s);
        if piece !in members {
          members := members + [piece];
        }
        ps := ps[piece := ps[piece].(group := s)];
      }
      assert B[..|B|] == B;
      // the subsumer takes the merged list and the OR of the frozen flags
      groups := groups[s := groups[s].(members := members, frozen := frozen)];
      pieces := ps;
      JoinSpecIs(a, g, o, s, d);
      if g == o {
        JoinSelf(a, p);
      } else {
        JoinDistinct(a, p, q);
      }
    }

    /** `groups[g].correctPositions(pieces[root])`. */
    method CorrectPositions(g: int, root: int)
      requires Valid() && 0 <= g < |groups| && 0 <= root < |pieces|
      modifies this
      ensures pieces == CorrectedOver(old(pieces), old(groups[g].members), root)
      ensures groups == old(groups) && Valid()
    {
      ghost var a := State();
      var ms := groups[g].members;
      assert GroupOk(a, g);
      for k := 0 to |ms|
        invariant groups == a.groups && |pieces| == |a.pieces|
        invariant pieces == CorrectedOver(a.pieces, ms[..k], root)
      {
        var piece := ms[k];
        CorrectedStep(a.pieces, ms, k, root);
        if piece != root {
          pieces := pieces[piece := Placed(pieces[root], pieces[piece])];
        }
      }
      assert ms[..|ms|] == ms;
      CorrectedKeeps(a, ms, root);
      WfFrame(a, State());
    }

    /** Piece.moveTo: put piece p at (x, y) and re-align its group on it. */
    method MoveTo(p: int, x: real, y: real)
      requires Valid() && 0 <= p < |pieces|
      modifies this
      ensures pieces == CorrectedOver(old(pieces)[p := old(pieces[p]).(x := x, y := y)],
                                      old(groups[pieces[p].group].members), p)
      ensures groups == old(groups) && Valid()
    {
      ghost var a := State();
      pieces := pieces[p := pieces[p].(x := x, y := y)];
      WfFrame(a, State());
      assert PieceOk(State(), p);
      CorrectPositions(pieces[p].group, p);
    }

    /** Piece.rotate: turn every member of p's group to `o`, then re-align the group on p. */
    method Rotate(p: int, o: int)
      requires Valid() && 0 <= p < |pieces| && 0 <= o < 4
      modifies this
      ensures var ms := old(groups[pieces[p].group].members);
        pieces == CorrectedOver(Reoriented(old(pieces), ms, o), ms, p)
      ensures groups == old(groups) && Valid()
    {
      ghost var a := State();
      var ms := groups[pieces[p].group].members;
      assert GroupOk(a, pieces[p].group);
      var ps := pieces;
      for k := 0 to |ms|
        invariant ps == Reoriented(a.pieces, ms[..k], o)
        modifies {}
      {
        var piece := ms[k];
        ReorientedStep(a.pieces, ms, k, o);
        ps := ps[piece := ps[piece].(orientation := o)];
      }
      assert ms[..|ms|] == ms;
      pieces := ps;
      ReorientedKeeps(a, ms, o);
      WfFrame(a, State());
      CorrectPositions(pieces[p].group, p);
    }
  }

  /**
   * After Rotate(p, o) every member of p's group has orientation o, p keeps
   * its place, and every other member sits where p puts it.
   */
  lemma RotateResult(ps: seq<Piece>, ms: seq<int>, p: int, o: int)
    requires 0 <= p < |ps| && p in ms && 0 <= o < 4
    ensures var r := CorrectedOver(Reoriented(ps, ms, o), ms, p);
      r[p] == ps[p].(orientation := o) &&
      (forall i | 0 <= i < |ps| && i in ms :: r[i].orientation == o) &&
      (forall i | 0 <= i < |ps| && i in ms && i != p :: Aligned(r[p], r[i])) &&
      (forall i | 0 <= i < |ps| && i !in ms :: r[i] == ps[i])
  {
    var t := Reoriented(ps, ms, o);
    CorrectedAligned(t, ms, p);
  }

  /** After MoveTo(p, x, y), p is at (x, y) and every other member of its group sits where p puts it. */
  lemma MoveToResult(ps: seq<Piece>, ms: seq<int>, p: int, x: real, y: real)
    requires 0 <= p < |ps| && 0 <= ps[p].orientation < 4
    ensures var r := CorrectedOver(ps[p := ps[p].(x := x, y := y)], ms, p);
      r[p].x == x && r[p].y == y &&
      (forall i | 0 <= i < |ps| && i in ms && i != p :: Aligned(r[p], r[i])) &&
      (forall i | 0 <= i < |ps| && i !in ms && i != p :: r[i] == ps[i])
  {
    CorrectedAligned(ps[p := ps[p].(x := x, y := y)], ms, p);
  }
}
