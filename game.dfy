/**
 * PuzzleGame (src/logic/game.js): the pieces and their groups, the BVH the
 * pieces are indexed in, and the number of edge pieces a finished puzzle
 * shows. Rendering, the camera and the network hooks are not modelled; the
 * random scatter of unsaved pieces is a parameter.
 */
module Game {
  import opened Pieces
  import opened GameRules
  import AabbTree
  import Aabb
  import Bvh
  import Puzzles
  import opened Snapping

  /** The box a piece is indexed under. */
  function BoxOf(p: Piece): Aabb.AABB {
    Bvh.PieceBox(p.x, p.y, p.w, p.h)
  }

  /** The pieces pointing at group g. */
  ghost function GroupSet(a: Arena, g: int): set<int> {
    set i | 0 <= i < |a.pieces| && a.pieces[i].group == g
  }

  /** Every piece listed in `ms` with z-index `z`. */
  function Lifted(ps: seq<Piece>, ms: seq<int>, z: int): (r: seq<Piece>)
    ensures |r| == |ps|
  {
    seq(|ps|, i requires 0 <= i < |ps| => if i in ms then ps[i].(zIndex := z) else ps[i])
  }

  /** Every piece listed in `ms` with grabbed flag `grabbed` and z-index `z`. */
  function Marked(ps: seq<Piece>, ms: seq<int>, grabbed: bool, z: int): (r: seq<Piece>)
    ensures |r| == |ps|
  {
    seq(|ps|, i requires 0 <= i < |ps| => if i in ms then ps[i].(grabbed := grabbed, zIndex := z) else ps[i])
  }

  lemma LiftedStep(ps: seq<Piece>, ms: seq<int>, k: int, z: int)
    requires 0 <= k < |ms| && 0 <= ms[k] < |ps|
    ensures var cur := Lifted(ps, ms[..k], z);
      Lifted(ps, ms[..k + 1], z) == cur[ms[k] := cur[ms[k]].(zIndex := z)]
  {
    assert ms[..k + 1] == ms[..k] + [ms[k]];
  }

  lemma MarkedStep(ps: seq<Piece>, ms: seq<int>, k: int, grabbed: bool, z: int)
    requires 0 <= k < |ms| && 0 <= ms[k] < |ps|
    ensures var cur := Marked(ps, ms[..k], grabbed, z);
      Marked(ps, ms[..k + 1], grabbed, z) == cur[ms[k] := cur[ms[k]].(grabbed := grabbed, zIndex := z)]
  {
    assert ms[..k + 1] == ms[..k] + [ms[k]];
  }

  /**
   * Marking the members of a group changes only their grabbed flag and
   * z-index, and leaves every other piece as it was.
   */
  lemma MarkedResult(ps: seq<Piece>, ms: seq<int>, grabbed: bool, z: int)
    ensures var r := Marked(ps, ms, grabbed, z);
      (forall i | 0 <= i < |ps| && i in ms :: r[i].grabbed == grabbed && r[i].zIndex == z) &&
      (forall i | 0 <= i < |ps| && i !in ms :: r[i] == ps[i]) &&
      (forall i | 0 <= i < |ps| :: r[i] == ps[i].(grabbed := r[i].grabbed, zIndex := r[i].zIndex)) &&
      SameGroupsKeep(ps, r)
  {
  }

  /** `qs` has the ids, groups and turns of `ps`. */
  predicate SameGroupsKeep(ps: seq<Piece>, qs: seq<Piece>) {
    |qs| == |ps| &&
    forall i | 0 <= i < |ps| ::
      qs[i].id == ps[i].id && qs[i].group == ps[i].group && qs[i].orientation == ps[i].orientation
  }

  lemma KeepWf(a: Arena, ps: seq<Piece>)
    requires Wf(a) && SameGroupsKeep(a.pieces, ps)
    ensures Wf(Arena(ps, a.groups))
  {
    WfFrame(a, Arena(ps, a.groups));
  }

  /** Changing a frozen flag keeps the arena well formed. */
  lemma FrozenWf(a: Arena, g: int, frozen: bool)
    requires Wf(a) && 0 <= g < |a.groups|
    ensures Wf(Arena(a.pieces, a.groups[g := a.groups[g].(frozen := frozen)]))
  {
    var b := Arena(a.pieces, a.groups[g := a.groups[g].(frozen := frozen)]);
    forall i | 0 <= i < |b.pieces|
      ensures PieceOk(b, i)
    {
      assert PieceOk(a, i);
      assert Exact(a, a.pieces[i].group);
    }
    forall h | 0 <= h < |b.groups|
      ensures GroupOk(b, h)
    {
      assert GroupOk(a, h);
    }
  }

  /**
   * The freezing condition of tryFreezeGroup on a group's member list: its
   * first member is unturned and it counts `edgeCount` edge pieces.
   */
  predicate ShouldFreeze(ps: seq<Piece>, ms: seq<int>, edgeCount: int)
    requires forall k | 0 <= k < |ms| :: 0 <= ms[k] < |ps|
  {
    |ms| > 0 && ps[ms[0]].orientation == 0 && CountEdges(ps, ms) == edgeCount
  }

  lemma {:induction false} CountEdgesSameFlags(ps: seq<Piece>, qs: seq<Piece>, ms: seq<int>)
    requires |ps| == |qs| && forall i | 0 <= i < |ps| :: qs[i].isEdge == ps[i].isEdge
    requires forall k | 0 <= k < |ms| :: 0 <= ms[k] < |ps|
    ensures CountEdges(qs, ms) == CountEdges(ps, ms)
  {
    if |ms| > 0 {
      CountEdgesSameFlags(ps, qs, ms[..|ms| - 1]);
    }
  }

  /**
   * On a board whose `edgeCount` is its number of edge pieces, a group
   * satisfies the freezing condition exactly when its first member is
   * unturned and it holds every edge piece.
   */
  lemma FreezeMeansBorderDone(a: Arena, g: int, edgeCount: int)
    requires Wf(a) && 0 <= g < |a.groups| && edgeCount == EdgeTotal(a.pieces)
    ensures GroupOk(a, g)
    ensures ShouldFreeze(a.pieces, a.groups[g].members, edgeCount) <==>
      |a.groups[g].members| > 0 && a.pieces[a.groups[g].members[0]].orientation == 0 &&
      forall i | 0 <= i < |a.pieces| && a.pieces[i].isEdge :: i in a.groups[g].members
  {
    assert GroupOk(a, g);
    CountEdgesComplete(a.pieces, a.groups[g].members);
  }

  /**
   * `filter((p) => !piece.group.pieces.has(p))`: the hits not listed in the
   * piece's group, in the order reported.
   */
  function Outside(hits: seq<int>, ms: seq<int>): (r: seq<int>)
    ensures forall x :: x in r <==> x in hits && x !in ms
    ensures |r| <= |hits|
  {
    if |hits| == 0 then []
    else (if hits[0] !in ms then [hits[0]] else []) + Outside(hits[1..], ms)
  }

  /** The piece-creating loops of the constructor: column by column, row by row. */
  method MakePieces(c: int, r: nat, h: real) returns (ps: seq<Piece>)
    requires c >= 0
    ensures ps == Layout(c, r, h, c)
  {
    ps := [];
    for i := 0 to c
      invariant ps == Layout(c, r, h, i)
    {
      var isHorizontalEdge := i == 0 || i == c - 1;
      for j := 0 to r
        invariant ps == Layout(c, r, h, i) + Column(c, r, h, i)[..j]
      {
        var id := i * r + j;
        var isVerticalEdge := j == 0 || j == r - 1;
        var isEdge := isHorizontalEdge || isVerticalEdge;
        assert Column(c, r, h, i)[..j + 1] == Column(c, r, h, i)[..j] + [PieceAt(c, r, h, i, j)];
        ps := ps + [Piece(id, i, j, 1.0, h, isEdge, false, id, 0.0, 0.0, 0, 0)];
      }
      assert Column(c, r, h, i)[..r] == Column(c, r, h, i);
    }
  }

  /**
   * What the restore loop needs of a save and of the scatter draws for a
   * board of n pieces: a consistent save, and a placement with a quarter
   * turn for every piece the save does not hold.
   */
  predicate Restorable(saved: seq<Option<SavedPiece>>, scatter: seq<Placement>, n: int) {
    SaveConsistent(saved, n) &&
    forall id | 0 <= id < n && !IsSaved(saved, id) :: id < |scatter| && 0 <= scatter[id].o < 4
  }

  /**
   * The restore loop of the constructor, on the freshly built pieces and
   * their one-piece groups: a saved piece takes its saved place and turn
   * and, when its saved group is another piece's, joins the group of that
   * piece; an unsaved piece takes its scatter placement. The pieces that
   * head their own group are collected in id order.
   */
  method RestoreAll(ps0: seq<Piece>, gs0: seq<Group>, saved: seq<Option<SavedPiece>>, scatter: seq<Placement>)
    returns (ps: seq<Piece>, gs: seq<Group>, heads: seq<int>)
    requires Fresh(ps0) && |gs0| == |ps0| && forall g | 0 <= g < |gs0| :: gs0[g] == NewGroup(g)
    requires Restorable(saved, scatter, |ps0|)
    ensures |ps| == |ps0| && |gs| == |ps0|
    ensures forall t | 0 <= t < |ps0| :: ps[t] == Restored(ps0[t], saved, scatter, t)
    ensures forall g | 0 <= g < |ps0| :: gs[g] == Group(g, [g] + Joiners(saved, g, |ps0|), false)
    ensures heads == Heads(saved, |ps0|)
    ensures Wf(Arena(ps, gs)) && HeadsOf(Arena(ps, gs), heads)
  {
    ps, gs := ps0, gs0;
    heads := [];
    for id := 0 to |ps0|
      invariant RestoredUpTo(ps0, saved, scatter, ps, gs, heads, id)
    {
      ps, gs, heads := RestoreOne(ps0, saved, scatter, ps, gs, heads, id);
    }
    RestoreWf(Arena(ps, gs), saved);
  }

  /**
   * The restore loop after the first `id` pieces: those are restored, the
   * rest are as built, every group lists its founder and the pieces so far
   * that joined it, and the heads so far are collected.
   */
  ghost predicate RestoredUpTo(ps0: seq<Piece>, saved: seq<Option<SavedPiece>>, scatter: seq<Placement>,
                               ps: seq<Piece>, gs: seq<Group>, heads: seq<int>, id: int)
    requires 0 <= id <= |ps0| && Restorable(saved, scatter, |ps0|)
  {
    |ps| == |ps0| && |gs| == |ps0| &&
    (forall t | 0 <= t < |ps0| :: ps[t] == if t < id then Restored(ps0[t], saved, scatter, t) else ps0[t]) &&
    (forall g | 0 <= g < |ps0| :: gs[g] == Group(g, [g] + Joiners(saved, g, id), false)) &&
    heads == Heads(saved, id)
  }

  /** One turn of the restore loop: piece `id` takes its saved or scattered state. */
  method RestoreOne(ps0: seq<Piece>, saved: seq<Option<SavedPiece>>, scatter: seq<Placement>,
                    ps: seq<Piece>, gs: seq<Group>, heads: seq<int>, id: int)
    returns (ps': seq<Piece>, gs': seq<Group>, heads': seq<int>)
    requires 0 <= id < |ps0| && Restorable(saved, scatter, |ps0|) && Fresh(ps0)
    requires RestoredUpTo(ps0, saved, scatter, ps, gs, heads, id)
    ensures RestoredUpTo(ps0, saved, scatter, ps', gs', heads', id + 1)
  {
    ps', gs', heads' := ps, gs, heads;
    ghost var g := Target(saved, id);
    if IsSaved(saved, id) {
      var s := saved[id].value;
      ps' := ps'[id := ps'[id].(x := s.x, y := s.y, orientation := s.o)];
      if id != s.groupId {
        var gid := s.groupId;
        assert ps'[gid].group == gid;
        var group := ps'[gid].group;
        if id !in gs'[group].members {
          gs' := gs'[group := gs'[group].(members := gs'[group].members + [id])];
        }
        ps' := ps'[id := ps'[id].(group := group)];
      } else {
        heads' := heads' + [id];
      }
    } else {
      var s := scatter[id];
      ps' := ps'[id := ps'[id].(x := s.x, y := s.y, orientation := s.o)];
      heads' := heads' + [id];
    }
    assert ps' == ps[id := Restored(ps0[id], saved, scatter, id)];
    assert gs' == if g != id then gs[g := gs[g].(members := gs[g].members + [id])] else gs;
    RestoredStep(ps0, saved, scatter, ps, gs, heads, id, ps', gs', heads');
  }

  lemma RestoredStep(ps0: seq<Piece>, saved: seq<Option<SavedPiece>>, scatter: seq<Placement>,
                     ps: seq<Piece>, gs: seq<Group>, heads: seq<int>, id: int,
                     ps': seq<Piece>, gs': seq<Group>, heads': seq<int>)
    requires 0 <= id < |ps0| && Restorable(saved, scatter, |ps0|)
    requires RestoredUpTo(ps0, saved, scatter, ps, gs, heads, id)
    requires ps' == ps[id := Restored(ps0[id], saved, scatter, id)]
    requires var g := Target(saved, id);
      gs' == if g != id then gs[g := gs[g].(members := gs[g].members + [id])] else gs
    requires heads' == heads + if Target(saved, id) == id then [id] else []
    ensures RestoredUpTo(ps0, saved, scatter, ps', gs', heads', id + 1)
  {
    forall t | 0 <= t < |ps0|
      ensures ps'[t] == if t < id + 1 then Restored(ps0[t], saved, scatter, t) else ps0[t]
    {
    }
    forall g | 0 <= g < |ps0|
      ensures gs'[g] == Group(g, [g] + Joiners(saved, g, id + 1), false)
    {
      var js := Joiners(saved, g, id);
      assert gs[g] == Group(g, [g] + js, false);
      if IsJoiner(saved, id, g) {
        assert Joiners(saved, g, id + 1) == js + [id];
        assert [g] + (js + [id]) == [g] + js + [id];
      } else {
        assert Joiners(saved, g, id + 1) == js;
      }
    }
    HeadsStep(saved, id);
  }

  lemma HeadsStep(saved: seq<Option<SavedPiece>>, id: nat)
    ensures Heads(saved, id + 1) == Heads(saved, id) + if Target(saved, id) == id then [id] else []
  {
  }

  lemma SliceStep(ms: seq<int>, k: int)
    requires 0 <= k < |ms|
    ensures forall i :: i in ms[..k + 1] <==> i in ms[..k] || i == ms[k]
  {
    assert ms[..k + 1] == ms[..k] + [ms[k]];
  }

  /** Re-filing a key under a new value is updating it in place. */
  lemma RemoveInsert(B: map<int, Aabb.AABB>, x: int, v: Aabb.AABB)
    requires x in B
    ensures (B - {x})[x := v] == B[x := v]
    ensures forall i | i in B - {x} :: (B - {x})[i] == B[i]
  {
  }

  lemma NotBefore(ms: seq<int>, k: int)
    requires 0 <= k < |ms| && AabbTree.NoDuplicates(ms)
    ensures ms[k] !in ms[..k]
  {
  }

  /**
   * The state of a loop that (re-)indexes the members `ms` of a group one by
   * one, after the first k: the index held `B0` before the loop and holds
   * `B` now; the members done so far are filed under their boxes, every
   * other piece under its box from before; and `z` is the highest z-index
   * among the pieces outside the group whose boxes meet a member done so far
   * (0 when there is none).
   */
  ghost predicate Indexed(B0: map<int, Aabb.AABB>, B: map<int, Aabb.AABB>, ps: seq<Piece>, ms: seq<int>, k: int, z: int)
    requires 0 <= k <= |ms|
    requires forall t | 0 <= t < |ms| :: 0 <= ms[t] < |ps|
  {
    (forall i | i in B0 :: 0 <= i < |ps|) &&
    (forall i :: i in B <==> i in B0 || i in ms[..k]) &&
    (forall i | i in B0 && i !in ms :: B[i] == B0[i]) &&
    (forall t | 0 <= t < k :: ms[t] in B && B[ms[t]] == BoxOf(ps[ms[t]])) &&
    z >= 0 &&
    (forall q, t | q in B0 && q !in ms && 0 <= t < k && Aabb.Test(B0[q], BoxOf(ps[ms[t]])) :: ps[q].zIndex <= z) &&
    (z == 0 || exists q, t | q in B0 && q !in ms && 0 <= t < k && Aabb.Test(B0[q], BoxOf(ps[ms[t]])) :: ps[q].zIndex == z)
  }

  lemma IndexedStart(B0: map<int, Aabb.AABB>, ps: seq<Piece>, ms: seq<int>)
    requires forall t | 0 <= t < |ms| :: 0 <= ms[t] < |ps|
    requires forall i | i in B0 :: 0 <= i < |ps|
    ensures Indexed(B0, B0, ps, ms, 0, 0)
  {
  }

  /** Every piece the loop's index holds is a piece, and so is every member. */
  lemma IndexedRange(B0: map<int, Aabb.AABB>, B: map<int, Aabb.AABB>, ps: seq<Piece>, ms: seq<int>, k: int, z: int)
    requires 0 <= k < |ms| && forall t | 0 <= t < |ms| :: 0 <= ms[t] < |ps| && ms[t] in B0
    requires Indexed(B0, B, ps, ms, k, z)
    ensures forall i | i in B :: 0 <= i < |ps|
    ensures ms[k] in B
  {
  }

  /** Filing member k under its box keeps the loop's state. */
  lemma IndexedStep(B0: map<int, Aabb.AABB>, B: map<int, Aabb.AABB>, B': map<int, Aabb.AABB>, ps: seq<Piece>,
                    ms: seq<int>, k: int, z: int, z': int)
    requires 0 <= k < |ms| && forall t | 0 <= t < |ms| :: 0 <= ms[t] < |ps|
    requires Indexed(B0, B, ps, ms, k, z)
    requires B' == B[ms[k] := BoxOf(ps[ms[k]])]
    requires z' >= z
    requires forall q | q in B && q !in ms && Aabb.Test(B[q], BoxOf(ps[ms[k]])) :: ps[q].zIndex <= z'
    requires z' == z || exists q | q in B && q !in ms && Aabb.Test(B[q], BoxOf(ps[ms[k]])) :: ps[q].zIndex == z'
    ensures Indexed(B0, B', ps, ms, k + 1, z')
  {
    SliceStep(ms, k);
    forall t | 0 <= t < k + 1
      ensures ms[t] in B' && B'[ms[t]] == BoxOf(ps[ms[t]])
    {
      if t < k && ms[t] != ms[k] {
        assert B'[ms[t]] == B[ms[t]];
      }
    }
    TopStep(B0, B, ps, ms, k, z, z');
  }

  /** The z part of that step: `z'` is the highest hit once member k is counted too. */
  lemma TopStep(B0: map<int, Aabb.AABB>, B: map<int, Aabb.AABB>, ps: seq<Piece>, ms: seq<int>, k: int, z: int, z': int)
    requires 0 <= k < |ms| && forall t | 0 <= t < |ms| :: 0 <= ms[t] < |ps|
    requires forall i | i in B0 :: 0 <= i < |ps|
    requires forall i | i in B0 && i !in ms :: i in B && B[i] == B0[i]
    requires forall q, t | q in B0 && q !in ms && 0 <= t < k && Aabb.Test(B0[q], BoxOf(ps[ms[t]])) :: ps[q].zIndex <= z
    requires z == 0 || exists q, t | q in B0 && q !in ms && 0 <= t < k && Aabb.Test(B0[q], BoxOf(ps[ms[t]])) :: ps[q].zIndex == z
    requires forall i | i in B && i !in ms :: i in B0
    requires z' >= z
    requires forall q | q in B && q !in ms && Aabb.Test(B[q], BoxOf(ps[ms[k]])) :: ps[q].zIndex <= z'
    requires z' == z || exists q | q in B && q !in ms && Aabb.Test(B[q], BoxOf(ps[ms[k]])) :: ps[q].zIndex == z'
    ensures forall q, t | q in B0 && q !in ms && 0 <= t < k + 1 && Aabb.Test(B0[q], BoxOf(ps[ms[t]])) :: ps[q].zIndex <= z'
    ensures z' == 0 || exists q, t | q in B0 && q !in ms && 0 <= t < k + 1 && Aabb.Test(B0[q], BoxOf(ps[ms[t]])) :: ps[q].zIndex == z'
  {
    forall q, t | q in B0 && q !in ms && 0 <= t < k + 1 && Aabb.Test(B0[q], BoxOf(ps[ms[t]]))
      ensures ps[q].zIndex <= z'
    {
      if t < k {
        assert ps[q].zIndex <= z;
      } else {
        assert B[q] == B0[q];
      }
    }
    if z' != z {
      var q :| q in B && q !in ms && Aabb.Test(B[q], BoxOf(ps[ms[k]])) && ps[q].zIndex == z';
      assert q in B0 && B[q] == B0[q];
    } else if z != 0 {
      var q, t :| q in B0 && q !in ms && 0 <= t < k && Aabb.Test(B0[q], BoxOf(ps[ms[t]])) && ps[q].zIndex == z;
      assert 0 <= t < k + 1;
    }
  }

  /** Taking member k out of the index and filing it again under its box keeps the loop's state. */
  lemma ReindexedStep(B0: map<int, Aabb.AABB>, B: map<int, Aabb.AABB>, Bx: map<int, Aabb.AABB>,
                      B': map<int, Aabb.AABB>, ps: seq<Piece>, ms: seq<int>, k: int, z: int, z': int)
    requires 0 <= k < |ms| && forall t | 0 <= t < |ms| :: 0 <= ms[t] < |ps|
    requires Indexed(B0, B, ps, ms, k, z) && ms[k] in B
    requires Bx == B - {ms[k]} && B' == Bx[ms[k] := BoxOf(ps[ms[k]])]
    requires z' >= z
    requires forall q | q in Bx && q !in ms && Aabb.Test(Bx[q], BoxOf(ps[ms[k]])) :: ps[q].zIndex <= z'
    requires z' == z || exists q | q in Bx && q !in ms && Aabb.Test(Bx[q], BoxOf(ps[ms[k]])) :: ps[q].zIndex == z'
    ensures Indexed(B0, B', ps, ms, k + 1, z')
  {
    RemoveInsert(B, ms[k], BoxOf(ps[ms[k]]));
    forall q | q in B && q !in ms && Aabb.Test(B[q], BoxOf(ps[ms[k]]))
      ensures ps[q].zIndex <= z'
    {
      assert q in Bx && Bx[q] == B[q];
    }
    if z' != z {
      var q :| q in Bx && q !in ms && Aabb.Test(Bx[q], BoxOf(ps[ms[k]])) && ps[q].zIndex == z';
      assert q in B && B[q] == Bx[q];
    }
    IndexedStep(B0, B, B', ps, ms, k, z, z');
  }

  /** The freezing condition of group g of `a`, read on pieces `ps`. */
  ghost predicate FreezeDue(a: Arena, ps: seq<Piece>, g: int, edgeCount: int)
    requires Wf(a) && 0 <= g < |a.groups| && |ps| == |a.pieces|
  {
    assert GroupOk(a, g);
    ShouldFreeze(ps, a.groups[g].members, edgeCount)
  }

  /** Only z-indices and frozen flags differ between `a` and (`ps`, `gs`). */
  ghost predicate StackedShape(a: Arena, ps: seq<Piece>, gs: seq<Group>) {
    |ps| == |a.pieces| && |gs| == |a.groups| &&
    (forall i | 0 <= i < |ps| :: ps[i] == a.pieces[i].(zIndex := ps[i].zIndex)) &&
    (forall g | 0 <= g < |gs| :: gs[g] == a.groups[g].(frozen := gs[g].frozen))
  }

  /** A group whose head is among the first k is frozen when it was or is due. */
  ghost predicate StackedFrozen(a: Arena, ps: seq<Piece>, gs: seq<Group>, heads: seq<int>, k: int, edgeCount: int)
    requires Wf(a) && 0 <= k <= |heads| && |ps| == |a.pieces| && |gs| == |a.groups|
  {
    forall g | 0 <= g < |gs| ::
      gs[g].frozen == (a.groups[g].frozen || (g in heads[..k] && FreezeDue(a, ps, g, edgeCount)))
  }

  /**
   * The index holds exactly the pieces of the groups whose heads are among
   * the first k, each under its box; the members of such a group share one
   * z-index of at least 2.
   */
  ghost predicate StackedIndex(a: Arena, ps: seq<Piece>, B: map<int, Aabb.AABB>, heads: seq<int>, k: int)
    requires Ranged(a) && 0 <= k <= |heads| && |ps| == |a.pieces|
  {
    (forall i :: i in B <==> 0 <= i < |ps| && a.pieces[i].group in heads[..k]) &&
    (forall i | i in B ::
      B[i] == BoxOf(ps[i]) && ps[i].zIndex >= 2 && ps[i].zIndex == ps[a.pieces[i].group].zIndex)
  }

  /** Of two indexed pieces whose boxes meet, the one of the lower-numbered group lies lower. */
  ghost predicate StackedOrder(a: Arena, ps: seq<Piece>, B: map<int, Aabb.AABB>)
    requires |ps| == |a.pieces|
  {
    forall q, m | q in B && m in B && 0 <= q < |ps| && 0 <= m < |ps| &&
        a.pieces[q].group < a.pieces[m].group && Aabb.Test(B[q], B[m]) ::
      ps[q].zIndex < ps[m].zIndex
  }

  /**
   * The state of the constructor's stacking loop after the first k group
   * heads, measured against the arena `a` the loop started from.
   */
  ghost predicate StackedUpTo(a: Arena, ps: seq<Piece>, gs: seq<Group>, B: map<int, Aabb.AABB>,
                              heads: seq<int>, k: int, edgeCount: int)
    requires Wf(a) && 0 <= k <= |heads|
  {
    StackedShape(a, ps, gs) && StackedFrozen(a, ps, gs, heads, k, edgeCount) &&
    Ranged(a) && StackedIndex(a, ps, B, heads, k) && StackedOrder(a, ps, B)
  }

  /** The heads of the groups of `a`, in increasing order. */
  ghost predicate HeadsOf(a: Arena, heads: seq<int>) {
    (forall x :: x in heads <==> 0 <= x < |a.pieces| && a.pieces[x].group == x) &&
    (forall i, j | 0 <= i < j < |heads| :: heads[i] < heads[j])
  }

  lemma StackedStart(a: Arena, heads: seq<int>, edgeCount: int)
    requires Wf(a) && forall g | 0 <= g < |a.groups| :: !a.groups[g].frozen
    ensures StackedUpTo(a, a.pieces, a.groups, map[], heads, 0, edgeCount)
  {
  }

  /** What the next head of the stacking loop may rely on. */
  lemma StackedNext(a: Arena, ps: seq<Piece>, gs: seq<Group>, B: map<int, Aabb.AABB>,
                    heads: seq<int>, k: int, edgeCount: int)
    requires Wf(a) && 0 <= k < |heads| && HeadsOf(a, heads)
    requires StackedUpTo(a, ps, gs, B, heads, k, edgeCount)
    ensures 0 <= heads[k] < |ps| && ps[heads[k]].group == heads[k]
    ensures gs[heads[k]].members == a.groups[heads[k]].members
    ensures forall i | i in B :: 0 <= i < |ps| && i !in gs[heads[k]].members
    ensures var ms := gs[heads[k]].members;
      |ms| > 0 && AabbTree.NoDuplicates(ms) && forall t | 0 <= t < |ms| :: 0 <= ms[t] < |ps|
  {
    var g := heads[k];
    assert g in heads;
    assert PieceOk(a, g);
    assert Exact(a, g) && GroupOk(a, g);
    assert g !in heads[..k];
  }

  /** Every piece points at a group of the arena. */
  ghost predicate Ranged(a: Arena) {
    |a.groups| == |a.pieces| && forall i | 0 <= i < |a.pieces| :: 0 <= a.pieces[i].group < |a.pieces|
  }

  /**
   * What the stacking loop knows of head k = g and its members `ms`: g heads
   * its own group, whose members are exactly the pieces pointing at g, and
   * every earlier head is a smaller head of its own group.
   */
  ghost predicate HeadStep(a: Arena, heads: seq<int>, k: int, g: int, ms: seq<int>)
    requires 0 <= k < |heads|
  {
    Ranged(a) && g == heads[k] && 0 <= g < |a.pieces| && a.pieces[g].group == g &&
    (forall t | 0 <= t < |ms| :: 0 <= ms[t] < |a.pieces|) &&
    (forall i | 0 <= i < |a.pieces| :: i in ms <==> a.pieces[i].group == g) &&
    (forall x | x in heads[..k] :: 0 <= x < g && a.pieces[x].group == x) &&
    (forall x :: x in heads[..k + 1] <==> x in heads[..k] || x == g)
  }

  lemma HeadFacts(a: Arena, heads: seq<int>, k: int)
    requires Wf(a) && 0 <= k < |heads| && HeadsOf(a, heads)
    ensures 0 <= heads[k] < |a.groups| && GroupOk(a, heads[k])
    ensures HeadStep(a, heads, k, heads[k], a.groups[heads[k]].members)
  {
    var g := heads[k];
    assert g in heads;
    assert PieceOk(a, g) && Exact(a, g) && GroupOk(a, g);
    SliceStep(heads, k);
    forall x | x in heads[..k]
      ensures 0 <= x < g && a.pieces[x].group == x
    {
      var j :| 0 <= j < k && heads[j] == x;
      assert x in heads;
    }
  }

  lemma StackedShapeStep(a: Arena, ps: seq<Piece>, gs: seq<Group>, g: int, f: bool,
                         ms: seq<int>, z: int)
    requires StackedShape(a, ps, gs) && 0 <= g < |gs|
    ensures StackedShape(a, Lifted(ps, ms, z), gs[g := gs[g].(frozen := f)])
  {
  }

  lemma StackedFrozenStep(a: Arena, ps: seq<Piece>, gs: seq<Group>, heads: seq<int>, k: int, edgeCount: int,
                          ms: seq<int>, z: int)
    requires Wf(a) && 0 <= k < |heads| && HeadStep(a, heads, k, heads[k], ms)
    requires StackedShape(a, ps, gs) && StackedFrozen(a, ps, gs, heads, k, edgeCount)
    requires ms == a.groups[heads[k]].members
    ensures var g := heads[k];
      StackedFrozen(a, Lifted(ps, ms, z),
                    gs[g := gs[g].(frozen := gs[g].frozen || ShouldFreeze(ps, ms, edgeCount))],
                    heads, k + 1, edgeCount)
  {
    var g := heads[k];
    var ps' := Lifted(ps, ms, z);
    forall h | 0 <= h < |a.groups|
      ensures FreezeDue(a, ps', h, edgeCount) == FreezeDue(a, ps, h, edgeCount)
    {
      assert GroupOk(a, h);
      CountEdgesSameFlags(ps, ps', a.groups[h].members);
    }
  }

  lemma StackedIndexStep(a: Arena, ps: seq<Piece>, B: map<int, Aabb.AABB>, B': map<int, Aabb.AABB>,
                         heads: seq<int>, k: int, ms: seq<int>, z: int)
    requires 0 <= k < |heads| && HeadStep(a, heads, k, heads[k], ms) && |ps| == |a.pieces|
    requires StackedIndex(a, ps, B, heads, k)
    requires Indexed(B, B', ps, ms, |ms|, z)
    ensures StackedIndex(a, Lifted(ps, ms, z + 2), B', heads, k + 1)
  {
    StackedKeysStep(a, ps, B, B', heads, k, ms, z);
    StackedBoxesStep(a, ps, B, B', heads, k, ms, z);
  }

  lemma StackedKeysStep(a: Arena, ps: seq<Piece>, B: map<int, Aabb.AABB>, B': map<int, Aabb.AABB>,
                        heads: seq<int>, k: int, ms: seq<int>, z: int)
    requires 0 <= k < |heads| && HeadStep(a, heads, k, heads[k], ms) && |ps| == |a.pieces|
    requires StackedIndex(a, ps, B, heads, k)
    requires Indexed(B, B', ps, ms, |ms|, z)
    ensures forall i :: i in B' <==> 0 <= i < |ps| && a.pieces[i].group in heads[..k + 1]
  {
    assert ms[..|ms|] == ms;
  }

  lemma StackedBoxesStep(a: Arena, ps: seq<Piece>, B: map<int, Aabb.AABB>, B': map<int, Aabb.AABB>,
                         heads: seq<int>, k: int, ms: seq<int>, z: int)
    requires 0 <= k < |heads| && HeadStep(a, heads, k, heads[k], ms) && |ps| == |a.pieces|
    requires StackedIndex(a, ps, B, heads, k)
    requires Indexed(B, B', ps, ms, |ms|, z)
    ensures var ps' := Lifted(ps, ms, z + 2);
      forall i | i in B' :: B'[i] == BoxOf(ps'[i]) && ps'[i].zIndex >= 2 && ps'[i].zIndex == ps'[a.pieces[i].group].zIndex
  {
    var g := heads[k];
    var ps' := Lifted(ps, ms, z + 2);
    assert ms[..|ms|] == ms;
    forall i | i in B
      ensures i !in ms && ps'[i] == ps[i] && ps'[a.pieces[i].group] == ps[a.pieces[i].group]
    {
      var G := a.pieces[i].group;
      assert G in heads[..k];
    }
    forall i | i in B' && i !in B
      ensures a.pieces[i].group == g
      ensures B'[i] == BoxOf(ps'[i]) && ps'[i].zIndex == z + 2 && ps'[g].zIndex == z + 2
    {
      var t :| 0 <= t < |ms| && ms[t] == i;
    }
  }


  lemma StackedOrderStep(a: Arena, ps: seq<Piece>, B: map<int, Aabb.AABB>, B': map<int, Aabb.AABB>,
                         heads: seq<int>, k: int, ms: seq<int>, z: int)
    requires 0 <= k < |heads| && HeadStep(a, heads, k, heads[k], ms) && |ps| == |a.pieces|
    requires StackedIndex(a, ps, B, heads, k) && StackedOrder(a, ps, B)
    requires Indexed(B, B', ps, ms, |ms|, z)
    ensures StackedOrder(a, Lifted(ps, ms, z + 2), B')
  {
    var g := heads[k];
    var ps' := Lifted(ps, ms, z + 2);
    assert ms[..|ms|] == ms;
    forall i | i in B
      ensures i !in ms && B'[i] == B[i] && ps'[i] == ps[i]
    {
      assert a.pieces[i].group in heads[..k];
    }
    forall q, m | q in B' && m in B' && 0 <= q < |ps| && 0 <= m < |ps|
      ensures a.pieces[q].group < a.pieces[m].group && Aabb.Test(B'[q], B'[m]) ==> ps'[q].zIndex < ps'[m].zIndex
    {
      if m !in B {
        var t :| 0 <= t < |ms| && ms[t] == m;
        if q in B && Aabb.Test(B'[q], B'[m]) {
          assert ps[q].zIndex <= z;
        }
      } else if q !in B {
        assert a.pieces[m].group in heads[..k];
      }
    }
  }

  /** Freezing, indexing and stacking head k keeps the stacking loop's state. */
  lemma StackedStep(a: Arena, ps: seq<Piece>, gs: seq<Group>, B: map<int, Aabb.AABB>,
                    heads: seq<int>, k: int, edgeCount: int,
                    ms: seq<int>, gs': seq<Group>, ps': seq<Piece>, B': map<int, Aabb.AABB>, z: int)
    requires Wf(a) && 0 <= k < |heads| && HeadsOf(a, heads)
    requires StackedUpTo(a, ps, gs, B, heads, k, edgeCount)
    requires 0 <= heads[k] < |a.groups| && 0 <= heads[k] < |gs|
    requires ms == a.groups[heads[k]].members
    requires var g := heads[k];
      (forall t | 0 <= t < |ms| :: 0 <= ms[t] < |ps|) &&
      gs' == gs[g := gs[g].(frozen := gs[g].frozen || ShouldFreeze(ps, ms, edgeCount))] &&
      Indexed(B, B', ps, ms, |ms|, z) && ps' == Lifted(ps, ms, z + 2)
    ensures StackedUpTo(a, ps', gs', B', heads, k + 1, edgeCount)
  {
    HeadFacts(a, heads, k);
    var g := heads[k];
    StackedShapeStep(a, ps, gs, g, gs'[g].frozen, ms, z + 2);
    StackedFrozenStep(a, ps, gs, heads, k, edgeCount, ms, z + 2);
    StackedIndexStep(a, ps, B, B', heads, k, ms, z);
    StackedOrderStep(a, ps, B, B', heads, k, ms, z);
  }

  /** Changing z-indices and frozen flags keeps an arena well formed. */
  lemma ShapeWf(a: Arena, ps: seq<Piece>, gs: seq<Group>)
    requires Wf(a) && StackedShape(a, ps, gs)
    ensures Wf(Arena(ps, gs))
  {
    var b := Arena(ps, gs);
    forall i | 0 <= i < |ps|
      ensures PieceOk(b, i)
    {
      assert PieceOk(a, i);
      assert Exact(a, a.pieces[i].group);
    }
    forall g | 0 <= g < |gs|
      ensures GroupOk(b, g)
    {
      assert GroupOk(a, g);
    }
  }

  /** After the last head: every piece is indexed under its box and stacked. */
  lemma StackedDone(a: Arena, ps: seq<Piece>, gs: seq<Group>, B: map<int, Aabb.AABB>,
                    heads: seq<int>, edgeCount: int)
    requires Wf(a) && HeadsOf(a, heads)
    requires StackedUpTo(a, ps, gs, B, heads, |heads|, edgeCount)
    ensures forall i :: i in B <==> 0 <= i < |ps|
    ensures forall i | 0 <= i < |ps| ::
      ps[i].group == a.pieces[i].group && 0 <= ps[i].group < |ps| &&
      B[i] == BoxOf(ps[i]) && ps[i].zIndex >= 2 && ps[i].zIndex == ps[ps[i].group].zIndex
    ensures forall g | 0 <= g < |gs| ::
      gs[g].members == a.groups[g].members && GroupOk(a, g) &&
      gs[g].frozen == (a.groups[g].frozen || (a.pieces[g].group == g && ShouldFreeze(ps, gs[g].members, edgeCount)))
    ensures AboveLower(ps, B)
    ensures Wf(Arena(ps, gs))
  {
    ShapeWf(a, ps, gs);
    StackedKeys(a, ps, gs, B, heads, edgeCount);
    StackedGroups(a, ps, gs, B, heads, edgeCount);
  }

  /** After the last head, the index holds every piece. */
  lemma StackedKeys(a: Arena, ps: seq<Piece>, gs: seq<Group>, B: map<int, Aabb.AABB>,
                    heads: seq<int>, edgeCount: int)
    requires Wf(a) && HeadsOf(a, heads)
    requires StackedUpTo(a, ps, gs, B, heads, |heads|, edgeCount)
    ensures forall i :: i in B <==> 0 <= i < |ps|
  {
    assert heads[..|heads|] == heads;
    forall i | 0 <= i < |ps|
      ensures i in B
    {
      assert PieceOk(a, i);
      assert a.pieces[i].group in heads;
    }
  }

  /** After the last head, every group is frozen exactly when it was or is due. */
  lemma StackedGroups(a: Arena, ps: seq<Piece>, gs: seq<Group>, B: map<int, Aabb.AABB>,
                      heads: seq<int>, edgeCount: int)
    requires Wf(a) && HeadsOf(a, heads)
    requires StackedUpTo(a, ps, gs, B, heads, |heads|, edgeCount)
    ensures forall g | 0 <= g < |gs| ::
      gs[g].members == a.groups[g].members && GroupOk(a, g) &&
      gs[g].frozen == (a.groups[g].frozen || (a.pieces[g].group == g && ShouldFreeze(ps, gs[g].members, edgeCount)))
  {
    assert heads[..|heads|] == heads;
    forall g | 0 <= g < |gs|
      ensures GroupOk(a, g)
    {
    }
  }

  /**
   * tryFreezeGroup's test on a group with member list `ms` and frozen flag
   * `frozen`: the group ends up frozen when it was, or when its first member
   * is unturned and it counts `edgeCount` edge pieces.
   */
  method FreezeTest(ps: seq<Piece>, ms: seq<int>, frozen: bool, edgeCount: int) returns (f: bool)
    requires |ms| > 0 && forall t | 0 <= t < |ms| :: 0 <= ms[t] < |ps|
    ensures f == (frozen || ShouldFreeze(ps, ms, edgeCount))
  {
    f := frozen;
    var aPiece := ms[0];
    if !frozen && ps[aPiece].orientation == 0 {
      var count := 0;
      for k := 0 to |ms|
        invariant count == CountEdges(ps, ms[..k])
      {
        assert ms[..k + 1][..k] == ms[..k];
        if ps[ms[k]].isEdge {
          count := count + 1;
        }
      }
      assert ms[..|ms|] == ms;
      if count == edgeCount {
        f := true;
      }
    }
  }

  /** The second loop of the constructor's body for one group: every member gets z-index `z`. */
  method LiftAll(ps: seq<Piece>, ms: seq<int>, z: int) returns (r: seq<Piece>)
    requires forall t | 0 <= t < |ms| :: 0 <= ms[t] < |ps|
    ensures r == Lifted(ps, ms, z)
  {
    r := ps;
    for k := 0 to |ms|
      invariant r == Lifted(ps, ms[..k], z)
    {
      LiftedStep(ps, ms, k, z);
      r := r[ms[k] := r[ms[k]].(zIndex := z)];
    }
    assert ms[..|ms|] == ms;
  }

  /**
   * The loop over a group's members that sets `grabbed` and `zIndex` (the
   * last loop of placePieces, and grabPieces).
   */
  method MarkAll(ps: seq<Piece>, ms: seq<int>, grabbed: bool, z: int) returns (r: seq<Piece>)
    requires forall t | 0 <= t < |ms| :: 0 <= ms[t] < |ps|
    ensures r == Marked(ps, ms, grabbed, z)
  {
    r := ps;
    for k := 0 to |ms|
      invariant r == Marked(ps, ms[..k], grabbed, z)
    {
      MarkedStep(ps, ms, k, grabbed, z);
      r := r[ms[k] := r[ms[k]].(grabbed := grabbed, zIndex := z)];
    }
    assert ms[..|ms|] == ms;
  }

  /**
   * The largest z-index, starting from `z`, among the hits not listed in
   * `ms` (the inner loop over `hits` in the constructor and placePieces).
   */
  method TopOf(ps: seq<Piece>, hits: seq<int>, ms: seq<int>, z: int) returns (top: int)
    requires forall k | 0 <= k < |hits| :: 0 <= hits[k] < |ps|
    ensures top >= z
    ensures forall k | 0 <= k < |hits| && hits[k] !in ms :: ps[hits[k]].zIndex <= top
    ensures top == z || exists k | 0 <= k < |hits| :: hits[k] !in ms && ps[hits[k]].zIndex == top
  {
    top := z;
    for k := 0 to |hits|
      invariant top >= z
      invariant forall t | 0 <= t < k && hits[t] !in ms :: ps[hits[t]].zIndex <= top
      invariant top == z || exists t | 0 <= t < k :: hits[t] !in ms && ps[hits[t]].zIndex == top
    {
      var hit := hits[k];
      if hit !in ms && ps[hit].zIndex > top {
        top := ps[hit].zIndex;
      }
    }
  }

  /**
   * `bvh.insert(piece)`, then the highest z-index, starting from `z`, among
   * the hits outside the group `ms`.
   */
  method InsertMember(index: Bvh.BVH, ps: seq<Piece>, piece: int, ms: seq<int>, z: int) returns (top: int)
    requires index.Valid() && 0 <= piece < |ps| && piece !in index.boxes
    requires forall i | i in index.boxes :: 0 <= i < |ps|
    modifies index, index.tree
    ensures index.Valid() && index.boxes == old(index.boxes)[piece := BoxOf(ps[piece])]
    ensures top >= z
    ensures forall q | q in old(index.boxes) && q !in ms && Aabb.Test(old(index.boxes)[q], BoxOf(ps[piece])) ::
      ps[q].zIndex <= top
    ensures top == z || exists q | q in old(index.boxes) && q !in ms && Aabb.Test(old(index.boxes)[q], BoxOf(ps[piece])) ::
      ps[q].zIndex == top
  {
    ghost var B := index.boxes;
    var p := ps[piece];
    var hits := index.Insert(piece, p.x, p.y, p.w, p.h);
    forall t | 0 <= t < |hits|
      ensures hits[t] in B
    {
      assert hits[t] in (set h | h in hits);
      assert hits[t] in Bvh.Overlapping(B, BoxOf(p));
    }
    top := TopOf(ps, hits, ms, z);
    if top != z {
      var t :| 0 <= t < |hits| && hits[t] !in ms && ps[hits[t]].zIndex == top;
      assert hits[t] in (set h | h in hits);
      assert hits[t] in Bvh.Overlapping(B, BoxOf(p));
    }
    forall q | q in B && q !in ms && Aabb.Test(B[q], BoxOf(p))
      ensures ps[q].zIndex <= top
    {
      assert q in Bvh.Overlapping(B, BoxOf(p));
      assert q in (set h | h in hits);
      var t :| 0 <= t < |hits| && hits[t] == q;
    }
  }

  /** The first loop of the constructor's body for one group: insert each member and track the highest hit. */
  method IndexMembers(index: Bvh.BVH, ps: seq<Piece>, ms: seq<int>) returns (z: int)
    requires index.Valid() && AabbTree.NoDuplicates(ms)
    requires forall t | 0 <= t < |ms| :: 0 <= ms[t] < |ps|
    requires forall i | i in index.boxes :: 0 <= i < |ps| && i !in ms
    modifies index, index.tree
    ensures index.Valid() && Indexed(old(index.boxes), index.boxes, ps, ms, |ms|, z)
  {
    ghost var B0 := index.boxes;
    IndexedStart(B0, ps, ms);
    z := 0;
    for k := 0 to |ms|
      invariant index.Valid()
      invariant Indexed(B0, index.boxes, ps, ms, k, z)
    {
      z := IndexMember(index, ps, ms, k, z, B0);
    }
  }

  /** One turn of that loop: `bvh.insert(piece)` for member k, and the highest hit so far. */
  method IndexMember(index: Bvh.BVH, ps: seq<Piece>, ms: seq<int>, k: int, z: int, ghost B0: map<int, Aabb.AABB>)
    returns (top: int)
    requires index.Valid() && 0 <= k < |ms| && AabbTree.NoDuplicates(ms)
    requires forall t | 0 <= t < |ms| :: 0 <= ms[t] < |ps|
    requires forall i | i in B0 :: i !in ms
    requires Indexed(B0, index.boxes, ps, ms, k, z)
    modifies index, index.tree
    ensures index.Valid() && Indexed(B0, index.boxes, ps, ms, k + 1, top)
  {
    ghost var B := index.boxes;
    NotBefore(ms, k);
    top := InsertMember(index, ps, ms[k], ms, z);
    IndexedStep(B0, B, index.boxes, ps, ms, k, z, top);
  }

  /**
   * The second loop of placePieces: `bvh.remove(piece)` and
   * `bvh.insert(piece)` for every member, tracking the highest hit outside
   * the group.
   */
  method ReindexMembers(index: Bvh.BVH, ps: seq<Piece>, ms: seq<int>) returns (z: int)
    requires index.Valid()
    requires forall t | 0 <= t < |ms| :: 0 <= ms[t] < |ps| && ms[t] in index.boxes
    requires forall i | i in index.boxes :: 0 <= i < |ps|
    modifies index, index.tree
    ensures index.Valid() && Indexed(old(index.boxes), index.boxes, ps, ms, |ms|, z)
    ensures forall i :: i in index.boxes <==> i in old(index.boxes)
  {
    ghost var B0 := index.boxes;
    IndexedStart(B0, ps, ms);
    z := 0;
    for k := 0 to |ms|
      invariant index.Valid()
      invariant Indexed(B0, index.boxes, ps, ms, k, z)
    {
      z := ReindexMember(index, ps, ms, k, z, B0);
    }
    IndexedKeys(B0, index.boxes, ps, ms, z);
  }

  /** One turn of that loop for member k. */
  method ReindexMember(index: Bvh.BVH, ps: seq<Piece>, ms: seq<int>, k: int, z: int, ghost B0: map<int, Aabb.AABB>)
    returns (top: int)
    requires index.Valid() && 0 <= k < |ms|
    requires forall t | 0 <= t < |ms| :: 0 <= ms[t] < |ps| && ms[t] in B0
    requires Indexed(B0, index.boxes, ps, ms, k, z)
    modifies index, index.tree
    ensures index.Valid() && Indexed(B0, index.boxes, ps, ms, k + 1, top)
  {
    ghost var B := index.boxes;
    IndexedRange(B0, B, ps, ms, k, z);
    var piece := ms[k];
    index.Remove(piece);
    ghost var Bx := index.boxes;
    top := InsertMember(index, ps, piece, ms, z);
    ReindexedStep(B0, B, Bx, index.boxes, ps, ms, k, z, top);
  }

  /**
   * The constructor's body for the group of head k: freeze it where due,
   * index each member, then stack the whole group two above the highest
   * piece outside it that any member's box meets.
   */
  method StackGroup(index: Bvh.BVH, ghost a: Arena, ps: seq<Piece>, gs: seq<Group>,
                    heads: seq<int>, k: int, edgeCount: int) returns (ps': seq<Piece>, gs': seq<Group>)
    requires index.Valid() && Wf(a) && HeadsOf(a, heads) && 0 <= k < |heads|
    requires StackedUpTo(a, ps, gs, index.boxes, heads, k, edgeCount)
    modifies index, index.tree
    ensures index.Valid() && StackedUpTo(a, ps', gs', index.boxes, heads, k + 1, edgeCount)
  {
    ghost var B := index.boxes;
    var ms, z;
    ms, gs', z := FreezeAndIndex(index, a, ps, gs, heads, k, edgeCount);
    ps' := LiftGroup(a, ps, gs, B, heads, k, edgeCount, ms, gs', index.boxes, z);
  }

  /** The first half of StackGroup: the freeze test and the indexing of the members. */
  method FreezeAndIndex(index: Bvh.BVH, ghost a: Arena, ps: seq<Piece>, gs: seq<Group>,
                        heads: seq<int>, k: int, edgeCount: int) returns (ms: seq<int>, gs': seq<Group>, z: int)
    requires index.Valid() && Wf(a) && HeadsOf(a, heads) && 0 <= k < |heads|
    requires StackedUpTo(a, ps, gs, index.boxes, heads, k, edgeCount)
    modifies index, index.tree
    ensures index.Valid()
    ensures 0 <= heads[k] < |a.groups| && 0 <= heads[k] < |gs| && ms == a.groups[heads[k]].members
    ensures forall t | 0 <= t < |ms| :: 0 <= ms[t] < |ps|
    ensures var g := heads[k];
      gs' == gs[g := gs[g].(frozen := gs[g].frozen || ShouldFreeze(ps, ms, edgeCount))] &&
      Indexed(old(index.boxes), index.boxes, ps, ms, |ms|, z)
  {
    ghost var B := index.boxes;
    StackedNext(a, ps, gs, B, heads, k, edgeCount);
    var g := heads[k];
    var group := gs[g];
    ms := group.members;
    var frozen := FreezeTest(ps, ms, group.frozen, edgeCount);
    gs' := gs[g := group.(frozen := frozen)];
    z := IndexMembers(index, ps, ms);
  }

  /** The second half of StackGroup: every member two above the highest piece it overlaps. */
  method LiftGroup(ghost a: Arena, ps: seq<Piece>, gs: seq<Group>, ghost B: map<int, Aabb.AABB>,
                   heads: seq<int>, k: int, edgeCount: int, ms: seq<int>, gs': seq<Group>,
                   ghost B': map<int, Aabb.AABB>, z: int) returns (ps': seq<Piece>)
    requires Wf(a) && 0 <= k < |heads| && HeadsOf(a, heads)
    requires StackedUpTo(a, ps, gs, B, heads, k, edgeCount)
    requires 0 <= heads[k] < |a.groups| && 0 <= heads[k] < |gs|
    requires ms == a.groups[heads[k]].members
    requires forall t | 0 <= t < |ms| :: 0 <= ms[t] < |ps|
    requires var g := heads[k];
      gs' == gs[g := gs[g].(frozen := gs[g].frozen || ShouldFreeze(ps, ms, edgeCount))] &&
      Indexed(B, B', ps, ms, |ms|, z)
    ensures StackedUpTo(a, ps', gs', B', heads, k + 1, edgeCount)
  {
    ps' := LiftAll(ps, ms, z + 2);
    StackedStep(a, ps, gs, B, heads, k, edgeCount, ms, gs', ps', B', z);
  }

  /**
   * The constructor's loop over the group heads, in id order: each group
   * is frozen where due, its pieces are indexed, and it is stacked above
   * every earlier group it overlaps.
   */
  method StackHeads(index: Bvh.BVH, ps0: seq<Piece>, gs0: seq<Group>, heads: seq<int>, edgeCount: int)
    returns (ps: seq<Piece>, gs: seq<Group>)
    requires index.Valid() && index.boxes == map[]
    requires Wf(Arena(ps0, gs0)) && HeadsOf(Arena(ps0, gs0), heads)
    requires forall g | 0 <= g < |gs0| :: !gs0[g].frozen
    modifies index, index.tree
    ensures index.Valid() && StackedUpTo(Arena(ps0, gs0), ps, gs, index.boxes, heads, |heads|, edgeCount)
  {
    ghost var a := Arena(ps0, gs0);
    StackedStart(a, heads, edgeCount);
    ps, gs := ps0, gs0;
    for k := 0 to |heads|
      invariant index.Valid() && StackedUpTo(a, ps, gs, index.boxes, heads, k, edgeCount)
    {
      ps, gs := StackGroup(index, a, ps, gs, heads, k, edgeCount);
    }
  }

  /**
   * The pieces and groups the constructor starts from: the c x r layout,
   * with the saved pieces restored and the others scattered.
   */
  method Build(c: int, r: nat, h: real, saved: seq<Option<SavedPiece>>, scatter: seq<Placement>)
    returns (ps: seq<Piece>, gs: seq<Group>, heads: seq<int>)
    requires c >= 0 && Restorable(saved, scatter, c * r)
    ensures |ps| == c * r == |Layout(c, r, h, c)| && |gs| == |ps|
    ensures forall id | 0 <= id < |ps| :: ps[id] == Restored(Layout(c, r, h, c)[id], saved, scatter, id)
    ensures forall g | 0 <= g < |gs| :: gs[g] == Group(g, [g] + Joiners(saved, g, |ps|), false)
    ensures Wf(Arena(ps, gs)) && HeadsOf(Arena(ps, gs), heads)
  {
    var ps0 := MakePieces(c, r, h);
    LayoutFresh(c, r, h, c);
    ps, gs, heads := RestoreAll(ps0, seq(|ps0|, i => NewGroup(i)), saved, scatter);
  }

  /**
   * The constructor's stacking pass and what it leaves: every piece indexed
   * under its box, only z-indices and frozen flags changed, each group frozen
   * where due and stacked above every lower-numbered group it overlaps.
   */
  method StackAll(index: Bvh.BVH, ps0: seq<Piece>, gs0: seq<Group>, heads: seq<int>, edgeCount: int)
    returns (ps: seq<Piece>, gs: seq<Group>)
    requires index.Valid() && index.boxes == map[]
    requires Wf(Arena(ps0, gs0)) && HeadsOf(Arena(ps0, gs0), heads)
    requires forall g | 0 <= g < |gs0| :: !gs0[g].frozen
    modifies index, index.tree
    ensures index.Valid() && Wf(Arena(ps, gs)) && |ps| == |ps0| && |gs| == |gs0|
    ensures forall i :: i in index.boxes <==> 0 <= i < |ps|
    ensures forall i | 0 <= i < |ps| ::
      ps[i] == ps0[i].(zIndex := ps[i].zIndex) && index.boxes[i] == BoxOf(ps[i]) &&
      ps[i].zIndex >= 2 && ps[i].zIndex == ps[ps[i].group].zIndex
    ensures forall g | 0 <= g < |gs| ::
      gs[g].members == gs0[g].members && GroupOk(Arena(ps, gs), g) &&
      gs[g].frozen == (ps[g].group == g && ShouldFreeze(ps, gs[g].members, edgeCount))
    ensures AboveLower(ps, index.boxes)
  {
    ps, gs := StackHeads(index, ps0, gs0, heads, edgeCount);
    StackedDone(Arena(ps0, gs0), ps, gs, index.boxes, heads, edgeCount);
  }

  /**
   * What the constructor leaves: the c x r layout with the saved pieces
   * restored and the others scattered, changed only in z-index; the groups
   * the save describes, each frozen exactly when due; every piece indexed
   * under its box; all of a group at one z-index of at least 2, and a group
   * above every lower-numbered group whose boxes meet its own.
   */
  ghost predicate Started(c: int, r: nat, h: real, saved: seq<Option<SavedPiece>>, scatter: seq<Placement>,
                          edgeCount: int, ps: seq<Piece>, gs: seq<Group>, boxes: map<int, Aabb.AABB>)
    requires c >= 0 && Restorable(saved, scatter, c * r)
  {
    |ps| == c * r == |Layout(c, r, h, c)| && |gs| == |ps| && Wf(Arena(ps, gs)) &&
    (forall i :: i in boxes <==> 0 <= i < |ps|) &&
    (forall id | 0 <= id < |ps| ::
       ps[id] == Restored(Layout(c, r, h, c)[id], saved, scatter, id).(zIndex := ps[id].zIndex) &&
       boxes[id] == BoxOf(ps[id]) && ps[id].zIndex >= 2 && ps[id].zIndex == ps[ps[id].group].zIndex) &&
    (forall g | 0 <= g < |gs| ::
       gs[g].members == [g] + Joiners(saved, g, |ps|) && GroupOk(Arena(ps, gs), g) &&
       gs[g].frozen == (ps[g].group == g && ShouldFreeze(ps, gs[g].members, edgeCount))) &&
    AboveLower(ps, boxes)
  }

  /** Of two pieces whose boxes meet, the one of the lower-numbered group lies lower. */
  ghost predicate AboveLower(ps: seq<Piece>, boxes: map<int, Aabb.AABB>)
    requires forall i | 0 <= i < |ps| :: i in boxes
  {
    forall q, m | 0 <= q < |ps| && 0 <= m < |ps| && ps[q].group < ps[m].group && Aabb.Test(boxes[q], boxes[m]) ::
      ps[q].zIndex < ps[m].zIndex
  }

  /** The constructor's work on values and the index it fills. */
  method Start(index: Bvh.BVH, c: int, r: nat, h: real, saved: seq<Option<SavedPiece>>, scatter: seq<Placement>,
               edgeCount: int) returns (ps: seq<Piece>, gs: seq<Group>)
    requires index.Valid() && index.boxes == map[]
    requires c >= 0 && Restorable(saved, scatter, c * r)
    modifies index, index.tree
    ensures index.Valid() && Started(c, r, h, saved, scatter, edgeCount, ps, gs, index.boxes)
  {
    var ps0, gs0, heads := Build(c, r, h, saved, scatter);
    ps, gs := StackAll(index, ps0, gs0, heads, edgeCount);
  }

  /**
   * `bvh.remove(piece)` then `bvh.insert(piece)`: piece `id` is filed anew
   * under the box of `p`, and the hits are the other indexed pieces whose
   * boxes meet it.
   */
  method Reinsert(index: Bvh.BVH, p: Piece, id: int) returns (hits: seq<int>)
    requires index.Valid() && id in index.boxes
    modifies index, index.tree
    ensures index.Valid() && index.boxes == old(index.boxes)[id := BoxOf(p)]
    ensures (set j | j in hits) == Bvh.Overlapping(old(index.boxes) - {id}, BoxOf(p))
    ensures forall t | 0 <= t < |hits| :: hits[t] in old(index.boxes) && hits[t] != id
  {
    ghost var B := index.boxes;
    index.Remove(id);
    ghost var Bx := index.boxes;
    hits := index.Insert(id, p.x, p.y, p.w, p.h);
    RemoveInsert(B, id, BoxOf(p));
    forall t | 0 <= t < |hits|
      ensures hits[t] in B && hits[t] != id
    {
      assert hits[t] in (set j | j in hits);
      assert hits[t] in Bvh.Overlapping(Bx, BoxOf(p));
      assert hits[t] in Bx;
    }
  }

  /**
   * The head of the first loop of placePieces for one piece: re-file it and
   * keep the hits that are not in the group `ms` of the piece.
   */
  method Candidates(index: Bvh.BVH, ps: seq<Piece>, piece: int, ms: seq<int>) returns (os: seq<int>)
    requires index.Valid() && 0 <= piece < |ps| && piece in index.boxes
    requires forall i | i in index.boxes :: 0 <= i < |ps|
    modifies index, index.tree
    ensures index.Valid() && index.boxes == old(index.boxes)[piece := BoxOf(ps[piece])]
    ensures forall t | 0 <= t < |os| :: 0 <= os[t] < |ps|
    ensures forall j :: j in os <==> j in Bvh.Overlapping(old(index.boxes) - {piece}, BoxOf(ps[piece])) && j !in ms
  {
    var hits := Reinsert(index, ps[piece], piece);
    os := Outside(hits, ms);
    forall t | 0 <= t < |os|
      ensures 0 <= os[t] < |ps|
    {
      assert os[t] in hits;
      var u :| 0 <= u < |hits| && hits[u] == os[t];
      assert hits[u] in old(index.boxes);
    }
    forall j | j in hits
      ensures j in Bvh.Overlapping(old(index.boxes) - {piece}, BoxOf(ps[piece]))
    {
      assert j in (set h | h in hits);
    }
    forall j | j in Bvh.Overlapping(old(index.boxes) - {piece}, BoxOf(ps[piece]))
      ensures j in hits
    {
      assert j in (set h | h in hits);
    }
  }

  /**
   * After the first k turns of the first loop of placePieces: no piece
   * outside root's group R snaps with one of the first k pieces that root's
   * first group g0 lists while its box from before the drop meets that
   * piece's box. (Such a piece was a candidate of that turn, and would have
   * joined.)
   */
  ghost predicate Exhausted(a0: Arena, B0: map<int, Aabb.AABB>, a: Arena, root: int, k: int)
    requires Wf(a0) && Wf(a) && |a.pieces| == |a0.pieces| && 0 <= root < |a.pieces|
  {
    var g0 := a0.pieces[root].group;
    assert PieceOk(a0, root) && GroupOk(a, g0);
    var ms, R := a.groups[g0].members, a.pieces[root].group;
    forall t, q | 0 <= t < k && t < |ms| && 0 <= q < |a.pieces| && a.pieces[q].group != R && q in B0 &&
                  Aabb.Test(B0[q], BoxOf(a0.pieces[ms[t]])) ::
      !SnapsAt(a0, ms[t], q)
  }

  /** The candidates of piece k cover every piece outside R whose box meets its box. */
  lemma CandidatesCover(a: Arena, B: map<int, Aabb.AABB>, root: int, piece: int, os: seq<int>)
    requires Wf(a) && 0 <= root < |a.pieces| && 0 <= piece < |a.pieces|
    requires a.pieces[piece].group == a.pieces[root].group && forall i :: i in B <==> 0 <= i < |a.pieces|
    requires forall j :: j in os <==> j in Bvh.Overlapping(B - {piece}, BoxOf(a.pieces[piece])) &&
                                      j !in a.groups[a.pieces[piece].group].members
    ensures forall q | 0 <= q < |a.pieces| && a.pieces[q].group != a.pieces[root].group &&
                       Aabb.Test(B[q], BoxOf(a.pieces[piece])) :: q in os
  {
    assert PieceOk(a, piece);
    forall q | 0 <= q < |a.pieces| && a.pieces[q].group != a.pieces[root].group && Aabb.Test(B[q], BoxOf(a.pieces[piece]))
      ensures q in os
    {
      assert (B - {piece})[q] == B[q];
      assert q in Bvh.Overlapping(B - {piece}, BoxOf(a.pieces[piece]));
    }
  }

  /** One turn of the first loop keeps Exhausted, one piece further. */
  lemma ExhaustedStep(a0: Arena, B0: map<int, Aabb.AABB>, a: Arena, B: map<int, Aabb.AABB>,
                      root: int, k: int, os: seq<int>, snap: int)
    requires Connecting(a0, B0, a, B, root, snap)
    requires 0 <= k < |a.groups[a0.pieces[root].group].members|
    requires forall t | 0 <= t < |os| :: 0 <= os[t] < |a.pieces|
    requires Exhausted(a0, B0, a, root, k)
    requires var piece := a.groups[a0.pieces[root].group].members[k];
      forall q | 0 <= q < |a.pieces| && a.pieces[q].group != a.pieces[root].group &&
                 Aabb.Test(B[q], BoxOf(a.pieces[piece])) :: q in os
    ensures var r := ConnectAll(a, a.groups[a0.pieces[root].group].members[k], os, snap);
      |r.0.pieces| == |a0.pieces| && Exhausted(a0, B0, r.0, root, k + 1)
  {
    var g0 := a0.pieces[root].group;
    var ms, piece := a.groups[g0].members, a.groups[g0].members[k];
    var r := ConnectAll(a, piece, os, snap);
    var b := r.0;
    ConnectAllTracked(a0, a, root, piece, os, snap);
    ConnectAllKeeps(a, root, g0, piece, os, snap);
    var ms', R, R' := b.groups[g0].members, a.pieces[root].group, b.pieces[root].group;
    assert a.pieces[piece] == a0.pieces[piece].(group := R);
    forall t, q | 0 <= t < k + 1 && t < |ms'| && 0 <= q < |b.pieces| && b.pieces[q].group != R' && q in B0 &&
                  Aabb.Test(B0[q], BoxOf(a0.pieces[ms'[t]]))
      ensures !SnapsAt(a0, ms'[t], q)
    {
      assert a.pieces[q].group != R;
      assert ms'[t] == ms[t];
      if t == k {
        assert B[q] == B0[q] && q in os;
      }
    }
  }

  /**
   * One turn of the first loop of placePieces: the k-th piece the root's
   * first group g0 lists is re-filed, its candidates `os` are the pieces
   * outside its group whose boxes meet its box, and it is connected with
   * each of them in turn.
   */
  method ConnectMember(board: Board, index: Bvh.BVH, root: int, g0: int, k: int, snap: int,
                       ghost a0: Arena, ghost B0: map<int, Aabb.AABB>) returns (snap': int, ghost os: seq<int>)
    requires board.Valid() && index.Valid()
    requires Connecting(a0, B0, board.State(), index.boxes, root, snap) && g0 == a0.pieces[root].group
    requires 0 <= k < |board.groups[g0].members|
    requires Exhausted(a0, B0, board.State(), root, k)
    modifies board, index, index.tree
    ensures board.Valid() && index.Valid()
    ensures var piece := old(board.groups[g0].members[k]);
      (forall t | 0 <= t < |os| :: 0 <= os[t] < |old(board.pieces)|) &&
      (forall j :: j in os <==> j in Bvh.Overlapping(old(index.boxes) - {piece}, BoxOf(old(board.pieces[piece]))) &&
                                j !in old(board.groups[board.pieces[piece].group].members)) &&
      (board.State(), snap') == ConnectAll(old(board.State()), piece, os, snap)
    ensures Connecting(a0, B0, board.State(), index.boxes, root, snap')
    ensures Exhausted(a0, B0, board.State(), root, k + 1)
    ensures old(board.groups[g0].members) <= board.groups[g0].members
  {
    ghost var a, B := board.State(), index.boxes;
    var piece := board.groups[g0].members[k];
    var cs := Candidates(index, board.pieces, piece, board.groups[board.pieces[piece].group].members);
    CandidatesCover(a, B, root, piece, cs);
    snap' := ConnectCandidates(board, piece, cs, snap);
    ConnectingStep(a0, B0, a, B, index.boxes, root, k, cs, snap, BoxOf(a.pieces[piece]));
    ExhaustedStep(a0, B0, a, B, root, k, cs, snap);
    os := cs;
  }

  /**
   * The first loop of placePieces: every piece the root's group lists,
   * including the ones it gains on the way, is re-filed and connected; the
   * anchor starts at the root.
   */
  method ConnectGroup(board: Board, index: Bvh.BVH, root: int) returns (snap: int)
    requires board.Valid() && index.Valid() && 0 <= root < |board.pieces|
    requires forall i :: i in index.boxes <==> 0 <= i < |board.pieces|
    modifies board, index, index.tree
    ensures board.Valid() && index.Valid()
    ensures Connecting(old(board.State()), old(index.boxes), board.State(), index.boxes, root, snap)
    ensures Exhausted(old(board.State()), old(index.boxes), board.State(), root,
                      |board.groups[old(board.pieces[root].group)].members|)
    ensures old(board.groups[board.pieces[root].group].members) <= board.groups[old(board.pieces[root].group)].members
  {
    ghost var a0, B0 := board.State(), index.boxes;
    var g0 := board.pieces[root].group;
    ConnectingStart(a0, B0, root);
    snap := root;
    var k := 0;
    while k < |board.groups[g0].members|
      invariant board.Valid() && index.Valid()
      invariant Connecting(a0, B0, board.State(), index.boxes, root, snap)
      invariant Exhausted(a0, B0, board.State(), root, k)
      invariant k <= |board.groups[g0].members|
      invariant a0.groups[g0].members <= board.groups[g0].members
      decreases |board.pieces| - k
    {
      MembersBound(board.State(), g0);
      ghost var os;
      snap, os := ConnectMember(board, index, root, g0, k, snap, a0, B0);
      k := k + 1;
    }
  }

  /** With every piece filed, a group's members are filed pieces. */
  lemma MembersFiled(ps: seq<Piece>, ms: seq<int>, B: map<int, Aabb.AABB>)
    requires forall i :: i in B <==> 0 <= i < |ps|
    requires forall t | 0 <= t < |ms| :: 0 <= ms[t] < |ps|
    ensures forall t | 0 <= t < |ms| :: ms[t] in B
    ensures forall i | i in B :: 0 <= i < |ps|
  {
  }

  /** With every member re-filed, the index holds the pieces it held before. */
  lemma IndexedKeys(B0: map<int, Aabb.AABB>, B: map<int, Aabb.AABB>, ps: seq<Piece>, ms: seq<int>, z: int)
    requires forall t | 0 <= t < |ms| :: 0 <= ms[t] < |ps| && ms[t] in B0
    requires Indexed(B0, B, ps, ms, |ms|, z)
    ensures forall i :: i in B <==> i in B0
  {
    assert ms[..|ms|] == ms;
  }

  /**
   * The arena placePieces leaves from `a`, the arena after its first loop:
   * the root's group R frozen where due, its members aligned on the anchor,
   * released and stacked at z-index z + 2.
   */
  ghost function Settled(a: Arena, root: int, snap: int, edgeCount: int, z: int): Arena
    requires Wf(a) && 0 <= root < |a.pieces| && 0 <= snap < |a.pieces|
  {
    assert PieceOk(a, root) && PieceOk(a, snap) && GroupOk(a, a.pieces[root].group);
    var R := a.pieces[root].group;
    var G := a.groups[R].members;
    var f := a.groups[R].frozen || ShouldFreeze(a.pieces, G, edgeCount);
    Arena(Marked(CorrectedOver(a.pieces, G, snap), G, false, z + 2), a.groups[R := a.groups[R].(frozen := f)])
  }

  /** The pieces after a drop: inside the root's group aligned on the anchor, released and raised; outside untouched. */
  ghost predicate DroppedPieces(a0: Arena, a: Arena, root: int, snap: int, z: int)
    requires |a.pieces| == |a0.pieces| && 0 <= root < |a.pieces| && 0 <= snap < |a.pieces|
  {
    var R := a.pieces[root].group;
    a.pieces[snap].group == R &&
    a.pieces[snap].x == a0.pieces[snap].x && a.pieces[snap].y == a0.pieces[snap].y &&
    forall i | 0 <= i < |a.pieces| ::
      if a.pieces[i].group == R then
        a.pieces[i] == a0.pieces[i].(group := R, x := a.pieces[i].x, y := a.pieces[i].y, grabbed := false, zIndex := z + 2) &&
        (i != snap ==> Aligned(a.pieces[snap], a.pieces[i]))
      else
        a.pieces[i] == a0.pieces[i]
  }

  /** The index after a drop: the members of the root's group under their new boxes, every other piece as before. */
  ghost predicate DroppedIndex(a0: Arena, B0: map<int, Aabb.AABB>, a: Arena, B: map<int, Aabb.AABB>, root: int)
    requires |a.pieces| == |a0.pieces| && 0 <= root < |a.pieces|
  {
    (forall i :: i in B0 <==> 0 <= i < |a0.pieces|) &&
    (forall i :: i in B <==> 0 <= i < |a0.pieces|) &&
    forall i | 0 <= i < |a.pieces| ::
      B[i] == if a.pieces[i].group == a.pieces[root].group then BoxOf(a.pieces[i]) else B0[i]
  }

  /** After a drop the root's group lies above every piece outside it whose box meets one of its members' boxes. */
  ghost predicate DroppedOrder(a: Arena, B: map<int, Aabb.AABB>, root: int)
    requires 0 <= root < |a.pieces| && forall i :: i in B <==> 0 <= i < |a.pieces|
  {
    var R := a.pieces[root].group;
    forall q, m | 0 <= q < |a.pieces| && 0 <= m < |a.pieces| && a.pieces[q].group != R && a.pieces[m].group == R &&
                  Aabb.Test(B[q], B[m]) ::
      a.pieces[q].zIndex < a.pieces[m].zIndex
  }

  /**
   * The level a drop stacks on: `z` is the highest z-index of a piece
   * outside the root's group whose box meets a member's box after the drop,
   * or 0 when there is none.
   */
  ghost predicate DroppedTop(a: Arena, B: map<int, Aabb.AABB>, root: int, z: int)
    requires 0 <= root < |a.pieces| && forall i :: i in B <==> 0 <= i < |a.pieces|
  {
    var R := a.pieces[root].group;
    (forall q, m | 0 <= q < |a.pieces| && 0 <= m < |a.pieces| && a.pieces[q].group != R && a.pieces[m].group == R &&
                   Aabb.Test(B[q], B[m]) :: a.pieces[q].zIndex <= z) &&
    (z == 0 || exists q, m | 0 <= q < |a.pieces| && 0 <= m < |a.pieces| && a.pieces[q].group != R && a.pieces[m].group == R &&
                             Aabb.Test(B[q], B[m]) :: a.pieces[q].zIndex == z)
  }

  /**
   * After a drop the root's group R is frozen exactly when one of the groups
   * it gathered was, or when it is due.
   */
  ghost predicate DroppedFrozen(a0: Arena, a: Arena, root: int, edgeCount: int)
    requires Wf(a0) && Wf(a) && |a.pieces| == |a0.pieces| && 0 <= root < |a.pieces|
  {
    var R := a.pieces[root].group;
    0 <= R < |a.groups| && GroupOk(a, R) &&
    a.groups[R].frozen == (MergedFrozen(a0, a, root) || ShouldFreeze(a.pieces, a.groups[R].members, edgeCount))
  }

  /** After a drop the group of every piece outside the root's group R is as it was. */
  ghost predicate DroppedGroups(a0: Arena, a: Arena, root: int)
    requires Wf(a0) && Wf(a) && |a.pieces| == |a0.pieces| && 0 <= root < |a.pieces|
  {
    var R := a.pieces[root].group;
    forall i | 0 <= i < |a.pieces| && a.pieces[i].group != R :: a.groups[a.pieces[i].group] == a0.groups[a0.pieces[i].group]
  }

  /**
   * Which groups a drop merges, and on which piece it aligns them: a group
   * joins root's group only through a snap; the anchor is the root or a
   * piece of a strictly larger group; the list of root's first group g0
   * only grows; and no piece outside the new group snaps with a piece that
   * list holds while their boxes (from before the drop) meet.
   */
  ghost predicate DroppedJoins(a0: Arena, B0: map<int, Aabb.AABB>, a: Arena, root: int, snap: int)
    requires Wf(a0) && Wf(a) && |a.pieces| == |a0.pieces| && 0 <= root < |a.pieces| && 0 <= snap < |a.pieces|
  {
    var g0 := a0.pieces[root].group;
    assert PieceOk(a0, root);
    JoinedBySnaps(a0, a, root) && Anchored(a0, root, snap) &&
    a0.groups[g0].members <= a.groups[g0].members &&
    Exhausted(a0, B0, a, root, |a.groups[g0].members|)
  }

  /**
   * What placePieces promises for a drop of `root` from arena `a0` and index
   * boxes `B0` to `a` and `B`, with anchor `snap` and `z` the highest
   * z-index met (0 when none): groups only merge, and only through a snap,
   * so the dropped group stays together and every neighbour it meets in
   * snapping distance is in it; the new group is aligned on the anchor,
   * released and stacked above whatever it overlaps, and frozen exactly
   * when a group it gathered was or when it is due; and every piece outside
   * it keeps its record, its box and its group's record.
   */
  ghost predicate Dropped(a0: Arena, B0: map<int, Aabb.AABB>, a: Arena, B: map<int, Aabb.AABB>,
                          root: int, snap: int, z: int, edgeCount: int)
  {
    Wf(a0) && Wf(a) && |a.pieces| == |a0.pieces| && 0 <= root < |a.pieces| && 0 <= snap < |a.pieces| &&
    Merges(a0, a) && z >= 0 &&
    DroppedPieces(a0, a, root, snap, z) &&
    DroppedIndex(a0, B0, a, B, root) && DroppedOrder(a, B, root) && DroppedTop(a, B, root, z) &&
    DroppedFrozen(a0, a, root, edgeCount) && DroppedGroups(a0, a, root) &&
    DroppedJoins(a0, B0, a, root, snap)
  }

  /** The second loop of placePieces on the arena after the first: the members of the root's group re-filed under their aligned boxes. */
  ghost predicate Restacked(a: Arena, B: map<int, Aabb.AABB>, B2: map<int, Aabb.AABB>, root: int, snap: int, z: int)
    requires Wf(a) && 0 <= root < |a.pieces| && 0 <= snap < |a.pieces|
  {
    assert PieceOk(a, root) && PieceOk(a, snap) && GroupOk(a, a.pieces[root].group);
    var G := a.groups[a.pieces[root].group].members;
    Indexed(B, B2, CorrectedOver(a.pieces, G, snap), G, |G|, z)
  }



  /** Releasing and raising two pieces does not change whether one sits where the other puts it. */
  lemma AlignedMarked(p: Piece, q: Piece, grabbed: bool, z: int)
    requires Aligned(p, q)
    ensures Aligned(p.(grabbed := grabbed, zIndex := z), q.(grabbed := grabbed, zIndex := z))
  {
    assert GridOffset(p.(grabbed := grabbed, zIndex := z), q.(grabbed := grabbed, zIndex := z)) == GridOffset(p, q);
  }

  /** The settled arena piece by piece: members of R placed on the anchor, released and raised; the rest as they were. */
  lemma SettledAt(a: Arena, root: int, snap: int, edgeCount: int, z: int)
    requires Wf(a) && 0 <= root < |a.pieces| && 0 <= snap < |a.pieces|
    requires a.pieces[snap].group == a.pieces[root].group
    ensures var s, R := Settled(a, root, snap, edgeCount, z), a.pieces[root].group;
      |s.pieces| == |a.pieces| && s.groups == a.groups[R := s.groups[R]] &&
      s.groups[R] == a.groups[R].(frozen := s.groups[R].frozen) &&
      s.pieces[snap] == a.pieces[snap].(grabbed := false, zIndex := z + 2) &&
      forall i | 0 <= i < |a.pieces| ::
        if a.pieces[i].group == R then
          s.pieces[i] == a.pieces[i].(x := s.pieces[i].x, y := s.pieces[i].y, grabbed := false, zIndex := z + 2) &&
          (i != snap ==> Aligned(s.pieces[snap], s.pieces[i]))
        else
          s.pieces[i] == a.pieces[i]
  {
    assert PieceOk(a, root) && PieceOk(a, snap) && GroupOk(a, a.pieces[root].group);
    var R := a.pieces[root].group;
    var G := a.groups[R].members;
    var P := CorrectedOver(a.pieces, G, snap);
    CorrectedAligned(a.pieces, G, snap);
    MarkedResult(P, G, false, z + 2);
    var s := Settled(a, root, snap, edgeCount, z);
    assert Exact(a, R);
    forall i | 0 <= i < |a.pieces| && a.pieces[i].group == R && i != snap
      ensures Aligned(s.pieces[snap], s.pieces[i])
    {
      assert i in G;
      AlignedMarked(a.pieces[snap], P[i], false, z + 2);
    }
  }

  /** The settled arena is well formed and keeps every piece in its group. */
  lemma SettledWf(a: Arena, root: int, snap: int, edgeCount: int, z: int)
    requires Wf(a) && 0 <= root < |a.pieces| && 0 <= snap < |a.pieces|
    requires a.pieces[snap].group == a.pieces[root].group
    ensures var s := Settled(a, root, snap, edgeCount, z);
      Wf(s) && |s.pieces| == |a.pieces| &&
      forall i | 0 <= i < |a.pieces| :: s.pieces[i].group == a.pieces[i].group
  {
    assert PieceOk(a, root) && PieceOk(a, snap) && GroupOk(a, a.pieces[root].group);
    var R := a.pieces[root].group;
    var G := a.groups[R].members;
    var P := CorrectedOver(a.pieces, G, snap);
    CorrectedKeeps(a, G, snap);
    WfFrame(a, Arena(P, a.groups));
    MarkedResult(P, G, false, z + 2);
    KeepWf(Arena(P, a.groups), Marked(P, G, false, z + 2));
    FrozenWf(Arena(Marked(P, G, false, z + 2), a.groups), R, a.groups[R].frozen || ShouldFreeze(a.pieces, G, edgeCount));
  }

  /** Keeping every piece in its group keeps a merge a merge. */
  lemma MergesRegrouped(a0: Arena, a: Arena, s: Arena)
    requires Merges(a0, a) && |s.pieces| == |a.pieces|
    requires forall i | 0 <= i < |a.pieces| :: s.pieces[i].group == a.pieces[i].group
    ensures Merges(a0, s)
  {
    forall i, j | 0 <= i < |a0.pieces| && 0 <= j < |a0.pieces| && a0.pieces[i].group == a0.pieces[j].group
      ensures s.pieces[i].group == s.pieces[j].group
    {
      assert a.pieces[i].group == a.pieces[j].group;
    }
  }

  /** The pieces of the settled arena are what DroppedPieces says. */
  lemma SettledPieces(a0: Arena, a: Arena, root: int, snap: int, edgeCount: int, z: int)
    requires Wf(a) && 0 <= root < |a.pieces| && 0 <= snap < |a.pieces|
    requires a.pieces[snap].group == a.pieces[root].group && OnlyRegrouped(a0, a)
    requires forall i | 0 <= i < |a.pieces| && a.pieces[i].group != a.pieces[root].group :: a.pieces[i] == a0.pieces[i]
    ensures var s := Settled(a, root, snap, edgeCount, z);
      |s.pieces| == |a0.pieces| && DroppedPieces(a0, s, root, snap, z)
  {
    SettledAt(a, root, snap, edgeCount, z);
  }

  /** The index after the second loop is what DroppedIndex says. */
  lemma SettledIndex(a0: Arena, B0: map<int, Aabb.AABB>, a: Arena, B: map<int, Aabb.AABB>, B2: map<int, Aabb.AABB>,
                     root: int, snap: int, edgeCount: int, z: int)
    requires Wf(a) && 0 <= root < |a.pieces| && 0 <= snap < |a.pieces| && |a0.pieces| == |a.pieces|
    requires a.pieces[snap].group == a.pieces[root].group
    requires Restacked(a, B, B2, root, snap, z)
    requires (forall i :: i in B0 <==> 0 <= i < |a.pieces|) && (forall i :: i in B <==> 0 <= i < |a.pieces|)
    requires forall i | 0 <= i < |a.pieces| && a.pieces[i].group != a.pieces[root].group :: B[i] == B0[i]
    ensures var s := Settled(a, root, snap, edgeCount, z);
      |s.pieces| == |a0.pieces| && DroppedIndex(a0, B0, s, B2, root)
  {
    SettledAt(a, root, snap, edgeCount, z);
    assert PieceOk(a, root) && PieceOk(a, snap) && GroupOk(a, a.pieces[root].group);
    var R := a.pieces[root].group;
    var G := a.groups[R].members;
    var P := CorrectedOver(a.pieces, G, snap);
    var s := Settled(a, root, snap, edgeCount, z);
    assert Exact(a, R);
    forall i | 0 <= i < |a.pieces| && a.pieces[i].group == R
      ensures B2[i] == BoxOf(s.pieces[i])
    {
      var t :| 0 <= t < |G| && G[t] == i;
      assert B2[i] == BoxOf(P[i]);
    }
  }

  /** After the second loop the root's group lies above every piece it overlaps. */
  lemma SettledOrder(a: Arena, B: map<int, Aabb.AABB>, B2: map<int, Aabb.AABB>,
                     root: int, snap: int, edgeCount: int, z: int)
    requires Wf(a) && 0 <= root < |a.pieces| && 0 <= snap < |a.pieces|
    requires a.pieces[snap].group == a.pieces[root].group
    requires Restacked(a, B, B2, root, snap, z)
    requires forall i :: i in B <==> 0 <= i < |a.pieces|
    ensures var s := Settled(a, root, snap, edgeCount, z);
      |s.pieces| == |a.pieces| && (forall i :: i in B2 <==> 0 <= i < |a.pieces|) && DroppedOrder(s, B2, root)
  {
    SettledAt(a, root, snap, edgeCount, z);
    assert PieceOk(a, root) && PieceOk(a, snap) && GroupOk(a, a.pieces[root].group);
    var R := a.pieces[root].group;
    var G := a.groups[R].members;
    var P := CorrectedOver(a.pieces, G, snap);
    var s := Settled(a, root, snap, edgeCount, z);
    assert Exact(a, R);
    forall q, m | 0 <= q < |s.pieces| && 0 <= m < |s.pieces| && s.pieces[q].group != R && s.pieces[m].group == R &&
                  Aabb.Test(B2[q], B2[m])
      ensures s.pieces[q].zIndex < s.pieces[m].zIndex
    {
      var t :| 0 <= t < |G| && G[t] == m;
      assert q !in G && B2[q] == B[q] && P[q] == a.pieces[q];
      assert P[q].zIndex <= z;
    }
  }

  /** After the drop `z` is the highest z-index of an outside piece overlapping the root's group, or 0. */
  lemma SettledTop(a: Arena, B: map<int, Aabb.AABB>, B2: map<int, Aabb.AABB>,
                   root: int, snap: int, edgeCount: int, z: int)
    requires Wf(a) && 0 <= root < |a.pieces| && 0 <= snap < |a.pieces|
    requires a.pieces[snap].group == a.pieces[root].group
    requires Restacked(a, B, B2, root, snap, z)
    requires forall i :: i in B <==> 0 <= i < |a.pieces|
    ensures var s := Settled(a, root, snap, edgeCount, z);
      |s.pieces| == |a.pieces| && (forall i :: i in B2 <==> 0 <= i < |a.pieces|) && DroppedTop(s, B2, root, z)
  {
    SettledTopBound(a, B, B2, root, snap, edgeCount, z);
    SettledTopMet(a, B, B2, root, snap, edgeCount, z);
  }

  /** No outside piece overlapping the root's group after the drop lies above `z`. */
  lemma SettledTopBound(a: Arena, B: map<int, Aabb.AABB>, B2: map<int, Aabb.AABB>,
                        root: int, snap: int, edgeCount: int, z: int)
    requires Wf(a) && 0 <= root < |a.pieces| && 0 <= snap < |a.pieces|
    requires a.pieces[snap].group == a.pieces[root].group
    requires Restacked(a, B, B2, root, snap, z)
    requires forall i :: i in B <==> 0 <= i < |a.pieces|
    ensures var s, R := Settled(a, root, snap, edgeCount, z), a.pieces[root].group;
      |s.pieces| == |a.pieces| && (forall i :: i in B2 <==> 0 <= i < |a.pieces|) && s.pieces[root].group == R &&
      forall q, m | 0 <= q < |s.pieces| && 0 <= m < |s.pieces| && s.pieces[q].group != R && s.pieces[m].group == R &&
                    Aabb.Test(B2[q], B2[m]) :: s.pieces[q].zIndex <= z
  {
    SettledAt(a, root, snap, edgeCount, z);
    assert PieceOk(a, root) && PieceOk(a, snap) && GroupOk(a, a.pieces[root].group);
    var R := a.pieces[root].group;
    var G := a.groups[R].members;
    var P := CorrectedOver(a.pieces, G, snap);
    var s := Settled(a, root, snap, edgeCount, z);
    assert Exact(a, R);
    forall q, m | 0 <= q < |s.pieces| && 0 <= m < |s.pieces| && s.pieces[q].group != R && s.pieces[m].group == R &&
                  Aabb.Test(B2[q], B2[m])
      ensures s.pieces[q].zIndex <= z
    {
      var t :| 0 <= t < |G| && G[t] == m;
      assert q !in G && B2[q] == B[q] && P[q] == a.pieces[q];
    }
  }

  /** When `z` is not 0, some outside piece overlapping the root's group after the drop lies at `z`. */
  lemma SettledTopMet(a: Arena, B: map<int, Aabb.AABB>, B2: map<int, Aabb.AABB>,
                      root: int, snap: int, edgeCount: int, z: int)
    requires Wf(a) && 0 <= root < |a.pieces| && 0 <= snap < |a.pieces|
    requires a.pieces[snap].group == a.pieces[root].group
    requires Restacked(a, B, B2, root, snap, z)
    requires forall i :: i in B <==> 0 <= i < |a.pieces|
    ensures var s, R := Settled(a, root, snap, edgeCount, z), a.pieces[root].group;
      |s.pieces| == |a.pieces| && (forall i :: i in B2 <==> 0 <= i < |a.pieces|) && s.pieces[root].group == R &&
      (z == 0 || exists q, m | 0 <= q < |s.pieces| && 0 <= m < |s.pieces| && s.pieces[q].group != R && s.pieces[m].group == R &&
                               Aabb.Test(B2[q], B2[m]) :: s.pieces[q].zIndex == z)
  {
    SettledAt(a, root, snap, edgeCount, z);
    assert PieceOk(a, root) && PieceOk(a, snap) && GroupOk(a, a.pieces[root].group);
    var R := a.pieces[root].group;
    var G := a.groups[R].members;
    var P := CorrectedOver(a.pieces, G, snap);
    var s := Settled(a, root, snap, edgeCount, z);
    if z != 0 {
      var q, t :| q in B && q !in G && 0 <= t < |G| && Aabb.Test(B[q], BoxOf(P[G[t]])) && P[q].zIndex == z;
      var m := G[t];
      assert Exact(a, R);
      assert B2[q] == B[q] && B2[m] == BoxOf(P[m]) && P[q] == a.pieces[q];
      assert 0 <= q < |a.pieces| && a.pieces[q].group != R && a.pieces[m].group == R;
      assert s.pieces[q] == a.pieces[q];
      assert s.pieces[m].group == R;
    }
  }

  /** The group of the root after the drop is frozen when it was before, and when it is due. */
  lemma SettledFrozen(a0: Arena, a: Arena, root: int, snap: int, edgeCount: int, z: int)
    requires Wf(a0) && Wf(a) && 0 <= root < |a.pieces| && 0 <= snap < |a.pieces| && |a0.pieces| == |a.pieces|
    requires a.pieces[snap].group == a.pieces[root].group
    requires a.groups[a.pieces[root].group].frozen == MergedFrozen(a0, a, root)
    ensures var s := Settled(a, root, snap, edgeCount, z);
      Wf(s) && |s.pieces| == |a0.pieces| && DroppedFrozen(a0, s, root, edgeCount)
  {
    SettledWf(a, root, snap, edgeCount, z);
    SettledAt(a, root, snap, edgeCount, z);
    assert PieceOk(a, root) && GroupOk(a, a.pieces[root].group);
    var s := Settled(a, root, snap, edgeCount, z);
    CountEdgesSameFlags(a.pieces, s.pieces, a.groups[a.pieces[root].group].members);
    MergedFrozenSame(a0, a, s, root);
  }

  /** Settling changes only the record of the root's group R, so every other group's record stays as the first loop left it. */
  lemma SettledGroups(a0: Arena, a: Arena, root: int, snap: int, edgeCount: int, z: int)
    requires Wf(a0) && Wf(a) && 0 <= root < |a.pieces| && 0 <= snap < |a.pieces| && |a0.pieces| == |a.pieces|
    requires a.pieces[snap].group == a.pieces[root].group
    requires forall i | 0 <= i < |a.pieces| && a.pieces[i].group != a.pieces[root].group ::
      a.groups[a.pieces[i].group] == a0.groups[a0.pieces[i].group]
    ensures var s := Settled(a, root, snap, edgeCount, z);
      Wf(s) && |s.pieces| == |a0.pieces| && DroppedGroups(a0, s, root)
  {
    SettledWf(a, root, snap, edgeCount, z);
    SettledAt(a, root, snap, edgeCount, z);
  }

  /** Settling changes no group of a piece and no member list, so it keeps what the first loop found. */
  lemma SettledJoins(a0: Arena, B0: map<int, Aabb.AABB>, a: Arena, root: int, snap: int, edgeCount: int, z: int)
    requires Wf(a0) && Wf(a) && |a.pieces| == |a0.pieces| && 0 <= root < |a.pieces| && 0 <= snap < |a.pieces|
    requires a.pieces[snap].group == a.pieces[root].group
    requires DroppedJoins(a0, B0, a, root, snap)
    ensures var s := Settled(a, root, snap, edgeCount, z);
      Wf(s) && |s.pieces| == |a0.pieces| && DroppedJoins(a0, B0, s, root, snap)
  {
    SettledWf(a, root, snap, edgeCount, z);
    SettledAt(a, root, snap, edgeCount, z);
    var s := Settled(a, root, snap, edgeCount, z);
    assert forall h | 0 <= h < |a.groups| :: s.groups[h].members == a.groups[h].members;
    JoinedSame(a0, a, s, root);
    ExhaustedSame(a0, B0, a, s, root, |a.groups[a0.pieces[root].group].members|);
  }

  /** Exhausted reads only the groups of the pieces and the member lists. */
  lemma ExhaustedSame(a0: Arena, B0: map<int, Aabb.AABB>, a: Arena, s: Arena, root: int, k: int)
    requires Wf(a0) && Wf(a) && Wf(s) && |a.pieces| == |a0.pieces| && |s.pieces| == |a.pieces| && 0 <= root < |a.pieces|
    requires forall i | 0 <= i < |a.pieces| :: s.pieces[i].group == a.pieces[i].group
    requires forall h | 0 <= h < |a.groups| :: s.groups[h].members == a.groups[h].members
    requires Exhausted(a0, B0, a, root, k)
    ensures Exhausted(a0, B0, s, root, k)
  {
    assert s.groups[a0.pieces[root].group].members == a.groups[a0.pieces[root].group].members;
  }

  /** Everything the drop promises, from the state after the first loop. */
  lemma SettledDrops(a0: Arena, B0: map<int, Aabb.AABB>, a: Arena, B: map<int, Aabb.AABB>, B2: map<int, Aabb.AABB>,
                     root: int, snap: int, edgeCount: int, z: int)
    requires Connecting(a0, B0, a, B, root, snap) && Restacked(a, B, B2, root, snap, z)
    requires Exhausted(a0, B0, a, root, |a.groups[a0.pieces[root].group].members|)
    ensures Dropped(a0, B0, Settled(a, root, snap, edgeCount, z), B2, root, snap, z, edgeCount)
  {
    SettledJoins(a0, B0, a, root, snap, edgeCount, z);
    SettledWf(a, root, snap, edgeCount, z);
    MergesRegrouped(a0, a, Settled(a, root, snap, edgeCount, z));
    SettledPieces(a0, a, root, snap, edgeCount, z);
    SettledIndex(a0, B0, a, B, B2, root, snap, edgeCount, z);
    SettledOrder(a, B, B2, root, snap, edgeCount, z);
    SettledTop(a, B, B2, root, snap, edgeCount, z);
    SettledFrozen(a0, a, root, snap, edgeCount, z);
    SettledGroups(a0, a, root, snap, edgeCount, z);
  }

  class PuzzleGame {
    const board: Board
    const bvh: Bvh.BVH
    const edgeCount: int

    /** The board is well formed and the BVH indexes exactly the pieces of the board. */
    ghost predicate Valid()
      reads this, board, bvh, bvh.tree
    {
      board.Valid() && bvh.Valid() && forall i :: i in bvh.boxes <==> 0 <= i < |board.pieces|
    }

    /**
     * new PuzzleGame(puzzle, savedPieces): the pieces of a c x r board, piece
     * i * r + j at column i, row j, an edge piece exactly on the border;
     * then the saved pieces restored and the others scattered (`scatter[id]`
     * is where the random draws put piece id); then, group by group in the
     * order of their heads, each group frozen where due, indexed, and
     * stacked above every earlier group it overlaps.
     */
    constructor (puzzle: Puzzles.Puzzle, saved: seq<Option<SavedPiece>>, scatter: seq<Placement>)
      requires puzzle.w != 0.0 && puzzle.c >= 0 && puzzle.r >= 0
      requires Restorable(saved, scatter, puzzle.c * puzzle.r)
      ensures Valid() && edgeCount == 2 * puzzle.c + 2 * puzzle.r - 4
      ensures Started(puzzle.c, puzzle.r, puzzle.h / puzzle.w, saved, scatter, edgeCount,
                      board.pieces, board.groups, bvh.boxes)
    {
      var ec := puzzle.c * 2 + puzzle.r * 2 - 4;
      var index := new Bvh.BVH();
      var ps, gs := Start(index, puzzle.c, puzzle.r, puzzle.h / puzzle.w, saved, scatter, ec);
      board := new Board(ps, gs);
      bvh := index;
      edgeCount := ec;
    }

    /** tryFreezeGroup: freeze group g when its first member is unturned and it holds `edgeCount` edge pieces. */
    method TryFreezeGroup(g: int)
      requires Valid() && 0 <= g < |board.pieces| && board.pieces[g].group == g
      modifies board
      ensures Valid() && board.pieces == old(board.pieces)
      ensures board.groups == old(board.groups)[g := old(board.groups[g]).(frozen := board.groups[g].frozen)]
      ensures GroupOk(board.State(), g)
      ensures board.groups[g].frozen ==
        (old(board.groups[g].frozen) || ShouldFreeze(board.pieces, board.groups[g].members, edgeCount))
    {
      ghost var a := board.State();
      assert PieceOk(a, g) && GroupOk(a, g);
      var group := board.groups[g];
      var f := FreezeTest(board.pieces, group.members, group.frozen, edgeCount);
      if f {
        board.groups := board.groups[g := group.(frozen := true)];
        FrozenWf(a, g, true);
      }
    }

    /** The last loop of placePieces: release every member of group g and put it at z-index z + 2. */
    method Release(g: int, z: int)
      requires Valid() && 0 <= g < |board.groups| && GroupOk(board.State(), g)
      modifies board
      ensures Valid() && board.groups == old(board.groups)
      ensures board.pieces == Marked(old(board.pieces), board.groups[g].members, false, z + 2)
    {
      ghost var a := board.State();
      var ps := MarkAll(board.pieces, board.groups[g].members, false, z + 2);
      MarkedResult(a.pieces, a.groups[g].members, false, z + 2);
      KeepWf(a, ps);
      board.pieces := ps;
    }

    /** The freezing test and correctPositions on the root's group R, aligned on `snap`. */
    method FreezeAndAlign(g: int, snap: int)
      requires Valid() && 0 <= g < |board.pieces| && board.pieces[g].group == g && 0 <= snap < |board.pieces|
      requires GroupOk(board.State(), g) && PieceOk(board.State(), snap)
      modifies board
      ensures Valid()
      ensures board.pieces == CorrectedOver(old(board.pieces), old(board.groups[g].members), snap)
      ensures board.groups == old(board.groups)[g := old(board.groups[g]).(frozen :=
        old(board.groups[g].frozen) || ShouldFreeze(old(board.pieces), old(board.groups[g].members), edgeCount))]
    {
      TryFreezeGroup(g);
      board.CorrectPositions(g, snap);
    }

    /** Everything placePieces does after its first loop, from the anchor `snap`. */
    method Settle(root: int, snap: int) returns (z: int)
      requires Valid() && 0 <= root < |board.pieces| && 0 <= snap < |board.pieces|
      requires board.pieces[snap].group == board.pieces[root].group
      modifies board, bvh, bvh.tree
      ensures Valid()
      ensures board.State() == Settled(old(board.State()), root, snap, edgeCount, z)
      ensures Restacked(old(board.State()), old(bvh.boxes), bvh.boxes, root, snap, z)
    {
      assert PieceOk(board.State(), root) && PieceOk(board.State(), snap);
      var R := board.pieces[root].group;
      assert GroupOk(board.State(), R);
      FreezeAndAlign(R, snap);
      var ps, ms := board.pieces, board.groups[R].members;
      MembersFiled(ps, ms, bvh.boxes);
      z := ReindexMembers(bvh, ps, ms);
      Release(R, z);
    }

    /**
     * placePieces: connect the dropped group with every neighbour in
     * snapping distance, freeze it where due, align it on the anchor and
     * stack it above whatever it overlaps. The network hook is not part of
     * the model. `snap` is the anchor and `z` the highest z-index met.
     */
    method PlacePieces(root: int) returns (ghost snap: int, ghost z: int)
      requires Valid() && 0 <= root < |board.pieces|
      modifies board, bvh, bvh.tree
      ensures Valid()
      ensures Dropped(old(board.State()), old(bvh.boxes), board.State(), bvh.boxes, root, snap, z, edgeCount)
    {
      ghost var a0, B0 := board.State(), bvh.boxes;
      var s := ConnectGroup(board, bvh, root);
      ghost var a, B := board.State(), bvh.boxes;
      var top := Settle(root, s);
      SettledDrops(a0, B0, a, B, bvh.boxes, root, s, edgeCount, top);
      snap, z := s, top;
    }

    /** grabPieces: grab every member of the root's group and raise it to z-index 9999. */
    method GrabPieces(root: int)
      requires Valid() && 0 <= root < |board.pieces|
      modifies board
      ensures Valid() && board.groups == old(board.groups)
      ensures board.pieces == Marked(old(board.pieces), old(board.groups[board.pieces[root].group].members), true, 9999)
    {
      ghost var a := board.State();
      var ms := board.groups[board.pieces[root].group].members;
      assert GroupOk(a, board.pieces[root].group);
      var ps := MarkAll(board.pieces, ms, true, 9999);
      MarkedResult(a.pieces, ms, true, 9999);
      KeepWf(a, ps);
      board.pieces := ps;
    }

    /**
     * getPieces: one record per piece, in id order, holding the id of its
     * group (which is the group's index) and its place and turn. The records
     * form a save the constructor accepts.
     */
    function GetPieces(): (saved: seq<SavedPiece>)
      reads this, board
      requires board.Valid()
      ensures |saved| == |board.pieces|
      ensures forall i | 0 <= i < |saved| ::
        var p := board.pieces[i];
        saved[i] == SavedPiece(p.group, p.x, p.y, p.orientation)
      ensures SaveConsistent(AllSaved(saved), |board.pieces|)
    {
      SaveRestores(board.State());
      var a := board.State();
      assert forall i | 0 <= i < |a.pieces| :: PieceOk(a, i) && GroupOk(a, a.pieces[i].group);
      SaveOf(a)
    }
  }
}
