/**
 * The snapping part of placePieces (src/logic/game.js:156-191): the moved
 * piece joins the group of every candidate that sits where it belongs, and
 * the piece the group is finally aligned on follows the larger group.
 */
module Snapping {
  import opened Pieces
  import opened GameRules
  import Aabb

  /** `b` only merges groups of `a`: pieces grouped together in `a` stay together in `b`. */
  ghost predicate Merges(a: Arena, b: Arena) {
    |b.pieces| == |a.pieces| &&
    forall i, j | 0 <= i < |a.pieces| && 0 <= j < |a.pieces| && a.pieces[i].group == a.pieces[j].group ::
      b.pieces[i].group == b.pieces[j].group
  }

  /** `b` has the pieces of `a`, changed at most in their groups. */
  ghost predicate OnlyRegrouped(a: Arena, b: Arena) {
    |b.pieces| == |a.pieces| &&
    forall i | 0 <= i < |a.pieces| :: b.pieces[i] == a.pieces[i].(group := b.pieces[i].group)
  }

  /** Two merges one after the other are a merge. */
  lemma MergesTrans(a: Arena, b: Arena, c: Arena)
    requires Merges(a, b) && Merges(b, c)
    ensures Merges(a, c)
  {
    forall i, j | 0 <= i < |a.pieces| && 0 <= j < |a.pieces| && a.pieces[i].group == a.pieces[j].group
      ensures c.pieces[i].group == c.pieces[j].group
    {
      assert b.pieces[i].group == b.pieces[j].group;
    }
  }

  /**
   * `groups[p].join(groups[q])` on a well-formed arena, whether or not the
   * two groups are the same: both groups end in one, which is frozen when
   * either was; the other groups and every other field are untouched, and
   * a member list only ever grows at its end.
   */
  lemma JoinRegroups(a: Arena, p: int, q: int)
    requires Wf(a) && 0 <= p < |a.pieces| && 0 <= q < |a.pieces|
    ensures var g, o := a.pieces[p].group, a.pieces[q].group;
      var b := JoinSpec(a, g, o);
      var s := b.pieces[p].group;
      Wf(b) && OnlyRegrouped(a, b) && |b.groups| == |a.groups| &&
      b.pieces[q].group == s &&
      (forall i | 0 <= i < |a.pieces| ::
         b.pieces[i].group == if a.pieces[i].group == g || a.pieces[i].group == o then s else a.pieces[i].group) &&
      (forall h | 0 <= h < |a.groups| && h != s :: b.groups[h] == a.groups[h]) &&
      (forall h | 0 <= h < |a.groups| :: a.groups[h].members <= b.groups[h].members) &&
      (s == g || s == o) &&
      b.groups[s].frozen == (a.groups[g].frozen || a.groups[o].frozen)
  {
    var g, o := a.pieces[p].group, a.pieces[q].group;
    assert PieceOk(a, p) && PieceOk(a, q);
    if g == o {
      JoinSelf(a, p);
    } else {
      JoinDistinct(a, p, q);
    }
  }

  /**
   * One candidate `other` of the moved piece `piece`: when the two snap, the
   * anchor `snap` passes to `other` if other's group is strictly larger
   * than the anchor's, and piece's group joins other's; otherwise nothing
   * happens.
   */
  function Connect(a: Arena, piece: int, other: int, snap: int): (r: (Arena, int))
    requires Wf(a) && 0 <= piece < |a.pieces| && 0 <= other < |a.pieces| && 0 <= snap < |a.pieces|
    ensures Wf(r.0) && |r.0.pieces| == |a.pieces| && 0 <= r.1 < |a.pieces|
  {
    var p, o := a.pieces[piece], a.pieces[other];
    assert PieceOk(a, piece) && PieceOk(a, snap);
    if Snaps(p, o) then
      JoinRegroups(a, piece, other);
      var snap' := if Size(a, a.pieces[snap].group) < Size(a, o.group) then other else snap;
      (JoinSpec(a, p.group, o.group), snap')
    else
      (a, snap)
  }

  /** The candidates `os` of `piece`, one after the other. */
  function ConnectAll(a: Arena, piece: int, os: seq<int>, snap: int): (r: (Arena, int))
    requires Wf(a) && 0 <= piece < |a.pieces| && 0 <= snap < |a.pieces|
    requires forall t | 0 <= t < |os| :: 0 <= os[t] < |a.pieces|
    ensures Wf(r.0) && |r.0.pieces| == |a.pieces| && 0 <= r.1 < |a.pieces|
  {
    if |os| == 0 then (a, snap)
    else
      var b := ConnectAll(a, piece, os[..|os| - 1], snap);
      Connect(b.0, piece, os[|os| - 1], b.1)
  }

  /** Whether piece `q` of `a` sits within snapping distance of where piece `p` puts it. */
  ghost predicate SnapsAt(a: Arena, p: int, q: int)
    requires 0 <= p < |a.pieces| && 0 <= q < |a.pieces|
  {
    0 <= a.pieces[p].orientation < 4 && Snaps(a.pieces[p], a.pieces[q])
  }

  /** Regrouping pieces does not change whether they snap. */
  lemma SnapsRegrouped(a: Arena, b: Arena, p: int, q: int)
    requires OnlyRegrouped(a, b) && 0 <= p < |a.pieces| && 0 <= q < |a.pieces|
    ensures SnapsAt(b, p, q) == SnapsAt(a, p, q)
  {
    var ap, aq, bp, bq := a.pieces[p], a.pieces[q], b.pieces[p], b.pieces[q];
    assert bp == ap.(group := bp.group) && bq == aq.(group := bq.group);
    assert IsNeighbor(bp, bq) == IsNeighbor(ap, aq);
    if 0 <= ap.orientation < 4 {
      assert GridOffset(bp, bq) == GridOffset(ap, aq);
      assert ConnectedPosition(bp, bq) == ConnectedPosition(ap, aq);
      assert SnapError(bp, bq) == SnapError(ap, aq);
    }
  }

  /** `a` only merges the groups of `a0`, and leaves every piece outside root's group as it was. */
  ghost predicate Regrouped(a0: Arena, a: Arena, root: int)
    requires |a.pieces| == |a0.pieces| && 0 <= root < |a.pieces|
  {
    Merges(a0, a) && OnlyRegrouped(a0, a) &&
    forall i | 0 <= i < |a.pieces| && a.pieces[i].group != a.pieces[root].group :: a.pieces[i] == a0.pieces[i]
  }

  /**
   * The pieces the outer loop of placePieces walks: the member list, in `a`,
   * of the group g0 root pointed at in `a0`.
   */
  ghost function Walked(a0: Arena, a: Arena, root: int): seq<int>
    requires 0 <= root < |a0.pieces|
  {
    var g0 := a0.pieces[root].group;
    if 0 <= g0 < |a.groups| then a.groups[g0].members else []
  }

  /**
   * Groups join root's group R only through a snap: every piece of R whose
   * group in `a0` was not root's own has a piece of its old group that
   * snaps with a walked piece from another old group.
   */
  ghost predicate JoinedBySnaps(a0: Arena, a: Arena, root: int)
    requires |a.pieces| == |a0.pieces| && 0 <= root < |a.pieces|
  {
    var g0, R := a0.pieces[root].group, a.pieces[root].group;
    forall i {:trigger SnapsInto(a0, a, root, i)} |
      0 <= i < |a.pieces| && a.pieces[i].group == R && a0.pieces[i].group != g0 :: SnapsInto(a0, a, root, i)
  }

  /**
   * Some piece of the old group of piece i snaps with a walked piece, now in
   * root's group, from another old group.
   */
  ghost predicate SnapsInto(a0: Arena, a: Arena, root: int, i: int)
    requires |a.pieces| == |a0.pieces| && 0 <= root < |a.pieces| && 0 <= i < |a.pieces|
  {
    exists p, q | 0 <= p < |a.pieces| && 0 <= q < |a.pieces| && p in Walked(a0, a, root) &&
                  a.pieces[p].group == a.pieces[root].group &&
                  a0.pieces[p].group != a0.pieces[i].group && a0.pieces[q].group == a0.pieces[i].group ::
      SnapsAt(a0, p, q)
  }

  /**
   * Root's group is frozen exactly when one of the groups of `a0` it has
   * gathered was: Group.join ORs the frozen flags of the two groups.
   */
  ghost predicate MergedFrozen(a0: Arena, a: Arena, root: int)
    requires |a.pieces| == |a0.pieces| && 0 <= root < |a.pieces|
  {
    exists i | 0 <= i < |a.pieces| && a.pieces[i].group == a.pieces[root].group && 0 <= a0.pieces[i].group < |a0.groups| ::
      a0.groups[a0.pieces[i].group].frozen
  }

  /** MergedFrozen reads only the groups of the pieces. */
  lemma MergedFrozenSame(a0: Arena, a: Arena, s: Arena, root: int)
    requires |a.pieces| == |a0.pieces| && |s.pieces| == |a.pieces| && 0 <= root < |a.pieces|
    requires forall i | 0 <= i < |a.pieces| :: s.pieces[i].group == a.pieces[i].group
    ensures MergedFrozen(a0, s, root) == MergedFrozen(a0, a, root)
  {
    if MergedFrozen(a0, a, root) {
      var i :| 0 <= i < |a.pieces| && a.pieces[i].group == a.pieces[root].group && 0 <= a0.pieces[i].group < |a0.groups| &&
               a0.groups[a0.pieces[i].group].frozen;
      assert s.pieces[i].group == s.pieces[root].group;
    }
    if MergedFrozen(a0, s, root) {
      var i :| 0 <= i < |s.pieces| && s.pieces[i].group == s.pieces[root].group && 0 <= a0.pieces[i].group < |a0.groups| &&
               a0.groups[a0.pieces[i].group].frozen;
      assert a.pieces[i].group == a.pieces[root].group;
    }
  }

  /**
   * The anchor rule: the anchor is the root, or a piece of another group of
   * `a0` that was strictly larger than root's.
   */
  ghost predicate Anchored(a0: Arena, root: int, snap: int)
    requires Wf(a0) && 0 <= root < |a0.pieces| && 0 <= snap < |a0.pieces|
  {
    var g0, h := a0.pieces[root].group, a0.pieces[snap].group;
    snap == root || (h != g0 && Size(a0, h) > Size(a0, g0))
  }

  /** JoinedBySnaps reads only the groups of the pieces and the walked list. */
  lemma JoinedSame(a0: Arena, a: Arena, s: Arena, root: int)
    requires |a.pieces| == |a0.pieces| && |s.pieces| == |a.pieces| && 0 <= root < |a.pieces|
    requires forall i | 0 <= i < |a.pieces| :: s.pieces[i].group == a.pieces[i].group
    requires Walked(a0, s, root) == Walked(a0, a, root)
    requires JoinedBySnaps(a0, a, root)
    ensures JoinedBySnaps(a0, s, root)
  {
    var R := a.pieces[root].group;
    forall i | 0 <= i < |s.pieces| && s.pieces[i].group == R && a0.pieces[i].group != a0.pieces[root].group
      ensures SnapsInto(a0, s, root, i)
    {
      assert SnapsInto(a0, a, root, i);
      var p, q :| 0 <= p < |a.pieces| && 0 <= q < |a.pieces| && p in Walked(a0, a, root) && a.pieces[p].group == R &&
                  a0.pieces[p].group != a0.pieces[i].group && a0.pieces[q].group == a0.pieces[i].group && SnapsAt(a0, p, q);
      assert s.pieces[p].group == R;
    }
  }

  /**
   * What the first loop of placePieces keeps about merges and the anchor,
   * against the arena `a0` before it: groups join root's group R only
   * through a snap; the anchor keeps its rule; R is at least as large as
   * root's group was; R is frozen exactly when a group it gathered was; and
   * the group of every piece outside R is as it was.
   */
  ghost predicate Tracked(a0: Arena, a: Arena, root: int, snap: int)
    requires Wf(a0) && Wf(a) && |a.pieces| == |a0.pieces| && 0 <= root < |a.pieces| && 0 <= snap < |a.pieces|
  {
    var g0, R := a0.pieces[root].group, a.pieces[root].group;
    JoinedBySnaps(a0, a, root) && Anchored(a0, root, snap) && Size(a, R) >= Size(a0, g0) &&
    a.groups[R].frozen == MergedFrozen(a0, a, root) &&
    forall i | 0 <= i < |a.pieces| && a.pieces[i].group != R :: a.groups[a.pieces[i].group] == a0.groups[a0.pieces[i].group]
  }

  /** Joining the group of `other` into root's group keeps JoinedBySnaps when the two snap. */
  lemma JoinJoinedBySnaps(a0: Arena, a: Arena, b: Arena, root: int, piece: int, other: int)
    requires Wf(a) && |a.pieces| == |a0.pieces| && 0 <= root < |a.pieces| && 0 <= piece < |a.pieces| && 0 <= other < |a.pieces|
    requires Regrouped(a0, a, root) && JoinedBySnaps(a0, a, root) && SnapsAt(a0, piece, other)
    requires a.pieces[piece].group == a.pieces[root].group && a.pieces[other].group != a.pieces[root].group
    requires piece in Walked(a0, a, root)
    requires b == JoinSpec(a, a.pieces[piece].group, a.pieces[other].group)
    ensures |b.pieces| == |a0.pieces| && JoinedBySnaps(a0, b, root)
  {
    JoinRegroups(a, piece, other);
    var R' := b.pieces[root].group;
    forall i | 0 <= i < |b.pieces| && b.pieces[i].group == R' && a0.pieces[i].group != a0.pieces[root].group
      ensures SnapsInto(a0, b, root, i)
    {
      JoinSnapsInto(a0, a, b, root, piece, other, i);
    }
  }

  /** One piece of the joined group: its old group is linked by a snap, found before the join or made by it. */
  lemma JoinSnapsInto(a0: Arena, a: Arena, b: Arena, root: int, piece: int, other: int, i: int)
    requires Wf(a) && |a.pieces| == |a0.pieces| && 0 <= root < |a.pieces| && 0 <= piece < |a.pieces| && 0 <= other < |a.pieces|
    requires Regrouped(a0, a, root) && JoinedBySnaps(a0, a, root) && SnapsAt(a0, piece, other)
    requires a.pieces[piece].group == a.pieces[root].group && a.pieces[other].group != a.pieces[root].group
    requires piece in Walked(a0, a, root)
    requires b == JoinSpec(a, a.pieces[piece].group, a.pieces[other].group)
    requires 0 <= i < |a.pieces| && |b.pieces| == |a.pieces|
    requires b.pieces[i].group == b.pieces[root].group && a0.pieces[i].group != a0.pieces[root].group
    ensures SnapsInto(a0, b, root, i)
  {
    JoinRegroups(a, piece, other);
    JoinWalked(a0, a, root, piece, other);
    var g, R' := a.pieces[piece].group, b.pieces[root].group;
    if a.pieces[i].group == g {
      assert SnapsInto(a0, a, root, i);
      var p, q :| 0 <= p < |a.pieces| && 0 <= q < |a.pieces| && p in Walked(a0, a, root) && a.pieces[p].group == g &&
                  a0.pieces[p].group != a0.pieces[i].group && a0.pieces[q].group == a0.pieces[i].group && SnapsAt(a0, p, q);
      assert b.pieces[p].group == R' && p in Walked(a0, b, root);
    } else {
      assert a.pieces[i] == a0.pieces[i] && a.pieces[other] == a0.pieces[other];
      assert a0.pieces[piece].group != a0.pieces[i].group;
      assert b.pieces[piece].group == R' && a0.pieces[other].group == a0.pieces[i].group;
      assert piece in Walked(a0, b, root);
    }
  }

  /** A join only extends the walked list. */
  lemma JoinWalked(a0: Arena, a: Arena, root: int, piece: int, other: int)
    requires Wf(a) && |a.pieces| == |a0.pieces| && 0 <= root < |a.pieces| && 0 <= piece < |a.pieces| && 0 <= other < |a.pieces|
    ensures Walked(a0, a, root) <= Walked(a0, JoinSpec(a, a.pieces[piece].group, a.pieces[other].group), root)
  {
    JoinRegroups(a, piece, other);
  }

  /** Checking candidates only extends every member list. */
  lemma {:induction false} ConnectAllGrows(a: Arena, piece: int, os: seq<int>, snap: int)
    requires Wf(a) && 0 <= piece < |a.pieces| && 0 <= snap < |a.pieces|
    requires forall t | 0 <= t < |os| :: 0 <= os[t] < |a.pieces|
    ensures var r := ConnectAll(a, piece, os, snap);
      |r.0.groups| == |a.groups| && forall h | 0 <= h < |a.groups| :: a.groups[h].members <= r.0.groups[h].members
  {
    if |os| > 0 {
      var b := ConnectAll(a, piece, os[..|os| - 1], snap);
      ConnectAllGrows(a, piece, os[..|os| - 1], snap);
      var c := Connect(b.0, piece, os[|os| - 1], b.1);
      if Snaps(b.0.pieces[piece], b.0.pieces[os[|os| - 1]]) {
        JoinRegroups(b.0, piece, os[|os| - 1]);
      }
    }
  }

  /** A join of root's group with another gathers that group's frozen flag, as MergedFrozen says. */
  lemma JoinMergedFrozen(a0: Arena, a: Arena, root: int, piece: int, other: int)
    requires Wf(a0) && Wf(a) && |a.pieces| == |a0.pieces| && 0 <= root < |a.pieces|
    requires 0 <= piece < |a.pieces| && 0 <= other < |a.pieces|
    requires a.pieces[piece].group == a.pieces[root].group && a.pieces[other].group != a.pieces[root].group
    requires a.groups[a.pieces[root].group].frozen == MergedFrozen(a0, a, root)
    requires forall i | 0 <= i < |a.pieces| && a.pieces[i].group != a.pieces[root].group ::
      a.groups[a.pieces[i].group] == a0.groups[a0.pieces[i].group]
    ensures var b := JoinSpec(a, a.pieces[piece].group, a.pieces[other].group);
      |b.pieces| == |a.pieces| && b.groups[b.pieces[root].group].frozen == MergedFrozen(a0, b, root)
  {
    JoinRegroups(a, piece, other);
    var b := JoinSpec(a, a.pieces[piece].group, a.pieces[other].group);
    var g, o, s := a.pieces[piece].group, a.pieces[other].group, b.pieces[piece].group;
    assert b.pieces[root].group == s;
    if MergedFrozen(a0, b, root) {
      var i :| 0 <= i < |b.pieces| && b.pieces[i].group == s && 0 <= a0.pieces[i].group < |a0.groups| &&
               a0.groups[a0.pieces[i].group].frozen;
      if a.pieces[i].group == g {
        assert MergedFrozen(a0, a, root);
      } else {
        assert a.pieces[i].group == o;
      }
    }
    if b.groups[s].frozen {
      if a.groups[g].frozen {
        var i :| 0 <= i < |a.pieces| && a.pieces[i].group == g && 0 <= a0.pieces[i].group < |a0.groups| &&
                 a0.groups[a0.pieces[i].group].frozen;
        assert b.pieces[i].group == s;
      } else {
        assert PieceOk(a0, other) && a.groups[o] == a0.groups[a0.pieces[other].group];
        assert b.pieces[other].group == s;
      }
    }
  }

  /**
   * One candidate keeps Tracked; and when the candidate snaps with the
   * moved piece it ends in the moved piece's group.
   */
  lemma ConnectTracked(a0: Arena, a: Arena, root: int, piece: int, other: int, snap: int)
    requires Wf(a0) && Wf(a) && |a.pieces| == |a0.pieces| && 0 <= root < |a.pieces|
    requires 0 <= piece < |a.pieces| && 0 <= other < |a.pieces| && 0 <= snap < |a.pieces|
    requires Regrouped(a0, a, root) && Tracked(a0, a, root, snap)
    requires a.pieces[piece].group == a.pieces[root].group && a.pieces[snap].group == a.pieces[root].group
    requires piece in Walked(a0, a, root)
    ensures var r := Connect(a, piece, other, snap);
      Tracked(a0, r.0, root, r.1) && Merges(a, r.0) &&
      (SnapsAt(a0, piece, other) ==> r.0.pieces[other].group == r.0.pieces[piece].group)
  {
    var g, o := a.pieces[piece].group, a.pieces[other].group;
    SnapsRegrouped(a0, a, piece, other);
    if !SnapsAt(a, piece, other) {
    } else if g == o {
      JoinSelf(a, piece);
    } else {
      var r := Connect(a, piece, other, snap);
      var b := r.0;
      JoinRegroups(a, piece, other);
      JoinDistinct(a, piece, other);
      JoinJoinedBySnaps(a0, a, b, root, piece, other);
      JoinMerges(a, piece, other);
      JoinRecordsOutside(a0, a, b, root, piece, other);
      JoinMergedFrozen(a0, a, root, piece, other);
      assert a.pieces[other] == a0.pieces[other];
      assert a0.pieces[other].group != a0.pieces[root].group;
    }
  }

  /** A join of root's group keeps the group record of every piece left outside it. */
  lemma JoinRecordsOutside(a0: Arena, a: Arena, b: Arena, root: int, piece: int, other: int)
    requires Wf(a) && |a.pieces| == |a0.pieces| && 0 <= root < |a.pieces| && 0 <= piece < |a.pieces| && 0 <= other < |a.pieces|
    requires a.pieces[piece].group == a.pieces[root].group && b == JoinSpec(a, a.pieces[piece].group, a.pieces[other].group)
    requires forall i | 0 <= i < |a.pieces| && a.pieces[i].group != a.pieces[root].group ::
      0 <= a0.pieces[i].group < |a0.groups| && a.groups[a.pieces[i].group] == a0.groups[a0.pieces[i].group]
    ensures |b.pieces| == |a.pieces| && |b.groups| == |a.groups|
    ensures forall i | 0 <= i < |b.pieces| && b.pieces[i].group != b.pieces[root].group ::
      0 <= b.pieces[i].group < |b.groups| && 0 <= a0.pieces[i].group < |a0.groups| &&
      b.groups[b.pieces[i].group] == a0.groups[a0.pieces[i].group]
  {
    JoinRegroups(a, piece, other);
    forall i | 0 <= i < |b.pieces| && b.pieces[i].group != b.pieces[root].group
      ensures 0 <= b.pieces[i].group < |b.groups| && 0 <= a0.pieces[i].group < |a0.groups| &&
        b.groups[b.pieces[i].group] == a0.groups[a0.pieces[i].group]
    {
      assert PieceOk(a, i) && a.pieces[i].group != a.pieces[piece].group;
    }
  }

  /** Keeps after Regrouped is Regrouped. */
  lemma RegroupedKeeps(a0: Arena, a: Arena, b: Arena, root: int, g0: int, piece: int, snap: int)
    requires Wf(a) && Wf(b) && |a.pieces| == |a0.pieces| && |b.pieces| == |a.pieces|
    requires 0 <= root < |a.pieces| && 0 <= g0 < |a.pieces| && 0 <= piece < |a.pieces| && 0 <= snap < |a.pieces|
    requires Regrouped(a0, a, root) && Keeps(a, b, root, g0, piece, snap)
    ensures Regrouped(a0, b, root)
  {
    MergesTrans(a0, a, b);
    forall i | 0 <= i < |b.pieces| && b.pieces[i].group != b.pieces[root].group
      ensures b.pieces[i] == a0.pieces[i]
    {
      assert a.pieces[i].group != a.pieces[root].group;
    }
  }

  /** Every candidate in turn keeps Regrouped, with the moved piece and the anchor in root's group. */
  lemma {:induction false} ConnectAllRegrouped(a0: Arena, a: Arena, root: int, piece: int, os: seq<int>, snap: int)
    requires Wf(a) && |a.pieces| == |a0.pieces| && 0 <= root < |a.pieces|
    requires 0 <= piece < |a.pieces| && 0 <= snap < |a.pieces| && forall t | 0 <= t < |os| :: 0 <= os[t] < |a.pieces|
    requires Regrouped(a0, a, root)
    requires a.pieces[piece].group == a.pieces[root].group && a.pieces[snap].group == a.pieces[root].group
    ensures var r := ConnectAll(a, piece, os, snap);
      var R' := r.0.pieces[root].group;
      Regrouped(a0, r.0, root) && r.0.pieces[piece].group == R' && r.0.pieces[r.1].group == R'
  {
    var R := a.pieces[root].group;
    assert PieceOk(a, root) && Exact(a, R);
    ConnectAllKeeps(a, root, R, piece, os, snap);
    var r := ConnectAll(a, piece, os, snap);
    RegroupedKeeps(a0, a, r.0, root, R, piece, r.1);
  }

  /**
   * Every candidate in turn keeps Tracked, and each candidate that snaps
   * with the moved piece ends in the moved piece's group.
   */
  lemma {:induction false} ConnectAllTracked(a0: Arena, a: Arena, root: int, piece: int, os: seq<int>, snap: int)
    requires Wf(a0) && Wf(a) && |a.pieces| == |a0.pieces| && 0 <= root < |a.pieces|
    requires 0 <= piece < |a.pieces| && 0 <= snap < |a.pieces| && forall t | 0 <= t < |os| :: 0 <= os[t] < |a.pieces|
    requires Regrouped(a0, a, root) && Tracked(a0, a, root, snap)
    requires a.pieces[piece].group == a.pieces[root].group && a.pieces[snap].group == a.pieces[root].group
    requires piece in Walked(a0, a, root)
    ensures var r := ConnectAll(a, piece, os, snap);
      Tracked(a0, r.0, root, r.1) && SnappedIn(a0, r.0, root, piece, os)
  {
    if |os| > 0 {
      var n := |os| - 1;
      var b := ConnectAll(a, piece, os[..n], snap);
      ConnectAllTracked(a0, a, root, piece, os[..n], snap);
      ConnectAllRegrouped(a0, a, root, piece, os[..n], snap);
      ConnectAllGrows(a, piece, os[..n], snap);
      assert piece in Walked(a0, b.0, root);
      ConnectTracked(a0, b.0, root, piece, os[n], b.1);
      var c := Connect(b.0, piece, os[n], b.1);
      SnappedExtend(a0, b.0, c.0, root, piece, os);
    }
  }

  /** Every candidate in `os` that snaps with the moved piece is in root's group. */
  ghost predicate SnappedIn(a0: Arena, a: Arena, root: int, piece: int, os: seq<int>)
    requires |a.pieces| == |a0.pieces| && 0 <= root < |a.pieces| && 0 <= piece < |a.pieces|
  {
    forall j | j in os && 0 <= j < |a.pieces| && SnapsAt(a0, piece, j) :: a.pieces[j].group == a.pieces[root].group
  }

  /** SnappedIn for all candidates but the last, a merge, and the last one's case give SnappedIn for all. */
  lemma SnappedExtend(a0: Arena, b: Arena, c: Arena, root: int, piece: int, os: seq<int>)
    requires |os| > 0 && |b.pieces| == |a0.pieces| && 0 <= root < |a0.pieces| && 0 <= piece < |a0.pieces|
    requires Merges(b, c) && SnappedIn(a0, b, root, piece, os[..|os| - 1])
    requires 0 <= os[|os| - 1] < |a0.pieces|
    requires SnapsAt(a0, piece, os[|os| - 1]) ==> c.pieces[os[|os| - 1]].group == c.pieces[root].group
    ensures |c.pieces| == |a0.pieces| && SnappedIn(a0, c, root, piece, os)
  {
    var n := |os| - 1;
    forall j | j in os && 0 <= j < |c.pieces| && SnapsAt(a0, piece, j)
      ensures c.pieces[j].group == c.pieces[root].group
    {
      if j != os[n] {
        assert os == os[..n] + [os[n]];
        assert j in os[..n];
        assert b.pieces[j].group == b.pieces[root].group;
      }
    }
  }

  /**
   * What a connection keeps, for a moved piece and an anchor in the group
   * of `root`: the arena is only merged; the moved piece, the new anchor
   * and everything listed by group g0 are in root's new group; whatever is
   * outside that group is untouched; member lists only grow; and a frozen
   * root group stays frozen.
   */
  ghost predicate Keeps(a: Arena, b: Arena, root: int, g0: int, piece: int, snap': int)
    requires Wf(a) && Wf(b) && |b.pieces| == |a.pieces|
    requires 0 <= root < |a.pieces| && 0 <= g0 < |a.pieces| && 0 <= piece < |a.pieces| && 0 <= snap' < |a.pieces|
  {
    var R := b.pieces[root].group;
    Merges(a, b) && OnlyRegrouped(a, b) &&
    b.pieces[piece].group == R && b.pieces[snap'].group == R &&
    GroupOk(b, g0) &&
    (forall t | 0 <= t < |b.groups[g0].members| :: b.pieces[b.groups[g0].members[t]].group == R) &&
    (forall i | 0 <= i < |a.pieces| && b.pieces[i].group != R :: b.pieces[i] == a.pieces[i]) &&
    a.groups[g0].members <= b.groups[g0].members &&
    (a.groups[a.pieces[root].group].frozen ==> b.groups[R].frozen)
  }

  /** What the group of `root` satisfies before a connection. */
  ghost predicate Ready(a: Arena, root: int, g0: int, piece: int, snap: int)
    requires Wf(a) && 0 <= root < |a.pieces| && 0 <= g0 < |a.pieces| && 0 <= piece < |a.pieces| && 0 <= snap < |a.pieces|
  {
    var R := a.pieces[root].group;
    a.pieces[piece].group == R && a.pieces[snap].group == R && GroupOk(a, g0) &&
    forall t | 0 <= t < |a.groups[g0].members| :: a.pieces[a.groups[g0].members[t]].group == R
  }

  lemma KeepsSelf(a: Arena, root: int, g0: int, piece: int, snap: int)
    requires Wf(a) && 0 <= root < |a.pieces| && 0 <= g0 < |a.pieces| && 0 <= piece < |a.pieces| && 0 <= snap < |a.pieces|
    requires Ready(a, root, g0, piece, snap)
    ensures Keeps(a, a, root, g0, piece, snap)
  {
  }

  /** A join merges groups: pieces that shared a group still do. */
  lemma JoinMerges(a: Arena, piece: int, other: int)
    requires Wf(a) && 0 <= piece < |a.pieces| && 0 <= other < |a.pieces|
    ensures Merges(a, JoinSpec(a, a.pieces[piece].group, a.pieces[other].group))
  {
    JoinRegroups(a, piece, other);
  }

  /** A join changes nothing about a piece left outside the joined group. */
  lemma JoinOutside(a: Arena, root: int, piece: int, other: int)
    requires Wf(a) && 0 <= root < |a.pieces| && 0 <= piece < |a.pieces| && 0 <= other < |a.pieces|
    requires a.pieces[piece].group == a.pieces[root].group
    ensures var b := JoinSpec(a, a.pieces[piece].group, a.pieces[other].group);
      forall i | 0 <= i < |a.pieces| && b.pieces[i].group != b.pieces[root].group :: b.pieces[i] == a.pieces[i]
  {
    JoinRegroups(a, piece, other);
  }

  /** After a join, every piece group g0 lists is in the joined group when it was in root's group before. */
  lemma JoinListed(a: Arena, root: int, g0: int, piece: int, other: int)
    requires Wf(a) && 0 <= root < |a.pieces| && 0 <= g0 < |a.pieces| && 0 <= piece < |a.pieces| && 0 <= other < |a.pieces|
    requires a.pieces[piece].group == a.pieces[root].group && GroupOk(a, g0)
    requires forall t | 0 <= t < |a.groups[g0].members| :: a.pieces[a.groups[g0].members[t]].group == a.pieces[root].group
    ensures var b := JoinSpec(a, a.pieces[piece].group, a.pieces[other].group);
      Wf(b) && GroupOk(b, g0) && a.groups[g0].members <= b.groups[g0].members &&
      forall t | 0 <= t < |b.groups[g0].members| :: b.pieces[b.groups[g0].members[t]].group == b.pieces[root].group
  {
    JoinRegroups(a, piece, other);
    var b := JoinSpec(a, a.pieces[piece].group, a.pieces[other].group);
    var s := b.pieces[piece].group;
    if g0 != s {
      assert b.groups[g0] == a.groups[g0];
    } else {
      assert PieceOk(b, piece);
      forall t | 0 <= t < |b.groups[g0].members|
        ensures b.pieces[b.groups[g0].members[t]].group == s
      {
        assert b.groups[s].members[t] in b.groups[s].members;
      }
    }
  }

  /** A join keeps what Keeps lists, for an anchor in either of the two groups. */
  lemma JoinKeeps(a: Arena, root: int, g0: int, piece: int, other: int, snap: int)
    requires Wf(a) && 0 <= root < |a.pieces| && 0 <= g0 < |a.pieces| && 0 <= piece < |a.pieces|
    requires 0 <= other < |a.pieces| && 0 <= snap < |a.pieces|
    requires Ready(a, root, g0, piece, piece)
    requires a.pieces[snap].group == a.pieces[root].group || snap == other
    ensures var b := JoinSpec(a, a.pieces[piece].group, a.pieces[other].group);
      Wf(b) && |b.pieces| == |a.pieces| && Keeps(a, b, root, g0, piece, snap)
  {
    JoinRegroups(a, piece, other);
    JoinMerges(a, piece, other);
    JoinOutside(a, root, piece, other);
    JoinListed(a, root, g0, piece, other);
  }

  /** A connection keeps what Keeps lists. */
  lemma ConnectKeeps(a: Arena, root: int, g0: int, piece: int, other: int, snap: int)
    requires Wf(a) && 0 <= root < |a.pieces| && 0 <= g0 < |a.pieces| && 0 <= piece < |a.pieces|
    requires 0 <= other < |a.pieces| && 0 <= snap < |a.pieces|
    requires Ready(a, root, g0, piece, snap)
    ensures var r := Connect(a, piece, other, snap);
      Keeps(a, r.0, root, g0, piece, r.1) && Ready(r.0, root, g0, piece, r.1)
  {
    if Snaps(a.pieces[piece], a.pieces[other]) {
      var r := Connect(a, piece, other, snap);
      JoinKeeps(a, root, g0, piece, other, r.1);
    } else {
      KeepsSelf(a, root, g0, piece, snap);
    }
  }

  /** Keeps composes. */
  lemma KeepsTrans(a: Arena, b: Arena, c: Arena, root: int, g0: int, piece: int, s1: int, s2: int)
    requires Wf(a) && Wf(b) && Wf(c) && |b.pieces| == |a.pieces| && |c.pieces| == |a.pieces|
    requires 0 <= root < |a.pieces| && 0 <= g0 < |a.pieces| && 0 <= piece < |a.pieces|
    requires 0 <= s1 < |a.pieces| && 0 <= s2 < |a.pieces|
    requires Keeps(a, b, root, g0, piece, s1) && Keeps(b, c, root, g0, piece, s2)
    ensures Keeps(a, c, root, g0, piece, s2)
  {
    MergesTrans(a, b, c);
    var R := c.pieces[root].group;
    forall i | 0 <= i < |a.pieces| && c.pieces[i].group != R
      ensures c.pieces[i] == a.pieces[i]
    {
      assert b.pieces[i].group != b.pieces[root].group;
    }
  }

  /** Every candidate in turn keeps what Keeps lists. */
  lemma {:induction false} ConnectAllKeeps(a: Arena, root: int, g0: int, piece: int, os: seq<int>, snap: int)
    requires Wf(a) && 0 <= root < |a.pieces| && 0 <= g0 < |a.pieces| && 0 <= piece < |a.pieces| && 0 <= snap < |a.pieces|
    requires forall t | 0 <= t < |os| :: 0 <= os[t] < |a.pieces|
    requires Ready(a, root, g0, piece, snap)
    ensures var r := ConnectAll(a, piece, os, snap);
      Keeps(a, r.0, root, g0, piece, r.1) && Ready(r.0, root, g0, piece, r.1)
  {
    if |os| == 0 {
      KeepsSelf(a, root, g0, piece, snap);
    } else {
      var b := ConnectAll(a, piece, os[..|os| - 1], snap);
      ConnectAllKeeps(a, root, g0, piece, os[..|os| - 1], snap);
      ConnectKeeps(b.0, root, g0, piece, os[|os| - 1], b.1);
      var c := Connect(b.0, piece, os[|os| - 1], b.1);
      KeepsTrans(a, b.0, c.0, root, g0, piece, b.1, c.1);
    }
  }

  /**
   * The state of the outer loop of placePieces over the member list of the
   * root's group object g0 (the one the root pointed at when the drop began,
   * whose list grows while g0 absorbs other groups): `a0` and `B0` are the
   * arena and the index boxes before it, `a` and `B` now. The arena is only
   * merged; the anchor and every piece g0 lists are in root's group; g0's
   * list starts with the members it had; whatever is outside that group,
   * piece and box, is untouched; a frozen group stays frozen; the index holds
   * one box per piece; and groups join only through a snap with a piece g0
   * lists, with the anchor kept by its rule, root's group frozen exactly when
   * a group it gathered was, and every other group's record unchanged
   * (Tracked).
   */
  ghost predicate Connecting(a0: Arena, B0: map<int, Aabb.AABB>, a: Arena, B: map<int, Aabb.AABB>, root: int, snap: int) {
    Gathered(a0, B0, a, B, root, snap) && Tracked(a0, a, root, snap)
  }

  /** Connecting, but for the merge rule and the anchor rule. */
  ghost predicate Gathered(a0: Arena, B0: map<int, Aabb.AABB>, a: Arena, B: map<int, Aabb.AABB>, root: int, snap: int) {
    Wf(a0) && Wf(a) && |a.pieces| == |a0.pieces| && 0 <= root < |a0.pieces| && 0 <= snap < |a0.pieces| &&
    var g0, R := a0.pieces[root].group, a.pieces[root].group;
    0 <= g0 < |a0.pieces| &&
    Regrouped(a0, a, root) &&
    a.pieces[snap].group == R && GroupOk(a, g0) && a0.groups[g0].members <= a.groups[g0].members &&
    (forall t | 0 <= t < |a.groups[g0].members| :: a.pieces[a.groups[g0].members[t]].group == R) &&
    (a0.groups[g0].frozen ==> a.groups[R].frozen) &&
    (forall i :: i in B0 <==> 0 <= i < |a0.pieces|) &&
    (forall i :: i in B <==> 0 <= i < |a0.pieces|) &&
    (forall i | 0 <= i < |a.pieces| && a.pieces[i].group != R :: B[i] == B0[i])
  }

  /** Before the loop. */
  lemma ConnectingStart(a0: Arena, B0: map<int, Aabb.AABB>, root: int)
    requires Wf(a0) && 0 <= root < |a0.pieces| && forall i :: i in B0 <==> 0 <= i < |a0.pieces|
    ensures Connecting(a0, B0, a0, B0, root, root)
  {
    var g0 := a0.pieces[root].group;
    assert PieceOk(a0, root) && Exact(a0, g0) && GroupOk(a0, g0);
    assert MergedFrozen(a0, a0, root) == a0.groups[g0].frozen by {
      if MergedFrozen(a0, a0, root) {
        var i :| 0 <= i < |a0.pieces| && a0.pieces[i].group == g0 && 0 <= a0.pieces[i].group < |a0.groups| &&
                 a0.groups[a0.pieces[i].group].frozen;
      }
    }
  }

  /**
   * One turn of the loop: the k-th piece g0 lists is filed anew (under any
   * box) and connected with the candidates `os`. The list of g0 only grows.
   */
  lemma ConnectingStep(a0: Arena, B0: map<int, Aabb.AABB>, a: Arena, B: map<int, Aabb.AABB>, B': map<int, Aabb.AABB>,
                       root: int, k: int, os: seq<int>, snap: int, box: Aabb.AABB)
    requires Connecting(a0, B0, a, B, root, snap)
    requires 0 <= k < |a.groups[a0.pieces[root].group].members|
    requires B' == B[a.groups[a0.pieces[root].group].members[k] := box]
    requires forall t | 0 <= t < |os| :: 0 <= os[t] < |a.pieces|
    ensures var piece := a.groups[a0.pieces[root].group].members[k];
      var r := ConnectAll(a, piece, os, snap);
      Connecting(a0, B0, r.0, B', root, r.1) &&
      a.groups[a0.pieces[root].group].members <= r.0.groups[a0.pieces[root].group].members
  {
    var piece := a.groups[a0.pieces[root].group].members[k];
    GatheredStep(a0, B0, a, B, B', root, k, os, snap, box);
    assert piece in Walked(a0, a, root);
    ConnectAllTracked(a0, a, root, piece, os, snap);
  }

  /** That step, for Gathered. */
  lemma GatheredStep(a0: Arena, B0: map<int, Aabb.AABB>, a: Arena, B: map<int, Aabb.AABB>, B': map<int, Aabb.AABB>,
                     root: int, k: int, os: seq<int>, snap: int, box: Aabb.AABB)
    requires Gathered(a0, B0, a, B, root, snap)
    requires 0 <= k < |a.groups[a0.pieces[root].group].members|
    requires B' == B[a.groups[a0.pieces[root].group].members[k] := box]
    requires forall t | 0 <= t < |os| :: 0 <= os[t] < |a.pieces|
    ensures var piece := a.groups[a0.pieces[root].group].members[k];
      var r := ConnectAll(a, piece, os, snap);
      Gathered(a0, B0, r.0, B', root, r.1) &&
      a.groups[a0.pieces[root].group].members <= r.0.groups[a0.pieces[root].group].members
  {
    var g0 := a0.pieces[root].group;
    var piece := a.groups[g0].members[k];
    var r := ConnectAll(a, piece, os, snap);
    var b := r.0;
    ConnectAllKeeps(a, root, g0, piece, os, snap);
    MergesTrans(a0, a, b);
    var R := b.pieces[root].group;
    forall i | 0 <= i < |b.pieces| && b.pieces[i].group != R
      ensures b.pieces[i] == a0.pieces[i] && B'[i] == B0[i] && i != piece
    {
      assert a.pieces[i].group != a.pieces[root].group;
    }
    forall i | 0 <= i < |b.pieces|
      ensures b.pieces[i] == a0.pieces[i].(group := b.pieces[i].group)
    {
    }
  }

  /**
   * The body of the inner loop of placePieces for one candidate: skip it
   * unless it is turned the same way, is a grid neighbour and lies within
   * snapping distance; else move the anchor to it when its group is
   * strictly larger than the anchor's, and join the two groups.
   */
  method TryConnect(board: Board, piece: int, other: int, snap: int) returns (snap': int)
    requires board.Valid() && 0 <= piece < |board.pieces| && 0 <= other < |board.pieces| && 0 <= snap < |board.pieces|
    modifies board
    ensures board.Valid() && (board.State(), snap') == Connect(old(board.State()), piece, other, snap)
  {
    ghost var a := board.State();
    assert PieceOk(a, piece) && PieceOk(a, other) && PieceOk(a, snap);
    var p, o := board.pieces[piece], board.pieces[other];
    snap' := snap;
    ghost var r := Connect(a, piece, other, snap);
    if p.orientation != o.orientation || !IsNeighbor(p, o) {
      assert !Snaps(p, o) && r == (a, snap);
      return;
    }
    // The squared distance between `o` and where `p` puts it.
    if SnapError(p, o) > SnapTolerance {
      assert !Snaps(p, o) && r == (a, snap);
      return;
    }
    assert Snaps(p, o) && r.0 == JoinSpec(a, p.group, o.group);
    if |board.groups[board.pieces[snap].group].members| < |board.groups[o.group].members| {
      snap' := other;
    }
    assert r.1 == snap';
    board.Join(piece, other);
  }

  /** The inner loop of placePieces over the filtered candidates of `piece`. */
  method ConnectCandidates(board: Board, piece: int, os: seq<int>, snap: int) returns (snap': int)
    requires board.Valid() && 0 <= piece < |board.pieces| && 0 <= snap < |board.pieces|
    requires forall t | 0 <= t < |os| :: 0 <= os[t] < |board.pieces|
    modifies board
    ensures board.Valid() && (board.State(), snap') == ConnectAll(old(board.State()), piece, os, snap)
  {
    ghost var a := board.State();
    snap' := snap;
    for k := 0 to |os|
      invariant board.Valid() && |board.pieces| == |a.pieces|
      invariant (board.State(), snap') == ConnectAll(a, piece, os[..k], snap)
    {
      assert os[..k + 1][..k] == os[..k];
      snap' := TryConnect(board, piece, os[k], snap');
    }
    assert os[..|os|] == os;
  }
}
