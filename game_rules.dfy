/**
 * The rules src/logic/game.js applies around the pieces: how the board is
 * laid out and which pieces are on its border, the snapping test of
 * placePieces, the edge count of tryFreezeGroup, and the records getPieces
 * saves and the constructor restores.
 */
module GameRules {
  import opened Pieces
  import AabbTree

  datatype Option<T> = None | Some(value: T)

  // ----- layout -----

  /** Column i or row j lies on the border of a c x r board. */
  predicate IsEdgeAt(c: int, r: int, i: int, j: int) {
    i == 0 || i == c - 1 || j == 0 || j == r - 1
  }

  /**
   * The piece the constructor makes for column i, row j, with the height
   * `h` of a piece relative to its width. It founds its own group; its
   * renderable starts at the origin, unturned, at z-index 0.
   */
  function PieceAt(c: int, r: int, h: real, i: int, j: int): Piece {
    var id := i * r + j;
    Piece(id, i, j, 1.0, h, IsEdgeAt(c, r, i, j), false, id, 0.0, 0.0, 0, 0)
  }

  function Column(c: int, r: nat, h: real, i: int): (col: seq<Piece>)
    ensures |col| == r
  {
    seq(r, j => PieceAt(c, r, h, i, j))
  }

  /** The pieces of the first k columns, column after column. */
  function Layout(c: int, r: nat, h: real, k: nat): seq<Piece> {
    if k == 0 then [] else Layout(c, r, h, k - 1) + Column(c, r, h, k - 1)
  }

  lemma MulStep(k: nat, r: nat)
    requires k > 0
    ensures (k - 1) * r + r == k * r
  {
  }

  /** k columns hold k * r pieces; piece t has id t, founds group t, and is unturned. */
  lemma {:induction false} LayoutFresh(c: int, r: nat, h: real, k: nat)
    ensures |Layout(c, r, h, k)| == k * r
    ensures Fresh(Layout(c, r, h, k))
    ensures forall t | 0 <= t < |Layout(c, r, h, k)| ::
      Layout(c, r, h, k)[t].orientation == 0 && !Layout(c, r, h, k)[t].grabbed
  {
    if k > 0 {
      LayoutFresh(c, r, h, k - 1);
      MulStep(k, r);
      var front: seq<Piece> := Layout(c, r, h, k - 1);
      var all: seq<Piece> := Layout(c, r, h, k);
      assert all == front + Column(c, r, h, k - 1);
      forall t | |front| <= t < |all|
        ensures all[t].id == t && all[t].group == t
      {
        assert all[t] == PieceAt(c, r, h, k - 1, t - (k - 1) * r);
      }
    }
  }

  lemma MulMono(a: int, b: int, r: nat)
    requires a <= b
    ensures a * r <= b * r
  {
  }

  /** Column i, row j of the board is piece i * r + j. */
  lemma {:induction false} LayoutAt(c: int, r: nat, h: real, k: nat, i: int, j: int)
    requires 0 <= i < k && 0 <= j < r
    ensures |Layout(c, r, h, k)| == k * r
    ensures 0 <= i * r + j < k * r && Layout(c, r, h, k)[i * r + j] == PieceAt(c, r, h, i, j)
  {
    LayoutFresh(c, r, h, k);
    LayoutFresh(c, r, h, k - 1);
    MulStep(k, r);
    MulMono(0, i, r);
    if i < k - 1 {
      LayoutAt(c, r, h, k - 1, i, j);
    } else {
      assert Layout(c, r, h, k)[i * r + j] == Column(c, r, h, k - 1)[j];
    }
  }

  // ----- edge pieces -----

  /** The number of edge pieces. */
  function EdgeTotal(ps: seq<Piece>): nat {
    if |ps| == 0 then 0
    else EdgeTotal(ps[..|ps| - 1]) + (if ps[|ps| - 1].isEdge then 1 else 0)
  }

  lemma {:induction false} EdgeTotalAppend(a: seq<Piece>, b: seq<Piece>)
    ensures EdgeTotal(a + b) == EdgeTotal(a) + EdgeTotal(b)
    decreases |b|
  {
    if |b| > 0 {
      var b' := b[..|b| - 1];
      assert (a + b)[..|a + b| - 1] == a + b';
      EdgeTotalAppend(a, b');
    } else {
      assert a + b == a;
    }
  }

  lemma {:induction false} EdgeTotalUniform(ps: seq<Piece>, e: bool)
    requires forall k | 0 <= k < |ps| :: ps[k].isEdge == e
    ensures EdgeTotal(ps) == if e then |ps| else 0
  {
    if |ps| > 0 {
      EdgeTotalUniform(ps[..|ps| - 1], e);
    }
  }

  /** A border column is all edge pieces; any other column has two, its top and bottom. */
  lemma ColumnEdges(c: int, r: nat, h: real, i: int)
    requires r >= 2
    ensures EdgeTotal(Column(c, r, h, i)) == if i == 0 || i == c - 1 then r else 2
  {
    var col := Column(c, r, h, i);
    if i == 0 || i == c - 1 {
      EdgeTotalUniform(col, true);
    } else {
      var mid := col[1..r - 1];
      assert col == [col[0]] + mid + [col[r - 1]];
      EdgeTotalUniform(mid, false);
      EdgeTotalUniform([col[0]], true);
      EdgeTotalUniform([col[r - 1]], true);
      EdgeTotalAppend([col[0]], mid);
      EdgeTotalAppend([col[0]] + mid, [col[r - 1]]);
    }
  }

  lemma {:induction false} LayoutEdges(c: int, r: nat, h: real, k: nat)
    requires r >= 2 && 1 <= k < c
    ensures EdgeTotal(Layout(c, r, h, k)) == r + 2 * (k - 1)
  {
    ColumnEdges(c, r, h, k - 1);
    EdgeTotalAppend(Layout(c, r, h, k - 1), Column(c, r, h, k - 1));
    if k > 1 {
      LayoutEdges(c, r, h, k - 1);
    } else {
      assert Layout(c, r, h, 0) == [];
    }
  }

  /** The constant the constructor stores, 2c + 2r - 4, is the number of edge pieces it made. */
  lemma EdgeCountIsBorder(c: int, r: nat, h: real)
    requires c >= 2 && r >= 2
    ensures EdgeTotal(Layout(c, r, h, c)) == 2 * c + 2 * r - 4
  {
    LayoutEdges(c, r, h, c - 1);
    ColumnEdges(c, r, h, c - 1);
    EdgeTotalAppend(Layout(c, r, h, c - 1), Column(c, r, h, c - 1));
  }

  /** The edge-piece count of tryFreezeGroup over the listed members. */
  function CountEdges(ps: seq<Piece>, ms: seq<int>): (n: nat)
    requires forall k | 0 <= k < |ms| :: 0 <= ms[k] < |ps|
    ensures n <= |ms|
  {
    if |ms| == 0 then 0
    else CountEdges(ps, ms[..|ms| - 1]) + (if ps[ms[|ms| - 1]].isEdge then 1 else 0)
  }

  ghost function EdgeSet(ps: seq<Piece>): set<int> {
    set i | 0 <= i < |ps| && ps[i].isEdge
  }

  ghost function MemberEdges(ps: seq<Piece>, ms: seq<int>): set<int> {
    set m | m in ms && 0 <= m < |ps| && ps[m].isEdge
  }

  lemma {:induction false} EdgeTotalCard(ps: seq<Piece>)
    ensures EdgeTotal(ps) == |EdgeSet(ps)|
  {
    if |ps| > 0 {
      var front := ps[..|ps| - 1];
      EdgeTotalCard(front);
      if ps[|ps| - 1].isEdge {
        assert EdgeSet(ps) == EdgeSet(front) + {|ps| - 1};
      } else {
        assert EdgeSet(ps) == EdgeSet(front);
      }
    }
  }

  lemma {:induction false} CountEdgesCard(ps: seq<Piece>, ms: seq<int>)
    requires AabbTree.NoDuplicates(ms)
    requires forall k | 0 <= k < |ms| :: 0 <= ms[k] < |ps|
    ensures CountEdges(ps, ms) == |MemberEdges(ps, ms)|
  {
    if |ms| > 0 {
      var front, m := ms[..|ms| - 1], ms[|ms| - 1];
      CountEdgesCard(ps, front);
      assert ms == front + [m];
      assert m !in front;
      MemberEdgesSnoc(ps, front, m);
    }
  }

  lemma MemberEdgesSnoc(ps: seq<Piece>, front: seq<int>, m: int)
    requires 0 <= m < |ps|
    ensures MemberEdges(ps, front + [m]) == MemberEdges(ps, front) + if ps[m].isEdge then {m} else {}
  {
    var L, R := MemberEdges(ps, front + [m]), MemberEdges(ps, front) + if ps[m].isEdge then {m} else {};
    forall x | x in L
      ensures x in R
    {
      assert x in front + [m];
    }
  }

  /**
   * A list of distinct pieces counts as many edge pieces as the whole board
   * exactly when it lists every edge piece.
   */
  lemma CountEdgesComplete(ps: seq<Piece>, ms: seq<int>)
    requires AabbTree.NoDuplicates(ms)
    requires forall k | 0 <= k < |ms| :: 0 <= ms[k] < |ps|
    ensures CountEdges(ps, ms) == EdgeTotal(ps) <==>
      forall i | 0 <= i < |ps| && ps[i].isEdge :: i in ms
  {
    CountEdgesCard(ps, ms);
    EdgeTotalCard(ps);
    var M, E := MemberEdges(ps, ms), EdgeSet(ps);
    assert M <= E;
    assert |E| == |M| + |E - M| by {
      assert E == M + (E - M);
    }
    if CountEdges(ps, ms) == EdgeTotal(ps) {
      assert |E - M| == 0;
      forall i | 0 <= i < |ps| && ps[i].isEdge
        ensures i in ms
      {
        assert i in E;
        assert i !in E - M;
      }
    }
    if forall i | 0 <= i < |ps| && ps[i].isEdge :: i in ms {
      assert E == M;
    }
  }

  // ----- snapping -----

  /** placePieces joins a candidate when the squared miss is at most this. */
  const SnapTolerance: real := 0.0625

  /** The squared distance between `q` and where `p` puts it. */
  function SnapError(p: Piece, q: Piece): (e: real)
    requires 0 <= p.orientation < 4
    ensures e >= 0.0
    ensures Aligned(p, q) ==> e == 0.0
  {
    var c := ConnectedPosition(p, q);
    (c.x - q.x) * (c.x - q.x) + (c.y - q.y) * (c.y - q.y)
  }

  /**
   * The test placePieces puts a candidate `q` of the moved piece `p` to:
   * the same turn, grid neighbours, and within snapping distance.
   */
  predicate Snaps(p: Piece, q: Piece)
    requires 0 <= p.orientation < 4
  {
    p.orientation == q.orientation && IsNeighbor(p, q) && SnapError(p, q) <= SnapTolerance
  }

  /**
   * For pieces of one size, whether two pieces snap does not depend on which
   * of them was moved: each misses where the other puts it by the same
   * distance.
   */
  lemma SnapSymmetric(p: Piece, q: Piece)
    requires 0 <= p.orientation < 4 && 0 <= q.orientation < 4
    requires p.w == q.w && p.h == q.h
    ensures Snaps(p, q) == Snaps(q, p)
  {
    NeighborSymmetricIrreflexive(p, q);
    if p.orientation == q.orientation {
      var k := p.orientation;
      var off := GridOffset(p, q);
      assert GridOffset(q, p) == Neg(off);
      QuickRotateLinear(k, off, off);
      var c, c' := ConnectedPosition(p, q), ConnectedPosition(q, p);
      var ex, ey := c.x - q.x, c.y - q.y;
      assert c'.x - p.x == -ex && c'.y - p.y == -ey;
      SnapErrorIs(p, q, ex, ey);
      SnapErrorIs(q, p, -ex, -ey);
      SquaresOfNegations(ex, ey);
    }
  }

  lemma SnapErrorIs(p: Piece, q: Piece, ex: real, ey: real)
    requires 0 <= p.orientation < 4
    requires ConnectedPosition(p, q).x - q.x == ex && ConnectedPosition(p, q).y - q.y == ey
    ensures SnapError(p, q) == ex * ex + ey * ey
  {
  }

  lemma SquaresOfNegations(x: real, y: real)
    ensures (-x) * (-x) + (-y) * (-y) == x * x + y * y
  {
  }

  /** Neighbours of the same turn that already sit where each other puts them always snap. */
  lemma AlignedNeighboursSnap(p: Piece, q: Piece)
    requires Aligned(p, q) && p.orientation == q.orientation && IsNeighbor(p, q)
    ensures Snaps(p, q)
  {
  }

  // ----- saving and restoring -----

  /** One record of getPieces: the id of the piece's group, its place and its turn. */
  datatype SavedPiece = SavedPiece(groupId: int, x: real, y: real, o: int)

  /** Where the random scatter of the constructor puts an unsaved piece. */
  datatype Placement = Placement(x: real, y: real, o: int)

  predicate IsSaved(saved: seq<Option<SavedPiece>>, id: int) {
    0 <= id < |saved| && saved[id].Some?
  }

  /** The group piece `id` ends up in when restored: its saved group, else its own. */
  function Target(saved: seq<Option<SavedPiece>>, id: int): int {
    if IsSaved(saved, id) then saved[id].value.groupId else id
  }

  /**
   * What a save must be for the constructor to restore it: every saved group
   * id names a piece of the board that is itself in that group, and every
   * saved turn is a quarter turn.
   */
  predicate SaveConsistent(saved: seq<Option<SavedPiece>>, n: int) {
    forall id | 0 <= id < n && IsSaved(saved, id) ::
      0 <= saved[id].value.o < 4 &&
      0 <= saved[id].value.groupId < n && Target(saved, saved[id].value.groupId) == saved[id].value.groupId
  }

  /** Piece `t` is restored into group `g` founded by another piece. */
  predicate IsJoiner(saved: seq<Option<SavedPiece>>, t: int, g: int) {
    IsSaved(saved, t) && saved[t].value.groupId == g && t != g
  }

  /** The pieces below `k` restored into group `g` by joining it, in id order. */
  function Joiners(saved: seq<Option<SavedPiece>>, g: int, k: nat): (js: seq<int>)
    ensures forall x :: x in js <==> 0 <= x < k && IsJoiner(saved, x, g)
  {
    if k == 0 then []
    else Joiners(saved, g, k - 1) + if IsJoiner(saved, k - 1, g) then [k - 1] else []
  }

  lemma {:induction false} JoinersDistinct(saved: seq<Option<SavedPiece>>, g: int, k: nat)
    ensures AabbTree.NoDuplicates([g] + Joiners(saved, g, k))
  {
    if k > 0 {
      JoinersDistinct(saved, g, k - 1);
      var front := [g] + Joiners(saved, g, k - 1);
      if IsJoiner(saved, k - 1, g) {
        assert [g] + Joiners(saved, g, k) == front + [k - 1];
        AabbTree.AppendFresh(front, k - 1);
      } else {
        assert [g] + Joiners(saved, g, k) == front;
      }
    }
  }

  /** The pieces below `k` that head their own group after restore, in id order. */
  function Heads(saved: seq<Option<SavedPiece>>, k: nat): (hs: seq<int>)
    ensures forall x :: x in hs <==> 0 <= x < k && Target(saved, x) == x
    ensures forall i, j | 0 <= i < j < |hs| :: hs[i] < hs[j]
  {
    if k == 0 then []
    else
      var front := Heads(saved, k - 1);
      assert forall i | 0 <= i < |front| :: front[i] in front;
      front + if Target(saved, k - 1) == k - 1 then [k - 1] else []
  }

  /** A piece after the restore loop: saved or scattered place and turn, and its target group. */
  function Restored(p: Piece, saved: seq<Option<SavedPiece>>, scatter: seq<Placement>, id: int): (q: Piece)
    requires IsSaved(saved, id) || 0 <= id < |scatter|
    ensures q.group == (if IsSaved(saved, id) then Target(saved, id) else p.group)
    ensures q.id == p.id && q.isEdge == p.isEdge && q.px == p.px && q.py == p.py
  {
    if IsSaved(saved, id) then
      var s := saved[id].value;
      p.(x := s.x, y := s.y, orientation := s.o, group := s.groupId)
    else
      var s := scatter[id];
      p.(x := s.x, y := s.y, orientation := s.o)
  }

  /**
   * The state the restore loop ends in is well formed: every piece points at
   * its target group, and each group lists its founder followed by the
   * pieces that joined it.
   */
  lemma RestoreWf(a: Arena, saved: seq<Option<SavedPiece>>)
    requires |a.pieces| == |a.groups| && SaveConsistent(saved, |a.pieces|)
    requires forall t | 0 <= t < |a.pieces| ::
      a.pieces[t].id == t && a.pieces[t].group == Target(saved, t) && 0 <= a.pieces[t].orientation < 4
    requires forall g | 0 <= g < |a.groups| :: a.groups[g] == Group(g, [g] + Joiners(saved, g, |a.pieces|), false)
    ensures Wf(a)
  {
    var n := |a.pieces|;
    forall g | 0 <= g < n && Target(saved, g) == g
      ensures Exact(a, g)
    {
      forall r | 0 <= r < n
        ensures r in a.groups[g].members <==> a.pieces[r].group == g
      {
        assert r in [g] + Joiners(saved, g, n) <==> r == g || r in Joiners(saved, g, n);
      }
    }
    forall i | 0 <= i < n
      ensures PieceOk(a, i)
    {
      var g := Target(saved, i);
      assert Target(saved, g) == g;
      assert Exact(a, g);
    }
    forall g | 0 <= g < n
      ensures GroupOk(a, g)
    {
      JoinersDistinct(saved, g, n);
      var ms := a.groups[g].members;
      forall k | 0 <= k < |ms|
        ensures 0 <= ms[k] < n
      {
        if k > 0 {
          assert ms[k] in Joiners(saved, g, n);
        }
      }
    }
  }

  /** The records of getPieces for an arena: its group's id, its place and its turn. */
  function SaveOf(a: Arena): (s: seq<SavedPiece>)
    requires Wf(a)
    ensures |s| == |a.pieces|
  {
    seq(|a.pieces|, i requires 0 <= i < |a.pieces| =>
      var p := a.pieces[i];
      SavedPiece(a.groups[p.group].id, p.x, p.y, p.orientation))
  }

  /** Every record present, as the constructor receives a saved game. */
  function AllSaved(s: seq<SavedPiece>): (r: seq<Option<SavedPiece>>)
    ensures |r| == |s| && forall i | 0 <= i < |s| :: r[i] == Some(s[i])
  {
    seq(|s|, i requires 0 <= i < |s| => Some(s[i]))
  }

  /**
   * A save made by getPieces can be restored, and restoring it puts every
   * piece back in its group, at its place, with its turn.
   */
  lemma SaveRestores(a: Arena)
    requires Wf(a)
    ensures var saved := AllSaved(SaveOf(a));
      SaveConsistent(saved, |a.pieces|) &&
      forall i | 0 <= i < |a.pieces| ::
        Target(saved, i) == a.pieces[i].group &&
        saved[i].value.x == a.pieces[i].x && saved[i].value.y == a.pieces[i].y &&
        saved[i].value.o == a.pieces[i].orientation
  {
    var saved := AllSaved(SaveOf(a));
    forall i | 0 <= i < |a.pieces|
      ensures Target(saved, i) == a.pieces[i].group
    {
      assert PieceOk(a, i);
      assert GroupOk(a, a.pieces[i].group);
    }
    forall i | 0 <= i < |a.pieces|
      ensures 0 <= saved[i].value.groupId < |a.pieces| && Target(saved, saved[i].value.groupId) == saved[i].value.groupId
    {
      var g := a.pieces[i].group;
      assert PieceOk(a, i);
      assert PieceOk(a, g);
      assert Target(saved, g) == a.pieces[g].group;
    }
  }
}
