/**
 * The pointer controls (pointer.js): a small state machine over the
 * pointers pressed on the canvas. With no pointer down it is idle; a press
 * on a piece starts dragging that piece's group, a press elsewhere starts
 * panning the camera, and a second pointer may join a pan. Releasing a
 * dragged group turns it a quarter if the press was a tap, then places it.
 *
 * Events carry the world position viewportToWorld gives for them, the hit
 * piece of game.query is an input, and the clock reading is an input.
 */
module Pointer {
  import opened Pieces
  import opened GameRules
  import Game

  /** pStates: none, piece, camera. */
  datatype PState = Idle | Dragging | Panning

  /** A pointer event: its pointer id, its world position and whether shift is held. */
  datatype PointerEvent = PointerEvent(id: int, x: real, y: real, shift: bool)

  /** pData: a drag (root piece, moved yet, start time, offset from pointer to piece) or a pan (start position). */
  datatype PData =
    | NoData
    | Drag(root: int, moved: bool, start: int, offsetX: real, offsetY: real)
    | Pan(x: real, y: real)

  /** JavaScript's `a % 4`: truncating, so the remainder has the sign of `a`. */
  function JsRem4(a: int): (r: int)
    ensures -4 < r < 4 && (a - r) % 4 == 0
    ensures a >= 0 ==> r >= 0
    ensures a <= 0 ==> r <= 0
  {
    if a >= 0 then a % 4 else -((-a) % 4)
  }

  /**
   * dropGroup's new orientation for a tap: one quarter on with shift, one
   * back without, -1 read as 3. For a quarter turn it is the turn plus or
   * minus one, modulo 4.
   */
  function TapOrientation(o: int, shift: bool): (r: int)
    ensures 0 <= o < 4 ==> 0 <= r < 4 && r == (o + if shift then 1 else -1) % 4
  {
    var diff := if shift then 1 else -1;
    var turned := JsRem4(o + diff);
    if turned == -1 then 3 else turned
  }

  /** A tap with shift and a tap without undo each other. */
  lemma TapUndo(o: int)
    requires 0 <= o < 4
    ensures TapOrientation(TapOrientation(o, true), false) == o
    ensures TapOrientation(TapOrientation(o, false), true) == o
  {
  }

  /** findIndex on the pointer list: the first entry with pointer id `id`, or -1. */
  function FindIndex(list: seq<PointerEvent>, id: int): (r: int)
    ensures -1 <= r < |list|
    ensures r == -1 <==> forall j | 0 <= j < |list| :: list[j].id != id
    ensures r >= 0 ==> list[r].id == id && forall j | 0 <= j < r :: list[j].id != id
  {
    if |list| == 0 then -1
    else if list[0].id == id then 0
    else
      var r := FindIndex(list[1..], id);
      if r == -1 then -1 else r + 1
  }

  /** Where dragGroup aims the root of the drag `d`: the pointer plus the drag's offset. */
  function Aim(e: PointerEvent, d: PData): (r: (real, real))
    requires d.Drag?
  {
    (e.x + d.offsetX, e.y + d.offsetY)
  }

  /**
   * Where dragGroup leaves the pieces of `a` when it takes the root to
   * `to`: the root there, and the other members of its group re-aligned
   * on it.
   */
  function Dragged(a: Arena, root: int, to: (real, real)): (r: seq<Piece>)
    requires 0 <= root < |a.pieces| && 0 <= a.pieces[root].group < |a.groups| && 0 <= a.pieces[root].orientation < 4
    ensures |r| == |a.pieces| && r[root] == a.pieces[root].(x := to.0, y := to.1)
  {
    CorrectedOver(a.pieces[root := a.pieces[root].(x := to.0, y := to.1)], a.groups[a.pieces[root].group].members, root)
  }

  /** The closure state of setupPointerControls, with the camera position it pans. */
  class Controls {
    const game: Game.PuzzleGame
    var state: PState
    var data: PData
    var list: seq<PointerEvent>
    var cameraX: real
    var cameraY: real

    /**
     * Idle exactly when no pointer is down; a drag holds one pointer and
     * its root piece; a pan holds one or two pointers and its start.
     */
    ghost predicate Valid()
      reads this, game, game.board, game.bvh, game.bvh.tree
    {
      game.Valid() &&
      (state == Idle <==> |list| == 0) &&
      (state == Dragging ==> |list| == 1 && data.Drag? && 0 <= data.root < |game.board.pieces|) &&
      (state == Panning ==> 1 <= |list| <= 2 && data.Pan?)
    }

    constructor (game: Game.PuzzleGame, cameraX: real, cameraY: real)
      requires game.Valid()
      ensures Valid() && this.game == game && state == Idle && data == NoData && list == []
      ensures this.cameraX == cameraX && this.cameraY == cameraY
    {
      this.game := game;
      state := Idle;
      data := NoData;
      list := [];
      this.cameraX := cameraX;
      this.cameraY := cameraY;
    }

    /**
     * initDragGroup: every piece of the hit piece's group goes to z-index
     * 999, and the drag starts now, unmoved, with the offset from the
     * pointer to the piece.
     */
    method InitDragGroup(hit: int, e: PointerEvent, now: int) returns (d: PData)
      requires game.Valid() && 0 <= hit < |game.board.pieces|
      modifies game.board
      ensures game.Valid() && game.board.groups == old(game.board.groups)
      ensures game.board.pieces ==
        Game.Lifted(old(game.board.pieces), old(game.board.groups[game.board.pieces[hit].group].members), 999)
      ensures d == Drag(hit, false, now, old(game.board.pieces[hit].x) - e.x, old(game.board.pieces[hit].y) - e.y)
    {
      ghost var a := game.board.State();
      var ms := game.board.groups[game.board.pieces[hit].group].members;
      assert GroupOk(a, game.board.pieces[hit].group);
      d := Drag(hit, false, now, game.board.pieces[hit].x - e.x, game.board.pieces[hit].y - e.y);
      var ps := Game.LiftAll(game.board.pieces, ms, 999);
      Game.KeepWf(a, ps);
      game.board.pieces := ps;
    }

    /**
     * pointerdown. When idle: a press on a piece starts dragging its group,
     * a press elsewhere starts a pan from the pointer's position; either
     * way the pointer is listed. A second pointer joins a pan that has one.
     * Any other press is ignored.
     */
    method PointerDown(e: PointerEvent, hit: Option<int>, now: int)
      requires Valid() && (hit.Some? ==> 0 <= hit.value < |game.board.pieces|)
      modifies this, game.board
      ensures Valid() && cameraX == old(cameraX) && cameraY == old(cameraY)
      ensures old(state) == Idle && hit.Some? ==>
        state == Dragging && list == [e] && game.board.groups == old(game.board.groups) &&
        var ms := old(game.board.groups[game.board.pieces[hit.value].group].members);
        game.board.pieces == Game.Lifted(old(game.board.pieces), ms, 999) &&
        data == Drag(hit.value, false, now, old(game.board.pieces[hit.value].x) - e.x,
                     old(game.board.pieces[hit.value].y) - e.y)
      ensures old(state) == Idle && hit.None? ==>
        state == Panning && list == [e] && data == Pan(e.x, e.y) && game.board.State() == old(game.board.State())
      ensures old(state) == Panning && |old(list)| == 1 ==>
        state == Panning && list == old(list) + [e] && data == old(data) && game.board.State() == old(game.board.State())
      ensures old(state) == Dragging || (old(state) == Panning && |old(list)| != 1) ==>
        state == old(state) && list == old(list) && data == old(data) && game.board.State() == old(game.board.State())
    {
      if state == Idle {
        if hit.Some? {
          state := Dragging;
          data := InitDragGroup(hit.value, e, now);
        } else {
          state := Panning;
          data := Pan(e.x, e.y);
        }
        list := list + [e];
      } else if state == Panning && |list| == 1 {
        list := list + [e];
      }
    }

    /**
     * dragCamera: with one pointer the camera moves by how far the pan's
     * start lies from the pointer; with two (a pinch) nothing happens.
     */
    method DragCamera()
      requires |list| >= 1 && data.Pan?
      modifies this
      ensures state == old(state) && data == old(data) && list == old(list)
      ensures |list| == 1 ==> cameraX == old(cameraX) + data.x - list[0].x && cameraY == old(cameraY) + data.y - list[0].y
      ensures |list| != 1 ==> cameraX == old(cameraX) && cameraY == old(cameraY)
    {
      if |list| == 1 {
        cameraX := cameraX + (data.x - list[0].x);
        cameraY := cameraY + (data.y - list[0].y);
      }
    }

    /** dragGroup: the root piece goes to the pointer plus the offset, and the drag is marked moved. */
    method DragGroup(e: PointerEvent)
      requires Valid() && state == Dragging
      modifies this, game.board
      ensures Valid() && state == old(state) && list == old(list) && game.board.groups == old(game.board.groups)
      ensures cameraX == old(cameraX) && cameraY == old(cameraY)
      ensures data == old(data).(moved := true)
      ensures game.board.pieces == Dragged(old(game.board.State()), data.root, Aim(e, data))
    {
      assert PieceOk(game.board.State(), data.root);
      MarkMoved();
      var to := Aim(e, data);
      game.board.MoveTo(data.root, to.0, to.1);
    }

    /** The drag is marked moved; nothing else changes. */
    method MarkMoved()
      requires data.Drag?
      modifies this
      ensures data == old(data).(moved := true)
      ensures state == old(state) && list == old(list) && cameraX == old(cameraX) && cameraY == old(cameraY)
      ensures game.Valid() == old(game.Valid())
      ensures game.board.pieces == old(game.board.pieces) && game.board.groups == old(game.board.groups)
    {
      data := data.(moved := true);
    }

    /** A pan takes in the move of one of its pointers, and pans the camera. */
    method MovePan(e: PointerEvent)
      requires state == Panning && 1 <= |list| <= 2 && data.Pan?
      modifies this
      ensures state == old(state) && data == old(data)
      ensures var i := FindIndex(old(list), e.id);
        list == (if i == -1 then old(list) else old(list)[i := e]) &&
        (i != -1 && |list| == 1 ==> cameraX == old(cameraX) + data.x - e.x && cameraY == old(cameraY) + data.y - e.y) &&
        (i == -1 || |list| != 1 ==> cameraX == old(cameraX) && cameraY == old(cameraY))
      ensures game.Valid() == old(game.Valid()) && game.board.State() == old(game.board.State())
      ensures game.bvh.boxes == old(game.bvh.boxes)
    {
      var index := FindIndex(list, e.id);
      if index != -1 {
        list := list[index := e];
        DragCamera();
      }
    }

    /**
     * pointermove. A drag follows only its own pointer; a pan takes in the
     * move of any of its pointers; when idle nothing happens.
     */
    method PointerMove(e: PointerEvent)
      requires Valid()
      modifies this, game.board
      ensures Valid() && state == old(state) && game.board.groups == old(game.board.groups)
      ensures old(state) == Dragging && e.id == old(list[0].id) ==>
        data == old(data).(moved := true) && list == old(list) &&
        game.board.pieces == Dragged(old(game.board.State()), data.root, Aim(e, data))
      ensures old(state) == Dragging && e.id != old(list[0].id) ==>
        data == old(data) && list == old(list) && game.board.pieces == old(game.board.pieces)
      ensures old(state) == Panning ==>
        var i := FindIndex(old(list), e.id);
        data == old(data) && game.board.pieces == old(game.board.pieces) &&
        list == (if i == -1 then old(list) else old(list)[i := e]) &&
        (i != -1 && |list| == 1 ==> cameraX == old(cameraX) + data.x - e.x && cameraY == old(cameraY) + data.y - e.y) &&
        (i == -1 || |list| != 1 ==> cameraX == old(cameraX) && cameraY == old(cameraY))
      ensures old(state) == Idle ==> data == old(data) && list == old(list) && game.board.pieces == old(game.board.pieces)
    {
      if state == Dragging && e.id == list[0].id {
        DragGroup(e);
      } else if state == Panning {
        MovePan(e);
      }
    }

    /**
     * dropGroup for the drag `d`: on a tap (under 100 ms, or never moved)
     * the root's group turns to the tap orientation, giving `mid`; then the
     * group is placed.
     */
    method DropGroup(d: PData, e: PointerEvent, now: int) returns (ghost mid: Arena, ghost snap: int, ghost z: int)
      requires game.Valid() && d.Drag? && 0 <= d.root < |game.board.pieces|
      modifies game.board, game.bvh, game.bvh.tree
      ensures game.Valid()
      ensures var r := d.root;
        var ms := old(game.board.groups[game.board.pieces[r].group].members);
        var o := TapOrientation(old(game.board.pieces[r].orientation), e.shift);
        mid == if now - d.start < 100 || !d.moved
               then Arena(CorrectedOver(Reoriented(old(game.board.pieces), ms, o), ms, r), old(game.board.groups))
               else old(game.board.State())
      ensures Game.Dropped(mid, old(game.bvh.boxes), game.board.State(), game.bvh.boxes, d.root, snap, z, game.edgeCount)
    {
      if now - d.start < 100 || !d.moved {
        var newOrientation := TapOrientation(game.board.pieces[d.root].orientation, e.shift);
        game.board.Rotate(d.root, newOrientation);
      }
      mid := game.board.State();
      snap, z := game.PlacePieces(d.root);
    }

    /** The drag ends: the group is dropped, the pointer popped and the controls go idle. */
    method EndDrag(e: PointerEvent, now: int) returns (ghost mid: Arena, ghost snap: int, ghost z: int)
      requires Valid() && state == Dragging
      modifies this, game.board, game.bvh, game.bvh.tree
      ensures Valid() && data == old(data) && cameraX == old(cameraX) && cameraY == old(cameraY)
      ensures state == Idle && list == []
      ensures var r := data.root;
        var ms := old(game.board.groups[game.board.pieces[r].group].members);
        var o := TapOrientation(old(game.board.pieces[r].orientation), e.shift);
        mid == (if now - data.start < 100 || !data.moved
                then Arena(CorrectedOver(Reoriented(old(game.board.pieces), ms, o), ms, r), old(game.board.groups))
                else old(game.board.State())) &&
        Game.Dropped(mid, old(game.bvh.boxes), game.board.State(), game.bvh.boxes, r, snap, z, game.edgeCount)
    {
      mid, snap, z := DropGroup(data, e, now);
      Release();
    }

    /** The dragging pointer is popped and the controls go idle. */
    method Release()
      requires |list| == 1
      modifies this
      ensures state == Idle && list == [] && data == old(data) && cameraX == old(cameraX) && cameraY == old(cameraY)
      ensures game.Valid() == old(game.Valid())
      ensures game.board.State() == old(game.board.State()) && game.bvh.boxes == old(game.bvh.boxes)
    {
      list := list[..|list| - 1];
      state := Idle;
    }

    /** A pan lets go of the matching pointer, and goes idle when none is left. */
    method EndPan(e: PointerEvent)
      requires state == Panning && 1 <= |list| <= 2 && data.Pan?
      modifies this
      ensures data == old(data) && cameraX == old(cameraX) && cameraY == old(cameraY)
      ensures var i := FindIndex(old(list), e.id);
        list == (if i == -1 then old(list) else old(list)[..i] + old(list)[i + 1..]) &&
        state == (if |list| == 0 then Idle else Panning)
      ensures game.Valid() == old(game.Valid()) && game.board.State() == old(game.board.State())
      ensures game.bvh.boxes == old(game.bvh.boxes)
    {
      var index := FindIndex(list, e.id);
      if index != -1 {
        list := list[..index] + list[index + 1..];
        if |list| == 0 {
          state := Idle;
        }
      }
    }

    /**
     * pointerup. A drag ends whatever the pointer; a pan lets go of the
     * matching pointer; when idle nothing happens.
     */
    method PointerUp(e: PointerEvent, now: int) returns (ghost mid: Arena, ghost snap: int, ghost z: int)
      requires Valid()
      modifies this, game.board, game.bvh, game.bvh.tree
      ensures Valid() && data == old(data) && cameraX == old(cameraX) && cameraY == old(cameraY)
      ensures old(state) == Dragging ==>
        state == Idle && list == [] &&
        var r := data.root;
        var ms := old(game.board.groups[game.board.pieces[r].group].members);
        var o := TapOrientation(old(game.board.pieces[r].orientation), e.shift);
        mid == (if now - data.start < 100 || !data.moved
                then Arena(CorrectedOver(Reoriented(old(game.board.pieces), ms, o), ms, r), old(game.board.groups))
                else old(game.board.State())) &&
        Game.Dropped(mid, old(game.bvh.boxes), game.board.State(), game.bvh.boxes, r, snap, z, game.edgeCount)
      ensures old(state) == Panning ==>
        var i := FindIndex(old(list), e.id);
        list == (if i == -1 then old(list) else old(list)[..i] + old(list)[i + 1..]) &&
        state == (if |list| == 0 then Idle else Panning) &&
        game.board.State() == old(game.board.State()) && game.bvh.boxes == old(game.bvh.boxes)
      ensures old(state) == Idle ==>
        state == Idle && list == old(list) && game.board.State() == old(game.board.State())
    {
      mid, snap, z := game.board.State(), 0, 0;
      if state == Dragging {
        mid, snap, z := EndDrag(e, now);
      } else if state == Panning {
        EndPan(e);
      }
    }
  }
}
