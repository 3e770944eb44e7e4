/**
 * The bookkeeping of the multiplayer layer (network.js): splitting the
 * start-up message into segments and putting it back together, applying a
 * piece update, the peer table of a node, the host's and the client's
 * message handlers with the calls they make on the game, and the host's
 * choice of the pieces it broadcasts. Channels, timers and JSON encoding are
 * not modelled: what a handler would send is returned as a value.
 */
module Network {
  import opened Pieces
  import opened GameRules
  import Aabb
  import AabbTree
  import Game

  // ----- segmentMessage / waitForData -----

  const SegmentSize: nat := 64000
  const DoneMarker: string := "done"

  /** The segments segmentMessage sends for `m`: slices of 64000 characters, then "done". */
  function Segments(m: string): (r: seq<string>)
    decreases |m|
  {
    if |m| == 0 then [DoneMarker]
    else
      var n := if |m| < SegmentSize then |m| else SegmentSize;
      [m[..n]] + Segments(m[n..])
  }

  /** The strings of `ss` one after the other. */
  function Concat(ss: seq<string>): string {
    if |ss| == 0 then "" else ss[0] + Concat(ss[1..])
  }

  /**
   * The segments end with "done"; every data segment is non-empty and at
   * most 64000 long, all but the last exactly 64000; and the data segments
   * put together give back the message.
   */
  lemma {:induction false} SegmentsShape(m: string)
    ensures var r := Segments(m);
      |r| >= 1 && r[|r| - 1] == DoneMarker &&
      (forall i | 0 <= i < |r| - 1 :: 0 < |r[i]| <= SegmentSize) &&
      (forall i | 0 <= i < |r| - 2 :: |r[i]| == SegmentSize) &&
      Concat(r[..|r| - 1]) == m
    decreases |m|
  {
    if |m| > 0 {
      var n := if |m| < SegmentSize then |m| else SegmentSize;
      SegmentsShape(m[n..]);
      var r, t := Segments(m), Segments(m[n..]);
      assert r == [m[..n]] + t;
      assert r[..|r| - 1] == [m[..n]] + t[..|t| - 1];
      assert m == m[..n] + m[n..];
      if n < SegmentSize {
        assert |m[n..]| == 0;
        assert |r| == 2;
      }
    }
  }

  /** segmentMessage: the loop that slices the message, then the closing "done". */
  method SegmentMessage(message: string) returns (segments: seq<string>)
    ensures segments == Segments(message)
    ensures message == "" ==> segments == [DoneMarker]
  {
    segments := [];
    var rest := message;
    while |rest| > 0
      invariant segments + Segments(rest) == Segments(message)
      decreases |rest|
    {
      var n := if |rest| < SegmentSize then |rest| else SegmentSize;
      assert Segments(rest) == [rest[..n]] + Segments(rest[n..]);
      segments := segments + [rest[..n]];
      rest := rest[n..];
    }
    segments := segments + [DoneMarker];
  }

  /** What waitForData has gathered: the JSON text so far, and whether its handler is still installed. */
  datatype Inbox = Inbox(json: string, listening: bool)

  /** One message on the init channel: "done" removes the handler, anything else is appended. */
  function Feed(s: Inbox, data: string): Inbox {
    if !s.listening then s
    else if data == DoneMarker then s.(listening := false)
    else s.(json := s.json + data)
  }

  /** The messages `msgs`, in order. */
  function FeedAll(s: Inbox, msgs: seq<string>): Inbox
    decreases |msgs|
  {
    if |msgs| == 0 then s else FeedAll(Feed(s, msgs[0]), msgs[1..])
  }

  /** Once "done" has arrived, later messages change nothing. */
  lemma {:induction false} IgnoredAfterDone(s: Inbox, msgs: seq<string>)
    requires !s.listening
    ensures FeedAll(s, msgs) == s
    decreases |msgs|
  {
    if |msgs| > 0 {
      IgnoredAfterDone(Feed(s, msgs[0]), msgs[1..]);
    }
  }

  /**
   * The receiving side undoes segmentMessage: fed the segments of `m` (and
   * anything after them), it holds `m` after what it already had and no
   * longer listens, provided no data segment is the text "done".
   */
  lemma {:induction false} Reassembles(acc: string, m: string, later: seq<string>)
    requires forall i | 0 <= i < |Segments(m)| - 1 :: Segments(m)[i] != DoneMarker
    ensures FeedAll(Inbox(acc, true), Segments(m) + later) == Inbox(acc + m, false)
    decreases |m|
  {
    var r := Segments(m);
    if |m| == 0 {
      assert (r + later)[0] == DoneMarker && (r + later)[1..] == later;
      IgnoredAfterDone(Inbox(acc, false), later);
      assert acc + m == acc;
    } else {
      var n := if |m| < SegmentSize then |m| else SegmentSize;
      var t := Segments(m[n..]);
      assert r == [m[..n]] + t;
      assert r[0] != DoneMarker;
      forall i | 0 <= i < |t| - 1
        ensures t[i] != DoneMarker
      {
        assert t[i] == r[i + 1];
      }
      Reassembles(acc + m[..n], m[n..], later);
      assert (r + later)[0] == m[..n] && (r + later)[1..] == t + later;
      assert acc + m[..n] + m[n..] == acc + m;
    }
  }

  /**
   * The message the host segments is a JSON object, whose text ends with
   * '}': then no data segment is "done", and the round trip above applies.
   */
  lemma {:induction false} ObjectSegmentsAreData(m: string)
    requires |m| > 0 && m[|m| - 1] == '}'
    ensures forall i | 0 <= i < |Segments(m)| - 1 :: Segments(m)[i] != DoneMarker
    decreases |m|
  {
    var r := Segments(m);
    var n := if |m| < SegmentSize then |m| else SegmentSize;
    var t := Segments(m[n..]);
    assert r == [m[..n]] + t;
    if n < |m| {
      assert |r[0]| == SegmentSize;
      ObjectSegmentsAreData(m[n..]);
      forall i | 1 <= i < |r| - 1
        ensures r[i] != DoneMarker
      {
        assert r[i] == t[i - 1];
      }
    } else {
      assert r[0] == m && m[|m| - 1] != DoneMarker[3];
      assert t == [DoneMarker];
    }
  }

  /** The handler waitForData installs on the init channel. */
  class Receiver {
    var inbox: Inbox

    constructor ()
      ensures inbox == Inbox("", true)
    {
      inbox := Inbox("", true);
    }

    /** One message: the gathered JSON text once "done" arrives, nothing before or after. */
    method OnMessage(data: string) returns (json: Option<string>)
      modifies this
      ensures inbox == Feed(old(inbox), data)
      ensures json.Some? <==> old(inbox.listening) && data == DoneMarker
      ensures json.Some? ==> json.value == old(inbox.json)
    {
      json := None;
      if inbox.listening {
        if data == DoneMarker {
          inbox := inbox.(listening := false);
          json := Some(inbox.json);
        } else {
          inbox := inbox.(json := inbox.json + data);
        }
      }
    }
  }

  // ----- updatePiece and the calls the handlers make on the game -----

  /** A piece's place and turn as it travels between peers. */
  datatype PieceUpdate = PieceUpdate(id: int, x: real, y: real, o: int)

  /** `ps` with the place and turn of piece `u.id` taken from `u`. */
  function Updated(ps: seq<Piece>, u: PieceUpdate): (r: seq<Piece>)
    requires 0 <= u.id < |ps|
    ensures |r| == |ps|
    ensures forall i | 0 <= i < |ps| && i != u.id :: r[i] == ps[i]
    ensures r[u.id].x == u.x && r[u.id].y == u.y && r[u.id].orientation == u.o
    ensures r[u.id] == ps[u.id].(x := r[u.id].x, y := r[u.id].y, orientation := r[u.id].orientation)
  {
    ps[u.id := ps[u.id].(x := u.x, y := u.y, orientation := u.o)]
  }

  /** updatePiece: overwrites the place and turn of piece `u.id` and returns that piece. */
  method UpdatePiece(board: Board, u: PieceUpdate) returns (piece: Piece)
    requires board.Valid() && 0 <= u.id < |board.pieces| && 0 <= u.o < 4
    modifies board
    ensures board.Valid() && board.groups == old(board.groups)
    ensures board.pieces == Updated(old(board.pieces), u) && piece == board.pieces[u.id]
  {
    ghost var a := board.State();
    board.pieces := Updated(board.pieces, u);
    WfFrame(a, board.State());
    piece := board.pieces[u.id];
  }

  /** A call a handler makes on the game: updatePiece, grabPieces or placePieces. */
  datatype Call = Update(u: PieceUpdate) | Grab(id: int) | Place(id: int)

  /** The call names a piece of a game of `n` pieces, and an update carries a quarter turn. */
  predicate CallOk(n: int, c: Call) {
    match c
    case Update(u) => 0 <= u.id < n && 0 <= u.o < 4
    case Grab(id) => 0 <= id < n
    case Place(id) => 0 <= id < n
  }

  /** The game's pieces and groups, and the boxes its BVH holds. */
  type Snapshot = (Arena, map<int, Aabb.AABB>)

  /**
   * Call `c` takes the game from `s` to `s'`: an update rewrites one piece's
   * place and turn, a grab marks the piece's group grabbed at z-index 9999,
   * a place drops the piece's group as placePieces does.
   */
  ghost predicate Performs(s: Snapshot, c: Call, s': Snapshot, edgeCount: int) {
    var (a, B) := s;
    var (a', B') := s';
    Wf(a) && CallOk(|a.pieces|, c) &&
    match c
    case Update(u) =>
      a' == Arena(Updated(a.pieces, u), a.groups) && B' == B
    case Grab(id) =>
      0 <= a.pieces[id].group < |a.groups| &&
      a' == Arena(Game.Marked(a.pieces, a.groups[a.pieces[id].group].members, true, 9999), a.groups) && B' == B
    case Place(id) =>
      exists snap, z :: Game.Dropped(a, B, a', B', id, snap, z, edgeCount)
  }

  /** `trace` holds the game before, between and after `calls`, each step doing its call. */
  ghost predicate Traced(trace: seq<Snapshot>, calls: seq<Call>, edgeCount: int) {
    |trace| == |calls| + 1 &&
    forall k | 0 <= k < |calls| :: Performs(trace[k], calls[k], trace[k + 1], edgeCount)
  }

  lemma TracedStep(trace: seq<Snapshot>, calls: seq<Call>, k: int, s: Snapshot, edgeCount: int)
    requires 0 <= k < |calls| && Traced(trace, calls[..k], edgeCount)
    requires Performs(trace[k], calls[k], s, edgeCount)
    ensures Traced(trace + [s], calls[..k + 1], edgeCount)
  {
    var t, cs := trace + [s], calls[..k + 1];
    forall j | 0 <= j < |cs|
      ensures Performs(t[j], cs[j], t[j + 1], edgeCount)
    {
      if j < k {
        assert cs[j] == calls[..k][j];
      }
    }
  }

  /** One call on the game. */
  method Perform(game: Game.PuzzleGame, c: Call)
    requires game.Valid() && CallOk(|game.board.pieces|, c)
    modifies game.board, game.bvh, game.bvh.tree
    ensures game.Valid() && |game.board.pieces| == old(|game.board.pieces|)
    ensures Performs((old(game.board.State()), old(game.bvh.boxes)), c,
                     (game.board.State(), game.bvh.boxes), game.edgeCount)
  {
    match c
    case Update(u) =>
      var _ := UpdatePiece(game.board, u);
    case Grab(id) =>
      game.GrabPieces(id);
    case Place(id) =>
      ghost var snap, z := game.PlacePieces(id);
  }

  /** The calls one after the other; the handlers below make their calls this way. */
  method PerformAll(game: Game.PuzzleGame, calls: seq<Call>) returns (ghost trace: seq<Snapshot>)
    requires game.Valid() && forall k | 0 <= k < |calls| :: CallOk(|game.board.pieces|, calls[k])
    modifies game.board, game.bvh, game.bvh.tree
    ensures game.Valid() && |game.board.pieces| == old(|game.board.pieces|)
    ensures Traced(trace, calls, game.edgeCount)
    ensures trace[0] == (old(game.board.State()), old(game.bvh.boxes))
    ensures trace[|trace| - 1] == (game.board.State(), game.bvh.boxes)
  {
    trace := [(game.board.State(), game.bvh.boxes)];
    for k := 0 to |calls|
      invariant game.Valid() && |game.board.pieces| == old(|game.board.pieces|)
      invariant Traced(trace, calls[..k], game.edgeCount)
      invariant trace[0] == (old(game.board.State()), old(game.bvh.boxes))
      invariant trace[k] == (game.board.State(), game.bvh.boxes)
    {
      Perform(game, calls[k]);
      TracedStep(trace, calls, k, (game.board.State(), game.bvh.boxes), game.edgeCount);
      trace := trace + [(game.board.State(), game.bvh.boxes)];
    }
    assert calls[..|calls|] == calls;
  }

  // ----- peer tables -----

  /** A peer's cursor and the piece it holds, as the tables of network.js keep them. */
  datatype Peer = Peer(x: real, y: real, piece: Option<PieceUpdate>)

  /** A fresh entry: the cursor at the origin, no piece held. */
  const NewPeer: Peer := Peer(0.0, 0.0, None)

  /** Every piece a peer of the table holds is a piece of a game of `n` pieces. */
  ghost predicate HeldOk(n: int, peers: map<int, Peer>) {
    forall k | k in peers && peers[k].piece.Some? :: 0 <= peers[k].piece.value.id < n
  }

  /** `order` lists the keys `keys`, each once. */
  ghost predicate Lists(order: seq<int>, keys: set<int>) {
    AabbTree.NoDuplicates(order) && forall k :: k in order <==> k in keys
  }

  /**
   * The table after onidchange(newId): the self entry is moved to `newId`
   * and the old key is gone; a change to the same id loses the entry.
   */
  function Renamed(peers: map<int, Peer>, selfId: int, newId: int): (r: map<int, Peer>)
    requires selfId in peers
    ensures newId != selfId ==> r.Keys == peers.Keys - {selfId} + {newId} && r[newId] == peers[selfId]
    ensures newId == selfId ==> r.Keys == peers.Keys - {selfId}
    ensures forall k | k in r && k != newId :: r[k] == peers[k]
  {
    peers[newId := peers[selfId]] - {selfId}
  }

  // ----- the host -----

  /** A message from a client: its cursor and held piece, or a grab, or a drop. */
  datatype ClientMessage = ClientMessage(
    x: Option<real>, y: Option<real>, piece: Option<PieceUpdate>,
    grab: Option<PieceUpdate>, drop: Option<PieceUpdate>)

  /** Every piece the message names is a piece of a game of `n` pieces, with a quarter turn. */
  predicate ClientMessageOk(n: int, msg: ClientMessage) {
    (msg.piece.Some? ==> CallOk(n, Update(msg.piece.value))) &&
    (msg.grab.Some? ==> CallOk(n, Update(msg.grab.value))) &&
    (msg.drop.Some? ==> CallOk(n, Update(msg.drop.value)))
  }

  /**
   * The host's entry for the sender after the message: the cursor moves only
   * when both coordinates are present; a reported piece or a grab is recorded
   * as held, and a drop clears it.
   */
  function Received(p: Peer, msg: ClientMessage): (r: Peer)
    ensures msg.x.Some? && msg.y.Some? ==> r.x == msg.x.value && r.y == msg.y.value
    ensures msg.x.None? || msg.y.None? ==> r.x == p.x && r.y == p.y
    ensures msg.drop.Some? ==> r.piece.None?
    ensures msg.drop.None? && msg.grab.Some? ==> r.piece == msg.grab
    ensures msg.drop.None? && msg.grab.None? && msg.piece.Some? ==> r.piece == msg.piece
    ensures msg.drop.None? && msg.grab.None? && msg.piece.None? ==> r.piece == p.piece
  {
    var moved := if msg.x.Some? && msg.y.Some? then p.(x := msg.x.value, y := msg.y.value) else p;
    var reported := if msg.piece.Some? then moved.(piece := msg.piece) else moved;
    var grabbed := if msg.grab.Some? then reported.(piece := msg.grab) else reported;
    if msg.drop.Some? then grabbed.(piece := None) else grabbed
  }

  /**
   * The calls Host.handleMessage makes: every piece the message carries is
   * updated; a grabbed piece is then grabbed, a dropped one placed, the drop
   * last.
   */
  function HostCalls(msg: ClientMessage): (r: seq<Call>)
    ensures forall c | c in r :: c.Update? ==> Some(c.u) in {msg.piece, msg.grab, msg.drop}
    ensures forall id :: Grab(id) in r <==> msg.grab.Some? && msg.grab.value.id == id
    ensures forall id :: Place(id) in r <==> msg.drop.Some? && msg.drop.value.id == id
    ensures msg.drop.Some? ==> |r| >= 2 && r[|r| - 2..] == [Update(msg.drop.value), Place(msg.drop.value.id)]
  {
    (if msg.piece.Some? then [Update(msg.piece.value)] else []) +
    (if msg.grab.Some? then [Update(msg.grab.value), Grab(msg.grab.value.id)] else []) +
    (if msg.drop.Some? then [Update(msg.drop.value), Place(msg.drop.value.id)] else [])
  }

  /** A well-formed message gives the game only calls it can take. */
  lemma HostCallsOk(n: int, msg: ClientMessage)
    requires ClientMessageOk(n, msg)
    ensures forall k | 0 <= k < |HostCalls(msg)| :: CallOk(n, HostCalls(msg)[k])
  {
  }

  /** What sendUpdate sends for one piece: its id, place, turn and group. */
  datatype PieceRecord = PieceRecord(id: int, x: real, y: real, o: int, g: int)

  /** The pieces held by the peers whose keys are in `ks`. */
  ghost function HeldBy(peers: map<int, Peer>, ks: set<int>): set<int> {
    set k | k in ks && k in peers && peers[k].piece.Some? :: peers[k].piece.value.id
  }

  lemma HeldByMore(peers: map<int, Peer>, ks: set<int>, k: int)
    requires k in peers
    ensures HeldBy(peers, ks + {k}) ==
      HeldBy(peers, ks) + (if peers[k].piece.Some? then {peers[k].piece.value.id} else {})
  {
  }

  /** A set that is not empty has a member, for the loops that take keys one at a time. */
  lemma NonEmpty(s: set<int>)
    requires s != {}
    ensures exists k :: k in s
  {
    assert (forall k :: k !in s) ==> s == {};
  }

  lemma HeldInRange(peers: map<int, Peer>, ids: seq<int>, n: int)
    requires HeldOk(n, peers) && forall i :: i in ids ==> i in HeldBy(peers, peers.Keys)
    ensures forall i | 0 <= i < |ids| :: 0 <= ids[i] < n
  {
    forall i | 0 <= i < |ids|
      ensures 0 <= ids[i] < n
    {
      assert ids[i] in ids;
    }
  }

  /** A list of fewer than n distinct values in [0, n) misses one of them. */
  lemma {:induction false} Missing(s: seq<int>, n: int)
    requires AabbTree.NoDuplicates(s) && |s| < n
    requires forall i | 0 <= i < |s| :: 0 <= s[i] < n
    ensures exists t :: 0 <= t < n && t !in s
    decreases n
  {
    if n - 1 in s {
      var i :| 0 <= i < |s| && s[i] == n - 1;
      var t := s[..i] + s[i + 1..];
      DropTop(s, i, n);
      Missing(t, n - 1);
      var x :| 0 <= x < n - 1 && x !in t;
      DropMisses(s, i, x);
    } else {
      assert 0 <= n - 1 < n;
    }
  }

  /** Dropping the top value n - 1 from a list of distinct values in [0, n) leaves distinct values below it. */
  lemma DropTop(s: seq<int>, i: int, n: int)
    requires AabbTree.NoDuplicates(s) && forall k | 0 <= k < |s| :: 0 <= s[k] < n
    requires 0 <= i < |s| && s[i] == n - 1
    ensures var t := s[..i] + s[i + 1..];
      AabbTree.NoDuplicates(t) && forall j | 0 <= j < |t| :: 0 <= t[j] < n - 1
  {
    var t := s[..i] + s[i + 1..];
    forall j | 0 <= j < |t|
      ensures 0 <= t[j] < n - 1
    {
      if j < i { assert t[j] == s[j]; } else { assert t[j] == s[j + 1]; }
    }
    forall j, l | 0 <= j < l < |t|
      ensures t[j] != t[l]
    {
      var j', l' := if j < i then j else j + 1, if l < i then l else l + 1;
      assert t[j] == s[j'] && t[l] == s[l'];
    }
  }

  /** A value other than s[i] that the list without s[i] misses is missing from s too. */
  lemma DropMisses(s: seq<int>, i: int, x: int)
    requires 0 <= i < |s| && x != s[i] && x !in s[..i] + s[i + 1..]
    ensures x !in s
  {
    var t := s[..i] + s[i + 1..];
    forall j | 0 <= j < |s|
      ensures s[j] != x
    {
      if j < i { assert s[j] == t[j]; } else if j > i { assert s[j] == t[j - 1]; }
    }
  }

  lemma ModBelow(a: int, n: int)
    requires 0 <= a < n
    ensures a % n == a
  {
  }

  lemma ModAbove(a: int, n: int)
    requires -n <= a < 0
    ensures a % n == a + n
  {
  }

  /** One round-robin step brings the cursor one closer to a target it has not reached. */
  lemma RoundRobinStep(target: int, id: int, n: int)
    requires 0 <= target < n && 0 <= id < n && id != target
    ensures var next := if id + 1 == n then 0 else id + 1;
      0 <= (target - next) % n < (target - id) % n
  {
    if id < target {
      ModBelow(target - id, n);
      ModBelow(target - id - 1, n);
    } else if id + 1 == n {
      ModAbove(target - id, n);
      ModBelow(target, n);
    } else {
      ModAbove(target - id, n);
      ModAbove(target - id - 1, n);
    }
  }

  /**
   * sendUpdate's record of each chosen piece, in the order chosen; a group's
   * id is its index.
   */
  function Records(a: Arena, ids: seq<int>): (r: seq<PieceRecord>)
    requires Wf(a) && forall i | 0 <= i < |ids| :: 0 <= ids[i] < |a.pieces|
    ensures |r| == |ids|
    ensures forall i | 0 <= i < |ids| ::
      var p := a.pieces[ids[i]];
      r[i] == PieceRecord(ids[i], p.x, p.y, p.orientation, p.group)
  {
    seq(|ids|, i requires 0 <= i < |ids| =>
      var p := a.pieces[ids[i]];
      PieceRecord(ids[i], p.x, p.y, p.orientation, p.group))
  }

  /** The first loop of sendUpdate: the pieces the peers hold, each once, in the order met. */
  method HeldIds(peers: map<int, Peer>) returns (ids: seq<int>)
    ensures AabbTree.NoDuplicates(ids) && forall i :: i in ids <==> i in HeldBy(peers, peers.Keys)
  {
    ids := [];
    var rest := peers.Keys;
    while rest != {}
      invariant rest <= peers.Keys
      invariant AabbTree.NoDuplicates(ids) && forall i :: i in ids <==> i in HeldBy(peers, peers.Keys - rest)
      decreases |rest|
    {
      NonEmpty(rest);
      var k :| k in rest;
      HeldByMore(peers, peers.Keys - rest, k);
      assert peers.Keys - (rest - {k}) == (peers.Keys - rest) + {k};
      if peers[k].piece.Some? && peers[k].piece.value.id !in ids {
        AabbTree.AppendFresh(ids, peers[k].piece.value.id);
        ids := ids + [peers[k].piece.value.id];
      }
      rest := rest - {k};
    }
  }

  /**
   * The second loop of sendUpdate, from round-robin cursor `start` in a game
   * of `n` pieces: pieces from the cursor on, skipping those already chosen,
   * until there are 20; `next` is where the cursor ends. With fewer than 20
   * pieces the loop would never finish.
   */
  method FillIds(chosen: seq<int>, n: int, start: int) returns (ids: seq<int>, next: int)
    requires n >= 20 && 0 <= start < n
    requires AabbTree.NoDuplicates(chosen) && forall i | 0 <= i < |chosen| :: 0 <= chosen[i] < n
    ensures AabbTree.NoDuplicates(ids) && forall i | 0 <= i < |ids| :: 0 <= ids[i] < n
    ensures |ids| == (if |chosen| < 20 then 20 else |chosen|) && ids[..|chosen|] == chosen
    ensures 0 <= next < n
  {
    ids, next := chosen, start;
    ghost var target := 0;
    if |ids| < 20 {
      Missing(ids, n);
      target :| 0 <= target < n && target !in ids;
    }
    while |ids| < 20
      invariant AabbTree.NoDuplicates(ids) && forall i | 0 <= i < |ids| :: 0 <= ids[i] < n
      invariant 0 <= next < n && |chosen| <= |ids| && ids[..|chosen|] == chosen
      invariant |ids| > |chosen| ==> |ids| <= 20
      invariant |ids| < 20 ==> 0 <= target < n && target !in ids
      decreases 20 - |ids|, (target - next) % n
    {
      var id := next;
      next := next + 1;
      if next == n {
        next := 0;
      }
      if id !in ids {
        AabbTree.AppendFresh(ids, id);
        ids := ids + [id];
        if |ids| < 20 {
          Missing(ids, n);
          target :| 0 <= target < n && target !in ids;
        }
      } else {
        RoundRobinStep(target, id, n);
      }
    }
  }

  /** The host after setup: its game, its table of peers and the round-robin cursor. */
  class Host {
    const game: Game.PuzzleGame
    var selfId: int
    var peers: map<int, Peer>
    var nextId: int

    ghost predicate Valid()
      reads this, game, game.board, game.bvh, game.bvh.tree
    {
      game.Valid() && 0 <= nextId && (nextId < |game.board.pieces| || nextId == 0) &&
      HeldOk(|game.board.pieces|, peers)
    }

    /** new Host(roomKey) then setup(game): only the host's own entry, under the id -1. */
    constructor (game: Game.PuzzleGame)
      requires game.Valid()
      ensures Valid() && this.game == game
      ensures selfId == -1 && peers == map[-1 := NewPeer] && nextId == 0
    {
      this.game := game;
      selfId := -1;
      peers := map[-1 := NewPeer];
      nextId := 0;
    }

    /** onidchange: the peer manager reports a new id (peer.js calls it only on a change). */
    method OnIdChange(newId: int)
      requires selfId in peers && newId != selfId
      modifies this
      ensures peers == Renamed(old(peers), old(selfId), newId) && selfId == newId
      ensures nextId == old(nextId)
    {
      peers := peers[newId := peers[selfId]];
      peers := peers - {selfId};
      selfId := newId;
    }

    /** onpeerconnected: a fresh entry for the new peer. */
    method PeerConnected(peerId: int)
      requires Valid()
      modifies this
      ensures Valid() && peers == old(peers)[peerId := NewPeer]
      ensures selfId == old(selfId) && nextId == old(nextId)
    {
      peers := peers[peerId := NewPeer];
    }

    /** onpeerlost: the entry is deleted, and a piece the peer held is placed. */
    method PeerLost(peerId: int) returns (ghost trace: seq<Snapshot>)
      requires Valid() && peerId in peers
      modifies this, game.board, game.bvh, game.bvh.tree
      ensures Valid() && peers == old(peers) - {peerId}
      ensures selfId == old(selfId) && nextId == old(nextId)
      ensures var held := old(peers[peerId].piece);
        Traced(trace, if held.Some? then [Place(held.value.id)] else [], game.edgeCount)
      ensures trace[0] == (old(game.board.State()), old(game.bvh.boxes))
      ensures trace[|trace| - 1] == (game.board.State(), game.bvh.boxes)
    {
      var peer := peers[peerId];
      peers := peers - {peerId};
      var calls := if peer.piece.Some? then [Place(peer.piece.value.id)] else [];
      trace := PerformAll(game, calls);
    }

    /** handlePointer: the host's own cursor moves, and a dragged piece is recorded as held. */
    method HandlePointer(x: real, y: real, piece: Option<int>)
      requires Valid() && selfId in peers && (piece.Some? ==> 0 <= piece.value < |game.board.pieces|)
      modifies this
      ensures Valid() && selfId == old(selfId) && nextId == old(nextId)
      ensures var me := old(peers[selfId]).(x := x, y := y);
        peers == old(peers)[selfId := if piece.Some? then me.(piece := Some(Report(game.board.pieces[piece.value]))) else me]
    {
      peers := peers[selfId := peers[selfId].(x := x, y := y)];
      if piece.Some? {
        assert PieceOk(game.board.State(), piece.value);
        peers := peers[selfId := peers[selfId].(piece := Some(Report(game.board.pieces[piece.value])))];
      }
    }

    /** handleGrab: the host's own entry records the piece as held. */
    method HandleGrab(id: int)
      requires Valid() && selfId in peers && 0 <= id < |game.board.pieces|
      modifies this
      ensures Valid() && selfId == old(selfId) && nextId == old(nextId)
      ensures peers == old(peers)[selfId := old(peers[selfId]).(piece := Some(Report(game.board.pieces[id])))]
    {
      assert PieceOk(game.board.State(), id);
      peers := peers[selfId := peers[selfId].(piece := Some(Report(game.board.pieces[id])))];
    }

    /** handleDrop: the host's own entry no longer holds a piece. */
    method HandleDrop()
      requires Valid() && selfId in peers
      modifies this
      ensures Valid() && selfId == old(selfId) && nextId == old(nextId)
      ensures peers == old(peers)[selfId := old(peers[selfId]).(piece := None)]
    {
      peers := peers[selfId := peers[selfId].(piece := None)];
    }

    /** The part of handleMessage that updates the sender's entry. */
    method Receive(peerId: int, msg: ClientMessage)
      requires Valid() && peerId in peers && ClientMessageOk(|game.board.pieces|, msg)
      modifies this
      ensures Valid() && peers == old(peers)[peerId := Received(old(peers[peerId]), msg)]
      ensures selfId == old(selfId) && nextId == old(nextId)
      ensures game.board.State() == old(game.board.State()) && game.bvh.boxes == old(game.bvh.boxes)
    {
      var peer := peers[peerId];
      if msg.x.Some? && msg.y.Some? {
        peer := peer.(x := msg.x.value, y := msg.y.value);
      }
      if msg.piece.Some? {
        peer := peer.(piece := msg.piece);
      }
      if msg.grab.Some? {
        peer := peer.(piece := msg.grab);
      }
      if msg.drop.Some? {
        peer := peer.(piece := None);
      }
      peers := peers[peerId := peer];
    }

    /** handleMessage: the sender's entry takes in the message, and the game gets the message's calls. */
    method HandleMessage(peerId: int, msg: ClientMessage) returns (ghost trace: seq<Snapshot>)
      requires Valid() && peerId in peers && ClientMessageOk(|game.board.pieces|, msg)
      modifies this, game.board, game.bvh, game.bvh.tree
      ensures Valid() && peers == old(peers)[peerId := Received(old(peers[peerId]), msg)]
      ensures selfId == old(selfId) && nextId == old(nextId)
      ensures Traced(trace, HostCalls(msg), game.edgeCount)
      ensures trace[0] == (old(game.board.State()), old(game.bvh.boxes))
      ensures trace[|trace| - 1] == (game.board.State(), game.bvh.boxes)
    {
      Receive(peerId, msg);
      HostCallsOk(|game.board.pieces|, msg);
      trace := PerformAll(game, HostCalls(msg));
    }

    /** sendUpdate: the records of the chosen pieces, sent with the whole peer table. */
    method SendUpdate() returns (records: seq<PieceRecord>, table: map<int, Peer>)
      requires Valid() && |game.board.pieces| >= 20
      modifies this
      ensures Valid() && peers == old(peers) && selfId == old(selfId) && table == peers
      ensures forall k | k in peers && peers[k].piece.Some? ::
        exists i | 0 <= i < |records| :: records[i].id == peers[k].piece.value.id
      ensures |records| >= 20
      ensures forall i, j | 0 <= i < j < |records| :: records[i].id != records[j].id
      ensures forall i | 0 <= i < |records| ::
        0 <= records[i].id < |game.board.pieces| &&
        var p := game.board.pieces[records[i].id];
        records[i] == PieceRecord(records[i].id, p.x, p.y, p.orientation, p.group)
    {
      var held := HeldIds(peers);
      HeldInRange(peers, held, |game.board.pieces|);
      var ids;
      ids, nextId := FillIds(held, |game.board.pieces|, nextId);
      records := Records(game.board.State(), ids);
      table := peers;
      forall k | k in peers && peers[k].piece.Some?
        ensures exists i | 0 <= i < |records| :: records[i].id == peers[k].piece.value.id
      {
        var id := peers[k].piece.value.id;
        assert id in HeldBy(peers, peers.Keys);
        var i :| 0 <= i < |held| && held[i] == id;
        assert ids[i] == held[i];
        assert records[i].id == id;
      }
    }
  }

  // ----- the client -----

  /** A message from the host: some pieces' places and turns, and its whole peer table. */
  datatype HostMessage = HostMessage(pieces: seq<PieceUpdate>, peers: map<int, Peer>)

  /** Every piece the message names is a piece of a game of `n` pieces, with a quarter turn for updates. */
  ghost predicate HostMessageOk(n: int, msg: HostMessage) {
    (forall i | 0 <= i < |msg.pieces| :: CallOk(n, Update(msg.pieces[i]))) && HeldOk(n, msg.peers)
  }

  /** What a peer reports about the piece it holds. */
  function Report(p: Piece): (u: PieceUpdate)
    ensures u.id == p.id && u.x == p.x && u.y == p.y && u.o == p.orientation
  {
    PieceUpdate(p.id, p.x, p.y, p.orientation)
  }

  /** The id of the piece an entry holds, or -1. */
  function HeldPiece(me: Peer): (id: int)
    ensures me.piece.Some? ==> id == me.piece.value.id
    ensures me.piece.None? ==> id == -1
  {
    if me.piece.Some? then me.piece.value.id else -1
  }

  /** The updates of the client's first loop: every piece of the message except the one it holds itself. */
  function UpdateCalls(ps: seq<PieceUpdate>, my: int): seq<Call>
    decreases |ps|
  {
    if |ps| == 0 then []
    else
      var last := ps[|ps| - 1];
      UpdateCalls(ps[..|ps| - 1], my) + (if last.id != my then [Update(last)] else [])
  }

  /**
   * The client never overwrites the piece it holds itself, and updates every
   * other piece the message carries.
   */
  lemma {:induction false} UpdateCallsMeaning(ps: seq<PieceUpdate>, my: int)
    ensures forall c | c in UpdateCalls(ps, my) :: c.Update? && c.u in ps && c.u.id != my
    ensures forall u | u in ps && u.id != my :: Update(u) in UpdateCalls(ps, my)
    decreases |ps|
  {
    if |ps| > 0 {
      var init, last := ps[..|ps| - 1], ps[|ps| - 1];
      UpdateCallsMeaning(init, my);
      assert ps == init + [last];
    }
  }

  /**
   * The call that reconciles a known peer's entry `e` with the host's `p`: a
   * grab when the peer newly holds a piece, a place when it let go of one.
   */
  function Transition(e: Peer, p: Peer): seq<Call> {
    if e.piece.None? && p.piece.Some? then [Grab(p.piece.value.id)]
    else if e.piece.Some? && p.piece.None? then [Place(e.piece.value.id)]
    else []
  }

  /**
   * The calls of the client's second loop, over the host's entries in the
   * order `order`: a grab for every known peer that newly holds a piece, a
   * place for every known peer that let go of one, nothing for new peers.
   */
  function PeerCalls(t: map<int, Peer>, m: map<int, Peer>, order: seq<int>): seq<Call>
    requires forall k | k in order :: k in m
    decreases |order|
  {
    if |order| == 0 then []
    else
      var k := order[|order| - 1];
      PeerCalls(t, m, order[..|order| - 1]) + (if k in t then Transition(t[k], m[k]) else [])
  }

  /**
   * The second loop grabs exactly the pieces that known peers newly hold,
   * places exactly the pieces that known peers let go of, and updates nothing.
   */
  lemma {:induction false} PeerCallsMeaning(t: map<int, Peer>, m: map<int, Peer>, order: seq<int>)
    requires forall k | k in order :: k in m
    ensures forall c | c in PeerCalls(t, m, order) :: !c.Update?
    ensures forall id :: Grab(id) in PeerCalls(t, m, order) <==>
      exists k | k in order :: k in t && t[k].piece.None? && m[k].piece.Some? && m[k].piece.value.id == id
    ensures forall id :: Place(id) in PeerCalls(t, m, order) <==>
      exists k | k in order :: k in t && t[k].piece.Some? && m[k].piece.None? && t[k].piece.value.id == id
    decreases |order|
  {
    if |order| > 0 {
      var init, k := order[..|order| - 1], order[|order| - 1];
      PeerCallsMeaning(t, m, init);
      assert order == init + [k];
    }
  }

  /** The calls of the client's last loop, over the peers the host no longer lists: a place for each held piece. */
  function GoneCalls(t: map<int, Peer>, order: seq<int>): seq<Call>
    requires forall k | k in order :: k in t
    decreases |order|
  {
    if |order| == 0 then []
    else
      var k := order[|order| - 1];
      GoneCalls(t, order[..|order| - 1]) + (if t[k].piece.Some? then [Place(t[k].piece.value.id)] else [])
  }

  /** The last loop places exactly the pieces the vanished peers held, and makes no other call. */
  lemma {:induction false} GoneCallsMeaning(t: map<int, Peer>, order: seq<int>)
    requires forall k | k in order :: k in t
    ensures forall c | c in GoneCalls(t, order) :: c.Place?
    ensures forall id :: Place(id) in GoneCalls(t, order) <==>
      exists k | k in order :: t[k].piece.Some? && t[k].piece.value.id == id
    decreases |order|
  {
    if |order| > 0 {
      var init, k := order[..|order| - 1], order[|order| - 1];
      GoneCallsMeaning(t, init);
      assert order == init + [k];
    }
  }

  /**
   * The calls Client.handleMessage makes, the host's entries taken in order
   * `seen` and the vanished peers in order `gone`.
   */
  ghost function ClientCalls(t: map<int, Peer>, msg: HostMessage, my: int, seen: seq<int>, gone: seq<int>): seq<Call>
    requires forall k | k in seen :: k in msg.peers
    requires forall k | k in gone :: k in t
  {
    UpdateCalls(msg.pieces, my) + PeerCalls(t, msg.peers, seen) + GoneCalls(t, gone)
  }

  /** The first loop of Client.handleMessage. */
  method UpdateLoop(ps: seq<PieceUpdate>, my: int) returns (calls: seq<Call>)
    ensures calls == UpdateCalls(ps, my)
  {
    calls := [];
    for i := 0 to |ps|
      invariant calls == UpdateCalls(ps[..i], my)
    {
      assert ps[..i + 1][..i] == ps[..i];
      if ps[i].id != my {
        calls := calls + [Update(ps[i])];
      }
    }
    assert ps[..|ps|] == ps;
  }

  /** The second loop of Client.handleMessage: every entry of the host's table is taken over. */
  method PeerLoop(t: map<int, Peer>, m: map<int, Peer>) returns (calls: seq<Call>, table: map<int, Peer>, ghost order: seq<int>)
    ensures Lists(order, m.Keys) && calls == PeerCalls(t, m, order) && table == t + m
  {
    calls, table, order := [], t, [];
    var rest := m.Keys;
    while rest != {}
      invariant rest <= m.Keys && AabbTree.NoDuplicates(order)
      invariant forall k :: k in order <==> k in m && k !in rest
      invariant calls == PeerCalls(t, m, order)
      invariant forall k :: k in table <==> k in t || k in order
      invariant forall k | k in table :: table[k] == if k in order then m[k] else t[k]
      decreases |rest|
    {
      NonEmpty(rest);
      var k :| k in rest;
      if k in table {
        var existing := table[k];
        if existing.piece.None? && m[k].piece.Some? {
          calls := calls + [Grab(m[k].piece.value.id)];
        } else if existing.piece.Some? && m[k].piece.None? {
          calls := calls + [Place(existing.piece.value.id)];
        }
      }
      table := table[k := m[k]];
      AabbTree.AppendFresh(order, k);
      assert (order + [k])[..|order|] == order;
      order := order + [k];
      rest := rest - {k};
    }
    MergedTable(t, m, table, order);
  }

  lemma MergedTable(t: map<int, Peer>, m: map<int, Peer>, table: map<int, Peer>, order: seq<int>)
    requires forall k :: k in order <==> k in m
    requires forall k :: k in table <==> k in t || k in order
    requires forall k | k in table :: table[k] == if k in order then m[k] else t[k]
    ensures table == t + m
  {
    forall k
      ensures k in table <==> k in t + m
    {
      assert k in t + m <==> k in t || k in m;
    }
    forall k | k in table
      ensures table[k] == (t + m)[k]
    {
    }
  }

  /** The last loop of Client.handleMessage: the vanished peers are deleted, in order `order`. */
  method GoneLoop(t: map<int, Peer>, gone: set<int>) returns (calls: seq<Call>, table: map<int, Peer>, ghost order: seq<int>)
    requires gone <= t.Keys
    ensures Lists(order, gone) && calls == GoneCalls(t, order) && table == t - gone
  {
    calls, table, order := [], t, [];
    var rest := gone;
    while rest != {}
      invariant rest <= gone && AabbTree.NoDuplicates(order)
      invariant forall k :: k in order <==> k in gone && k !in rest
      invariant calls == GoneCalls(t, order)
      invariant forall k :: k in table <==> k in t && k !in order
      invariant forall k | k in table :: table[k] == t[k]
      decreases |rest|
    {
      NonEmpty(rest);
      var k :| k in rest;
      if table[k].piece.Some? {
        calls := calls + [Place(table[k].piece.value.id)];
      }
      table := table - {k};
      AabbTree.AppendFresh(order, k);
      assert (order + [k])[..|order|] == order;
      order := order + [k];
      rest := rest - {k};
    }
    RemainingTable(t, gone, table, order);
  }

  lemma RemainingTable(t: map<int, Peer>, gone: set<int>, table: map<int, Peer>, order: seq<int>)
    requires forall k :: k in order <==> k in gone
    requires forall k :: k in table <==> k in t && k !in order
    requires forall k | k in table :: table[k] == t[k]
    ensures table == t - gone
  {
    forall k
      ensures k in table <==> k in t - gone
    {
      assert k in t - gone <==> k in t && k !in gone;
    }
    forall k | k in table
      ensures table[k] == (t - gone)[k]
    {
    }
  }

  /** The last loop reads entries the second loop did not touch. */
  lemma {:induction false} GoneFrame(t: map<int, Peer>, m: map<int, Peer>, order: seq<int>)
    requires forall k | k in order :: k in t && k !in m
    ensures GoneCalls(t + m, order) == GoneCalls(t, order)
    decreases |order|
  {
    if |order| > 0 {
      GoneFrame(t, m, order[..|order| - 1]);
    }
  }

  /** The three loops of Client.handleMessage on the table `t`, for a client holding piece `my`. */
  method Reconcile(t: map<int, Peer>, msg: HostMessage, my: int)
    returns (calls: seq<Call>, table: map<int, Peer>, ghost seen: seq<int>, ghost gone: seq<int>)
    ensures table == msg.peers
    ensures Lists(seen, msg.peers.Keys) && Lists(gone, t.Keys - msg.peers.Keys)
    ensures calls == ClientCalls(t, msg, my, seen, gone)
  {
    var updates := UpdateLoop(msg.pieces, my);
    var grabs, merged;
    grabs, merged, seen := PeerLoop(t, msg.peers);
    var places;
    places, table, gone := GoneLoop(merged, t.Keys - msg.peers.Keys);
    GoneFrame(t, msg.peers, gone);
    calls := updates + grabs + places;
  }

  /** Every call the client makes names a piece of the game. */
  lemma ClientCallsOk(n: int, t: map<int, Peer>, msg: HostMessage, my: int, seen: seq<int>, gone: seq<int>)
    requires HostMessageOk(n, msg) && HeldOk(n, t)
    requires forall k | k in seen :: k in msg.peers
    requires forall k | k in gone :: k in t
    ensures var calls := ClientCalls(t, msg, my, seen, gone);
      forall i | 0 <= i < |calls| :: CallOk(n, calls[i])
  {
    var u, p, g := UpdateCalls(msg.pieces, my), PeerCalls(t, msg.peers, seen), GoneCalls(t, gone);
    UpdateCallsMeaning(msg.pieces, my);
    PeerCallsMeaning(t, msg.peers, seen);
    GoneCallsMeaning(t, gone);
    forall i | 0 <= i < |u + p + g|
      ensures CallOk(n, (u + p + g)[i])
    {
      var c := (u + p + g)[i];
      assert c in u || c in p || c in g;
      if c in u {
        var j :| 0 <= j < |msg.pieces| && msg.pieces[j] == c.u;
      } else if c.Grab? {
        var k :| k in seen && k in t && t[k].piece.None? && msg.peers[k].piece.Some? && msg.peers[k].piece.value.id == c.id;
      } else if c in p {
        var k :| k in seen && k in t && t[k].piece.Some? && msg.peers[k].piece.None? && t[k].piece.value.id == c.id;
      } else {
        var k :| k in gone && t[k].piece.Some? && t[k].piece.value.id == c.id;
      }
    }
  }

  /**
   * A client: its game once setup has run, its table of peers (its own entry
   * under `selfId`) and whether its own entry changed since it last sent it.
   */
  class Client {
    const game: Game.PuzzleGame
    var started: bool
    var selfId: int
    var peers: map<int, Peer>
    var shouldSend: bool

    ghost predicate Valid()
      reads this, game, game.board, game.bvh, game.bvh.tree
    {
      game.Valid() && HeldOk(|game.board.pieces|, peers)
    }

    /** new Client(roomKey), for the game setup will hand it: only its own entry, under the id -1. */
    constructor (game: Game.PuzzleGame)
      requires game.Valid()
      ensures Valid() && this.game == game && !started && !shouldSend
      ensures selfId == -1 && peers == map[-1 := NewPeer]
    {
      this.game := game;
      started := false;
      selfId := -1;
      peers := map[-1 := NewPeer];
      shouldSend := false;
    }

    /** setup: from now on host messages are applied to the game. */
    method Setup()
      modifies this
      ensures started && selfId == old(selfId) && peers == old(peers) && shouldSend == old(shouldSend)
    {
      started := true;
    }

    /** onidchange: the peer manager reports a new id (peer.js calls it only on a change). */
    method OnIdChange(newId: int)
      requires selfId in peers && newId != selfId
      modifies this
      ensures peers == Renamed(old(peers), old(selfId), newId) && selfId == newId
      ensures started == old(started) && shouldSend == old(shouldSend)
    {
      peers := peers[newId := peers[selfId]];
      peers := peers - {selfId};
      selfId := newId;
    }

    /**
     * handleMessage. Before setup nothing happens. After it, the client's
     * table becomes the host's table (its own entry included: the checks
     * that were to skip it compare a text key with a number and never
     * match), and the game gets the calls of the three loops, the host's
     * entries taken in order `seen` and the vanished peers in order `gone`.
     */
    method HandleMessage(msg: HostMessage) returns (ghost seen: seq<int>, ghost gone: seq<int>, ghost trace: seq<Snapshot>)
      requires Valid() && HostMessageOk(|game.board.pieces|, msg) && (started ==> selfId in peers)
      modifies this, game.board, game.bvh, game.bvh.tree
      ensures Valid() && started == old(started) && selfId == old(selfId) && shouldSend == old(shouldSend)
      ensures !started ==>
        peers == old(peers) && trace == [(game.board.State(), game.bvh.boxes)] &&
        game.board.State() == old(game.board.State()) && game.bvh.boxes == old(game.bvh.boxes)
      ensures started ==> peers == msg.peers
      ensures started ==> Lists(seen, msg.peers.Keys) && Lists(gone, old(peers).Keys - msg.peers.Keys)
      ensures started ==>
        Traced(trace, ClientCalls(old(peers), msg, HeldPiece(old(peers[selfId])), seen, gone), game.edgeCount) &&
        trace[0] == (old(game.board.State()), old(game.bvh.boxes)) &&
        trace[|trace| - 1] == (game.board.State(), game.bvh.boxes)
    {
      if !started {
        seen, gone, trace := [], [], [(game.board.State(), game.bvh.boxes)];
        return;
      }
      var myPieceId := HeldPiece(peers[selfId]);
      var calls, table;
      calls, table, seen, gone := Reconcile(peers, msg, myPieceId);
      ClientCallsOk(|game.board.pieces|, peers, msg, myPieceId, seen, gone);
      trace := PerformAll(game, calls);
      peers := table;
    }

    /** handlePointer: the cursor moves, and a dragged piece is reported as held. */
    method HandlePointer(x: real, y: real, piece: Option<int>)
      requires Valid() && selfId in peers && (piece.Some? ==> 0 <= piece.value < |game.board.pieces|)
      modifies this
      ensures Valid() && shouldSend && selfId == old(selfId) && started == old(started)
      ensures var me := old(peers[selfId]).(x := x, y := y);
        peers == old(peers)[selfId := if piece.Some? then me.(piece := Some(Report(game.board.pieces[piece.value]))) else me]
    {
      peers := peers[selfId := peers[selfId].(x := x, y := y)];
      shouldSend := true;
      if piece.Some? {
        assert PieceOk(game.board.State(), piece.value);
        peers := peers[selfId := peers[selfId].(piece := Some(Report(game.board.pieces[piece.value])))];
      }
    }

    /** handleGrab: the piece is recorded as held, and the grab is sent. */
    method HandleGrab(id: int) returns (sent: ClientMessage)
      requires Valid() && selfId in peers && 0 <= id < |game.board.pieces|
      modifies this
      ensures Valid() && selfId == old(selfId) && started == old(started) && shouldSend == old(shouldSend)
      ensures var grab := Report(game.board.pieces[id]);
        peers == old(peers)[selfId := old(peers[selfId]).(piece := Some(grab))] &&
        sent == ClientMessage(None, None, None, Some(grab), None)
    {
      assert PieceOk(game.board.State(), id);
      var grab := Report(game.board.pieces[id]);
      peers := peers[selfId := peers[selfId].(piece := Some(grab))];
      sent := ClientMessage(None, None, None, Some(grab), None);
    }

    /** handleDrop: the held piece is cleared, and the drop is sent. */
    method HandleDrop(id: int) returns (sent: ClientMessage)
      requires Valid() && selfId in peers && 0 <= id < |game.board.pieces|
      modifies this
      ensures Valid() && selfId == old(selfId) && started == old(started) && shouldSend == old(shouldSend)
      ensures peers == old(peers)[selfId := old(peers[selfId]).(piece := None)]
      ensures sent == ClientMessage(None, None, None, None, Some(Report(game.board.pieces[id])))
    {
      var drop := Report(game.board.pieces[id]);
      peers := peers[selfId := peers[selfId].(piece := None)];
      sent := ClientMessage(None, None, None, None, Some(drop));
    }

    /** sendUpdate: the client's own entry, when it changed since the last send. */
    method SendUpdate() returns (sent: Option<ClientMessage>)
      requires selfId in peers
      modifies this
      ensures !shouldSend && peers == old(peers) && selfId == old(selfId) && started == old(started)
      ensures old(shouldSend) ==> sent == Some(Entry(peers[selfId]))
      ensures !old(shouldSend) ==> sent.None?
    {
      sent := None;
      if shouldSend {
        sent := Some(Entry(peers[selfId]));
        shouldSend := false;
      }
    }
  }

  /** An entry as a client sends it: its cursor and the piece it holds. */
  function Entry(me: Peer): (msg: ClientMessage)
    ensures msg.x == Some(me.x) && msg.y == Some(me.y) && msg.piece == me.piece
    ensures msg.grab.None? && msg.drop.None?
  {
    ClientMessage(Some(me.x), Some(me.y), me.piece, None, None)
  }

  /**
   * The host takes in what a client sends about itself: the entry the host
   * keeps for the client shows the client's cursor and the piece it holds;
   * an entry without a piece leaves the host's record of one in place, as
   * only a drop clears it.
   */
  lemma EntryReceived(p: Peer, me: Peer)
    ensures Received(p, Entry(me)) == me.(piece := if me.piece.Some? then me.piece else p.piece)
  {
  }
}
