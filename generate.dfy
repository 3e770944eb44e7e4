/**
 * Cut-line generation (src/logic/puzzle/generate.js).
 *
 * An edge is four cubic Bezier curves in a unit frame running from (0, 0)
 * to (1, 0); a line is the sequence of edges along one cut of the board.
 * The random draws the source takes from `Math.random` are parameters here:
 * every draw is a unit value `u` in [0, 1), mapped to a range exactly as
 * `randFloat` does.
 */
module Generate {

  datatype Vec = Vec(x: real, y: real)

  /** A Bezier segment: two control points and the end point. */
  datatype Curve = Curve(c0: Vec, c1: Vec, to: Vec)

  type Edge = seq<Curve>
  type Line = seq<Edge>

  /** The unit draws one call of `makeEdge` consumes, in the order it makes them. */
  datatype Draws = Draws(
    nubHeight: real, nubWidth: real, nubOffsetY: real, nubInset1: real,
    nubInset2: real, nubChance: real, p1x: real, endControlY: real)

  /** The draws of one `makeLine`: the first control point, then one `Draws` per edge. */
  datatype LineDraws = LineDraws(start: real, edges: seq<Draws>)

  predicate Unit(u: real) { 0.0 <= u < 1.0 }

  predicate UnitDraws(d: Draws) {
    Unit(d.nubHeight) && Unit(d.nubWidth) && Unit(d.nubOffsetY) && Unit(d.nubInset1) &&
    Unit(d.nubInset2) && Unit(d.nubChance) && Unit(d.p1x) && Unit(d.endControlY)
  }

  /** The number of iterations of `for (i = 0; i < n; i++)`. */
  function Count(n: int): (k: nat)
    ensures n >= 0 ==> k == n
    ensures n < 0 ==> k == 0
  {
    if n > 0 then n else 0
  }

  /** randFloat(min, max) with the underlying `Math.random()` value `u`. */
  function RandFloat(min: real, max: real, u: real): (r: real)
    ensures Unit(u) && min < max ==> min <= r < max
  {
    min + Scale(u, max - min)
  }

  /** `Math.random() * d`: below `d` because the draw is below 1. */
  function Scale(u: real, d: real): (r: real)
    ensures Unit(u) && d > 0.0 ==> 0.0 <= r < d
  {
    ScaleBelow(u, d);
    u * d
  }

  lemma ScaleBelow(u: real, d: real)
    ensures Unit(u) && d > 0.0 ==> 0.0 <= u * d < d
  {
    if Unit(u) && d > 0.0 {
      assert d - u * d == (1.0 - u) * d;
    }
  }

  /** randChance(.5) ? 1 : -1 */
  function NubDir(chance: real): (dir: real)
    ensures dir == 1.0 || dir == -1.0
  {
    if chance < 0.5 then 1.0 else -1.0
  }

  /**
   * makeEdge: the straight run to p1, the two halves of the nub through its
   * tip p2, and the run from p3 to (1, 0). The first control point mirrors
   * the previous edge's last one.
   */
  function MakeEdge(prevControl: Vec, d: Draws): (e: Edge)
    ensures |e| == 4 && e[3].to == Vec(1.0, 0.0)
    ensures e[0].to.y == 0.0 && e[2].to.y == 0.0
    ensures e[1].to.x - e[0].to.x == e[2].to.x - e[1].to.x
    ensures e[0].c0 == Vec(0.2, -prevControl.y) && e[3].c1.x == 0.8
    ensures forall i :: 0 <= i < 3 ==> e[i].to == EndOf(e[..i + 1])
  {
    var nubHeight := RandFloat(0.15, 0.25, d.nubHeight);
    var nubWidth := RandFloat(0.15, 0.22, d.nubWidth);
    var nubOffsetY := RandFloat(-0.05, 0.05, d.nubOffsetY);
    var nubInset1 := RandFloat(0.08, 0.12, d.nubInset1);
    var nubInset2 := RandFloat(0.08, 0.12, d.nubInset2);
    var nubDir := NubDir(d.nubChance);
    var p1MinX := 0.3;
    var p1MaxX := 1.0 - (0.3 + nubWidth);
    var p1 := Vec(RandFloat(p1MinX, p1MaxX, d.p1x), 0.0);
    var p2 := Vec(p1.x + nubWidth / 2.0, nubHeight * nubDir);
    var p3 := Vec(p1.x + nubWidth, 0.0);
    [ Curve(Vec(0.2, -prevControl.y), Vec(p1.x, nubInset1 * -nubDir), p1),
      Curve(Vec(p1.x, nubInset1 * nubDir), Vec(p1.x - 0.1, p2.y - nubOffsetY), p2),
      Curve(Vec(p3.x + 0.1, p2.y + nubOffsetY), Vec(p3.x, nubInset2 * nubDir), p3),
      Curve(Vec(p3.x, nubInset2 * -nubDir), Vec(0.8, RandFloat(-0.1, 0.1, d.endControlY)), Vec(1.0, 0.0)) ]
  }

  /** The end point of a non-empty run of curves. */
  function EndOf(e: Edge): Vec
    requires |e| > 0
  {
    e[|e| - 1].to
  }

  /**
   * With draws in range the nub sits strictly inside the middle of the edge:
   * 0.3 <= p1 < p3 < 0.7, and its tip is between 0.15 and 0.25 off the line.
   */
  lemma NubInsideEdge(prevControl: Vec, d: Draws)
    requires UnitDraws(d)
    ensures var e := MakeEdge(prevControl, d);
      0.3 <= e[0].to.x < e[1].to.x < e[2].to.x < 0.7 &&
      0.15 <= (if e[1].to.y < 0.0 then -e[1].to.y else e[1].to.y) < 0.25
  {
    var e := MakeEdge(prevControl, d);
    var nubWidth := RandFloat(0.15, 0.22, d.nubWidth);
    var nubHeight := RandFloat(0.15, 0.25, d.nubHeight);
    assert 0.15 <= nubWidth < 0.22;
    assert 0.15 <= nubHeight < 0.25;
    var p1x := RandFloat(0.3, 1.0 - (0.3 + nubWidth), d.p1x);
    assert 0.3 <= p1x < 1.0 - (0.3 + nubWidth);
    assert e[0].to.x == p1x && e[2].to.x == p1x + nubWidth;
    assert e[1].to.y == nubHeight * NubDir(d.nubChance);
  }

  /**
   * The edges of `makeLine`, with the control point carried from one edge
   * into the next (the specification of `MakeLine`).
   */
  function LineFrom(prevControl: Vec, draws: seq<Draws>): (l: Line)
    decreases |draws|
    ensures |l| == |draws|
    ensures forall i :: 0 <= i < |l| ==> |l[i]| == 4 && l[i][3].to == Vec(1.0, 0.0)
  {
    if |draws| == 0 then []
    else
      var e := MakeEdge(prevControl, draws[0]);
      [e] + LineFrom(e[3].c1, draws[1..])
  }

  /** The line `makeLine` draws: its first control point is (0.8, randFloat(-.1, .1)). */
  function HorizontalLine(ld: LineDraws): Line {
    LineFrom(Vec(0.8, RandFloat(-0.1, 0.1, ld.start)), ld.edges)
  }

  /**
   * Consecutive edges join smoothly: the first control point of each edge is
   * the mirror image, through the shared end point, of the previous edge's
   * last control point.
   */
  predicate SmoothJoin(prev: Edge, next: Edge)
    requires |prev| == 4 && |next| > 0
  {
    next[0].c0.x - 0.0 == -(prev[3].c1.x - 1.0) && next[0].c0.y - 0.0 == -(prev[3].c1.y - 0.0)
  }

  /** Edge i of `l` joins smoothly onto edge i - 1. */
  predicate SmoothAt(l: Line, i: int) {
    1 <= i < |l| && |l[i - 1]| == 4 && |l[i]| > 0 && SmoothJoin(l[i - 1], l[i])
  }

  predicate Smooth(l: Line) {
    forall i :: 1 <= i < |l| ==> SmoothAt(l, i)
  }

  lemma {:induction false} LineSmooth(prevControl: Vec, draws: seq<Draws>)
    decreases |draws|
    ensures Smooth(LineFrom(prevControl, draws))
  {
    if |draws| > 1 {
      var e := MakeEdge(prevControl, draws[0]);
      LineSmooth(e[3].c1, draws[1..]);
      var l := LineFrom(prevControl, draws);
      var rest := LineFrom(e[3].c1, draws[1..]);
      assert l == [e] + rest;
      assert SmoothAt(l, 1);
      forall i | 2 <= i < |l|
        ensures SmoothAt(l, i)
      {
        assert SmoothAt(rest, i - 1);
        assert l[i - 1] == rest[i - 2] && l[i] == rest[i - 1];
      }
    }
  }

  lemma LineFromStep(prevControl: Vec, draws: seq<Draws>, i: nat)
    requires i < |draws|
    ensures var e := MakeEdge(prevControl, draws[i]);
      LineFrom(prevControl, draws[i..]) == [e] + LineFrom(e[3].c1, draws[i + 1..])
  {
    assert draws[i..][1..] == draws[i + 1..];
  }

  /** makeLine(length): `length` edges, chaining `prevControl` from edge[3].c1. */
  method MakeLine(length: int, ld: LineDraws) returns (edges: Line)
    requires |ld.edges| == Count(length)
    ensures edges == HorizontalLine(ld)
  {
    edges := [];
    var prevControl := Vec(0.8, RandFloat(-0.1, 0.1, ld.start));
    var i := 0;
    while i < length
      invariant 0 <= i <= Count(length)
      invariant edges + LineFrom(prevControl, ld.edges[i..]) == HorizontalLine(ld)
    {
      var edge := MakeEdge(prevControl, ld.edges[i]);
      LineFromStep(prevControl, ld.edges, i);
      edges := edges + [edge];
      prevControl := edge[3].c1;
      i := i + 1;
    }
    assert ld.edges[i..] == [];
  }

  /** The x/y transpose of `makeVerticalLine`. */
  function SwapVec(v: Vec): (s: Vec)
    ensures s.x == v.y && s.y == v.x
  {
    Vec(v.y, v.x)
  }

  function SwapCurve(c: Curve): Curve {
    Curve(SwapVec(c.c0), SwapVec(c.c1), SwapVec(c.to))
  }

  function SwapEdge(e: Edge): Edge {
    seq(|e|, k requires 0 <= k < |e| => SwapCurve(e[k]))
  }

  function SwapLine(l: Line): Line {
    seq(|l|, i requires 0 <= i < |l| => SwapEdge(l[i]))
  }

  /** The transpose keeps the edge and curve counts and is its own inverse. */
  lemma SwapLineInvolution(l: Line)
    ensures |SwapLine(l)| == |l|
    ensures forall i :: 0 <= i < |l| ==> |SwapLine(l)[i]| == |l[i]|
    ensures SwapLine(SwapLine(l)) == l
  {
    forall i | 0 <= i < |l|
      ensures SwapEdge(SwapEdge(l[i])) == l[i]
    {
    }
  }

  /** The line `makeVerticalLine` draws: a horizontal line, transposed. */
  function VerticalLine(ld: LineDraws): Line {
    SwapLine(HorizontalLine(ld))
  }

  /** makeVerticalLine(length): maps every curve of a fresh horizontal line through the transpose. */
  method MakeVerticalLine(length: int, ld: LineDraws) returns (vertical: Line)
    requires |ld.edges| == Count(length)
    ensures vertical == VerticalLine(ld)
  {
    var horizontal := MakeLine(length, ld);
    vertical := [];
    var i := 0;
    while i < |horizontal|
      invariant 0 <= i <= |horizontal|
      invariant vertical == SwapLine(horizontal[..i])
    {
      var edge := horizontal[i];
      var mapped := [];
      var k := 0;
      while k < |edge|
        invariant 0 <= k <= |edge|
        invariant mapped == SwapEdge(edge[..k])
      {
        var curve := edge[k];
        mapped := mapped + [Curve(Vec(curve.c0.y, curve.c0.x), Vec(curve.c1.y, curve.c1.x), Vec(curve.to.y, curve.to.x))];
        k := k + 1;
      }
      assert edge[..k] == edge;
      vertical := vertical + [mapped];
      i := i + 1;
    }
    assert horizontal[..i] == horizontal;
  }

  /** The result of `makeLines`. */
  datatype Lines = Lines(horizontal: seq<Line>, vertical: seq<Line>)

  /**
   * The shape `makeLines(width, height)` produces: height-1 horizontal lines of
   * `width` edges and width-1 vertical lines of `height` edges, every edge four
   * curves long.
   */
  predicate Shaped(lines: Lines, width: int, height: int) {
    |lines.horizontal| == Count(height - 1) && |lines.vertical| == Count(width - 1) &&
    (forall i :: 0 <= i < |lines.horizontal| ==> |lines.horizontal[i]| == Count(width)) &&
    (forall i :: 0 <= i < |lines.vertical| ==> |lines.vertical[i]| == Count(height)) &&
    (forall i, j :: 0 <= i < |lines.horizontal| && 0 <= j < |lines.horizontal[i]| ==>
       |lines.horizontal[i][j]| == 4) &&
    (forall i, j :: 0 <= i < |lines.vertical| && 0 <= j < |lines.vertical[i]| ==>
       |lines.vertical[i][j]| == 4)
  }

  /** The draws `makeLines(width, height)` consumes, line by line. */
  predicate LinesDraws(width: int, height: int, hDraws: seq<LineDraws>, vDraws: seq<LineDraws>) {
    |hDraws| == Count(height - 1) && (forall i :: 0 <= i < |hDraws| ==> |hDraws[i].edges| == Count(width)) &&
    |vDraws| == Count(width - 1) && (forall i :: 0 <= i < |vDraws| ==> |vDraws[i].edges| == Count(height))
  }

  /** makeLines: every horizontal line from `makeLine(width)`, every vertical one from `makeVerticalLine(height)`. */
  method MakeLines(width: int, height: int, hDraws: seq<LineDraws>, vDraws: seq<LineDraws>) returns (lines: Lines)
    requires LinesDraws(width, height, hDraws, vDraws)
    ensures Shaped(lines, width, height)
    ensures forall i :: 0 <= i < |hDraws| ==> lines.horizontal[i] == HorizontalLine(hDraws[i])
    ensures forall i :: 0 <= i < |vDraws| ==> lines.vertical[i] == VerticalLine(vDraws[i])
  {
    var horizontal := [];
    var vertical := [];
    var i := 0;
    while i < height - 1
      invariant 0 <= i <= Count(height - 1)
      invariant |horizontal| == i
      invariant forall k :: 0 <= k < i ==> horizontal[k] == HorizontalLine(hDraws[k])
    {
      var line := MakeLine(width, hDraws[i]);
      horizontal := horizontal + [line];
      i := i + 1;
    }
    i := 0;
    while i < width - 1
      invariant 0 <= i <= Count(width - 1)
      invariant |vertical| == i
      invariant forall k :: 0 <= k < i ==> vertical[k] == VerticalLine(vDraws[k])
    {
      var line := MakeVerticalLine(height, vDraws[i]);
      vertical := vertical + [line];
      i := i + 1;
    }
    lines := Lines(horizontal, vertical);
    forall k | 0 <= k < |vertical|
      ensures |vertical[k]| == Count(height)
      ensures forall j :: 0 <= j < |vertical[k]| ==> |vertical[k][j]| == 4
    {
      SwapLineInvolution(HorizontalLine(vDraws[k]));
    }
  }

  /** `.reverse()` on an array. */
  function Reversed<T>(s: seq<T>): (r: seq<T>)
    ensures |r| == |s|
  {
    seq(|s|, i requires 0 <= i < |s| => s[|s| - 1 - i])
  }

  /**
   * reverseEdge(edge, fx, fy): swap each curve's control points, let each
   * curve end where its predecessor ended (the first at `f`), and reverse the
   * order of the curves. The `map` and the `reverse` are taken together here:
   * curve k of the result comes from curve |e|-1-k of the edge.
   */
  function ReverseEdge(e: Edge, f: Vec): (r: Edge)
    ensures |r| == |e|
    ensures forall k :: 0 <= k < |e| ==> r[k].c0 == e[|e| - 1 - k].c1 && r[k].c1 == e[|e| - 1 - k].c0
    ensures |e| > 0 ==> r[|e| - 1].to == f
  {
    seq(|e|, k requires 0 <= k < |e| => ReversedCurve(e, f, k))
  }

  /**
   * Curve k of the reversed edge: curve |e|-1-k with its control points
   * swapped, ending where curve |e|-2-k ended, or at `f` for the last one.
   */
  function ReversedCurve(e: Edge, f: Vec, k: int): Curve
    requires 0 <= k < |e|
  {
    var i := |e| - 1 - k;
    Curve(e[i].c1, e[i].c0, if i == 0 then f else e[i - 1].to)
  }

  /** Reversing twice, the second time towards the original end point, gives the edge back. */
  lemma ReverseEdgeInvolution(e: Edge, f: Vec)
    requires |e| > 0
    ensures ReverseEdge(ReverseEdge(e, f), EndOf(e)) == e
  {
    var r := ReverseEdge(e, f);
    var rr := ReverseEdge(r, EndOf(e));
    forall k | 0 <= k < |e|
      ensures rr[k] == e[k]
    {
      ReverseEdgeTwiceAt(e, f, k);
    }
  }

  lemma ReverseEdgeTwiceAt(e: Edge, f: Vec, k: int)
    requires 0 <= k < |e|
    ensures ReverseEdge(ReverseEdge(e, f), EndOf(e))[k] == e[k]
  {
    var r := ReverseEdge(e, f);
    var j := |e| - 1 - k;
    var c := ReversedCurve(r, EndOf(e), k);
    assert ReverseEdge(r, EndOf(e))[k] == c;
    assert r[j] == ReversedCurve(e, f, j);
    assert c.c0 == e[k].c0 && c.c1 == e[k].c1;
    if j > 0 {
      assert r[j - 1] == ReversedCurve(e, f, j - 1);
      assert c.to == e[k].to;
    }
  }

  /** The points an edge passes through, starting from `start`. */
  function Path(e: Edge, start: Vec): (p: seq<Vec>)
    ensures |p| == |e| + 1 && p[0] == start
    ensures forall i :: 0 < i < |p| ==> p[i] == e[i - 1].to
  {
    [start] + seq(|e|, i requires 0 <= i < |e| => e[i].to)
  }

  /**
   * Drawn from the original end point, the reversed edge passes through the
   * same points in the opposite order and finishes at `f`.
   */
  lemma ReverseEdgePath(e: Edge, f: Vec)
    requires |e| > 0
    ensures Path(ReverseEdge(e, f), EndOf(e)) == Reversed(Path(e, f))
  {
    var r := ReverseEdge(e, f);
    var p := Path(r, EndOf(e));
    var q := Reversed(Path(e, f));
    forall k | 0 <= k < |p|
      ensures p[k] == q[k]
    {
      assert q[k] == Path(e, f)[|e| - k];
      if k > 0 {
        assert r[k - 1] == ReversedCurve(e, f, k - 1);
      }
    }
  }
}
