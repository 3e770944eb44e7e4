/**
 * The puzzle description (src/logic/puzzle/puzzle.js): the grid size, the
 * piece size in image pixels, the cut lines, the save format, and which cut
 * each side of a piece follows when the piece is drawn.
 */
module Puzzles {
  import Generate

  /** The only facts about the image the puzzle keeps: its size in pixels. */
  datatype Image = Image(width: real, height: real)

  datatype Puzzle = Puzzle(
    image: Image, width: real, height: real,
    c: int, r: int, w: real, h: real,
    horizontal: seq<Generate.Line>, vertical: seq<Generate.Line>)

  /** What `toSaveFormat` keeps of a puzzle. */
  datatype Save = Save(c: int, r: int, horizontal: seq<Generate.Line>, vertical: seq<Generate.Line>)

  /** The image size is copied and the piece size is the image size divided by the grid size. */
  predicate Consistent(p: Puzzle) {
    p.c != 0 && p.r != 0 &&
    p.width == p.image.width && p.height == p.image.height &&
    p.w == p.image.width / (p.c as real) && p.h == p.image.height / (p.r as real)
  }

  /** The cut lines have the shape `makeLines(c, r)` gives them. */
  predicate Shaped(p: Puzzle) {
    Generate.Shaped(Generate.Lines(p.horizontal, p.vertical), p.c, p.r)
  }

  /**
   * new Puzzle(image, columns, rows): the grid is columns x rows and the cut
   * lines are drawn by `makeLines(columns, rows)`.
   */
  method NewPuzzle(image: Image, columns: int, rows: int,
                   hDraws: seq<Generate.LineDraws>, vDraws: seq<Generate.LineDraws>) returns (p: Puzzle)
    requires columns != 0 && rows != 0
    requires Generate.LinesDraws(columns, rows, hDraws, vDraws)
    ensures Consistent(p) && Shaped(p) && p.image == image
    ensures p.c == columns && p.r == rows
    ensures forall i :: 0 <= i < |hDraws| ==> p.horizontal[i] == Generate.HorizontalLine(hDraws[i])
    ensures forall i :: 0 <= i < |vDraws| ==> p.vertical[i] == Generate.VerticalLine(vDraws[i])
  {
    var lines := Generate.MakeLines(columns, rows, hDraws, vDraws);
    p := Puzzle(image, image.width, image.height, columns, rows,
                image.width / (columns as real), image.height / (rows as real),
                lines.horizontal, lines.vertical);
  }

  /** Puzzle.toSaveFormat: the grid size and the cut lines, nothing else. */
  function ToSaveFormat(p: Puzzle): (s: Save)
    ensures s.c == p.c && s.r == p.r && s.horizontal == p.horizontal && s.vertical == p.vertical
  {
    Save(p.c, p.r, p.horizontal, p.vertical)
  }

  /** Puzzle.fromSaveFormat: saving the rebuilt puzzle gives back the save. */
  function FromSaveFormat(image: Image, s: Save): (p: Puzzle)
    requires s.c != 0 && s.r != 0
    ensures Consistent(p) && p.image == image
    ensures ToSaveFormat(p) == s
  {
    Puzzle(image, image.width, image.height, s.c, s.r,
           image.width / (s.c as real), image.height / (s.r as real),
           s.horizontal, s.vertical)
  }

  /** A consistent puzzle is rebuilt from its save and its image. */
  lemma LoadSaved(p: Puzzle)
    requires Consistent(p)
    ensures FromSaveFormat(p.image, ToSaveFormat(p)) == p
  {
  }

  /** The `map` callback of puzzle.js's own reverseEdge, applied to every curve. */
  function MapSwapped(e: Generate.Edge, f: Generate.Vec): (m: Generate.Edge)
    ensures |m| == |e|
  {
    seq(|e|, i requires 0 <= i < |e| =>
      Generate.Curve(e[i].c1, e[i].c0, if i == 0 then f else e[i - 1].to))
  }

  /** puzzle.js's reverseEdge, written as its `map` followed by `reverse`. */
  function ReverseEdge(e: Generate.Edge, f: Generate.Vec): (r: Generate.Edge)
    ensures r == Generate.ReverseEdge(e, f)
  {
    ReverseEdgeAgrees(e, f);
    Generate.Reversed(MapSwapped(e, f))
  }

  lemma ReverseEdgeAgrees(e: Generate.Edge, f: Generate.Vec)
    ensures Generate.Reversed(MapSwapped(e, f)) == Generate.ReverseEdge(e, f)
  {
    var m := MapSwapped(e, f);
    var r := Generate.Reversed(m);
    var g := Generate.ReverseEdge(e, f);
    forall k | 0 <= k < |e|
      ensures r[k] == g[k]
    {
      assert r[k] == m[|e| - 1 - k];
    }
  }

  /** A side of a piece: the straight border of the board, or a cut. */
  datatype Side = Straight | Cut(edge: Generate.Edge)

  datatype Outline = Outline(top: Side, right: Side, bottom: Side, left: Side)

  const Origin := Generate.Vec(0.0, 0.0)

  /**
   * The edge selection of drawPiece(x, y). A side is straight exactly on the
   * border of the board; every cut it reads lies inside the cut lines.
   */
  function PieceOutline(p: Puzzle, x: int, y: int): (o: Outline)
    requires Shaped(p)
    requires 0 <= x < p.c && 0 <= y < p.r
    ensures o.top.Straight? <==> y == 0
    ensures o.right.Straight? <==> x == p.c - 1
    ensures o.bottom.Straight? <==> y == p.r - 1
    ensures o.left.Straight? <==> x == 0
    ensures o.top.Cut? ==> o.top.edge == p.horizontal[y - 1][x]
    ensures o.right.Cut? ==> o.right.edge == p.vertical[x][y]
    ensures o.bottom.Cut? ==> |o.bottom.edge| == 4 && o.bottom.edge == Generate.ReverseEdge(p.horizontal[y][x], Origin)
    ensures o.left.Cut? ==> |o.left.edge| == 4 && o.left.edge == Generate.ReverseEdge(p.vertical[x - 1][y], Origin)
  {
    Outline(
      if y == 0 then Straight else Cut(p.horizontal[y - 1][x]),
      if x == p.c - 1 then Straight else Cut(p.vertical[x][y]),
      if y == p.r - 1 then Straight else Cut(ReverseEdge(p.horizontal[y][x], Origin)),
      if x == 0 then Straight else Cut(ReverseEdge(p.vertical[x - 1][y], Origin)))
  }

  /**
   * Pieces stacked vertically share their cut: the bottom side of (x, y),
   * drawn from the cut's end point, passes through the points of the top side
   * of (x, y + 1) in the opposite order.
   */
  lemma VerticalNeighboursShareCut(p: Puzzle, x: int, y: int)
    requires Shaped(p)
    requires 0 <= x < p.c && 0 <= y && y + 1 < p.r
    ensures PieceOutline(p, x, y).bottom.Cut? && PieceOutline(p, x, y + 1).top.Cut?
    ensures var top := PieceOutline(p, x, y + 1).top.edge;
      Generate.Path(PieceOutline(p, x, y).bottom.edge, Generate.EndOf(top)) ==
      Generate.Reversed(Generate.Path(top, Origin))
  {
    Generate.ReverseEdgePath(p.horizontal[y][x], Origin);
  }

  /**
   * Pieces side by side share their cut: the left side of (x + 1, y) retraces
   * the right side of (x, y) backwards.
   */
  lemma HorizontalNeighboursShareCut(p: Puzzle, x: int, y: int)
    requires Shaped(p)
    requires 0 <= x && x + 1 < p.c && 0 <= y < p.r
    ensures PieceOutline(p, x, y).right.Cut? && PieceOutline(p, x + 1, y).left.Cut?
    ensures var right := PieceOutline(p, x, y).right.edge;
      Generate.Path(PieceOutline(p, x + 1, y).left.edge, Generate.EndOf(right)) ==
      Generate.Reversed(Generate.Path(right, Origin))
  {
    Generate.ReverseEdgePath(p.vertical[x][y], Origin);
  }
}
