/**
 * The `BVH` wrapper of src/logic/framework/bvh.js (lines 264-290): an AABB
 * tree whose leaves carry piece ids, and the map `pieceToNode` from a piece
 * id to its leaf. The piece's own fields (id, x, y, w, h) are passed in.
 */
module Bvh {
  import opened Aabb
  import opened AabbTree

  /**
   * The box BVH.insert files a piece under: centred on the piece and half as
   * wide and high again as the piece, so the nubs fit inside.
   */
  function PieceBox(x: real, y: real, w: real, h: real): (b: AABB)
    ensures b.max.x - b.min.x == w * 1.5 && b.max.y - b.min.y == h * 1.5
    ensures (b.min.x + b.max.x) / 2.0 == x && (b.min.y + b.max.y) / 2.0 == y
    ensures w >= 0.0 && h >= 0.0 ==> Proper(b)
  {
    var hw := w * 1.5 / 2.0;
    var hh := h * 1.5 / 2.0;
    AABB(Point(x - hw, y - hh), Point(x + hw, y + hh))
  }

  /** The pieces whose boxes meet `q`. */
  ghost function Overlapping(boxes: map<int, AABB>, q: AABB): set<int> {
    set id | id in boxes && Test(boxes[id], q)
  }

  /**
   * `p2n` pairs piece ids one to one with `leaves`, and `pieces` (the payload
   * of each leaf) is its inverse.
   */
  ghost predicate Paired(p2n: map<int, int>, leaves: set<int>, pieces: map<int, int>) {
    pieces.Keys == leaves &&
    (forall id | id in p2n :: p2n[id] in leaves && pieces[p2n[id]] == id) &&
    (forall l | l in leaves :: pieces[l] in p2n && p2n[pieces[l]] == l)
  }

  /** The box of each paired piece: the box of its leaf. */
  ghost function PieceBoxes(p2n: map<int, int>, boxes: map<int, AABB>): (m: map<int, AABB>)
    requires forall id | id in p2n :: p2n[id] in boxes
    ensures m.Keys == p2n.Keys
  {
    map id | id in p2n :: boxes[p2n[id]]
  }

  lemma PairedAdd(p2n: map<int, int>, leaves: set<int>, pieces: map<int, int>, boxes: map<int, AABB>,
                  id: int, node: int, box: AABB)
    requires Paired(p2n, leaves, pieces) && boxes.Keys == leaves
    requires id !in p2n && node !in leaves
    ensures forall j | j in p2n :: p2n[j] != node
    ensures Paired(p2n[id := node], leaves + {node}, pieces[node := id])
    ensures PieceBoxes(p2n[id := node], boxes[node := box]) == PieceBoxes(p2n, boxes)[id := box]
  {
    var p2, l2, pc2 := p2n[id := node], leaves + {node}, pieces[node := id];
    forall j | j in p2
      ensures p2[j] in l2 && pc2[p2[j]] == j
    {
      if j != id {
        assert p2n[j] in leaves;
      }
    }
    forall l | l in l2
      ensures pc2[l] in p2 && p2[pc2[l]] == l
    {
      if l != node {
        assert pieces[l] in p2n;
      }
    }
  }

  /** The leaves a query reports, read as the pieces they carry. */
  lemma HitPieces(p2n: map<int, int>, leaves: set<int>, pieces: map<int, int>, boxes: map<int, AABB>,
                  hitset: set<int>, q: AABB, self: int, hits: seq<int>)
    requires Paired(p2n, leaves, pieces) && boxes.Keys == leaves
    requires forall l :: l in hitset <==> l in leaves && l != self && Test(boxes[l], q)
    requires forall j :: j in hits <==> j in p2n && p2n[j] in hitset
    ensures forall j :: j in hits <==> j in p2n && p2n[j] != self && Test(PieceBoxes(p2n, boxes)[j], q)
  {
  }

  /**
   * After filing `id` under `node` with box `q`, a query for `q` that skips
   * `node` reports exactly the pieces indexed before whose boxes meet `q`.
   */
  lemma SkipSelf(ob: map<int, AABB>, nb: map<int, AABB>, op2n: map<int, int>, np2n: map<int, int>,
                 id: int, node: int, q: AABB, hits: seq<int>)
    requires ob.Keys == op2n.Keys && id !in op2n
    requires nb == ob[id := q] && np2n == op2n[id := node]
    requires forall j | j in op2n :: op2n[j] != node
    requires forall j :: j in hits <==> j in nb && np2n[j] != node && Test(nb[j], q)
    ensures (set j | j in hits) == Overlapping(ob, q) && id !in hits
  {
    forall j
      ensures j in hits <==> j in Overlapping(ob, q)
    {
      if j in ob {
        assert nb[j] == ob[j] && np2n[j] == op2n[j];
      }
    }
  }

  lemma UpdateTwice(m: map<int, int>, k: int, a: int, b: int)
    ensures m[k := a][k := b] == m[k := b]
  {
  }

  lemma PairedRemove(p2n: map<int, int>, leaves: set<int>, pieces: map<int, int>, boxes: map<int, AABB>, id: int)
    requires Paired(p2n, leaves, pieces) && boxes.Keys == leaves && id in p2n
    ensures Paired(p2n - {id}, leaves - {p2n[id]}, pieces - {p2n[id]})
    ensures PieceBoxes(p2n - {id}, boxes - {p2n[id]}) == PieceBoxes(p2n, boxes) - {id}
  {
    var node := p2n[id];
    var p2, l2, pc2 := p2n - {id}, leaves - {node}, pieces - {node};
    forall j | j in p2
      ensures p2[j] in l2 && pc2[p2[j]] == j
    {
      assert p2n[j] in leaves && pieces[p2n[j]] == j;
    }
    forall l | l in l2
      ensures pc2[l] in p2 && p2[pc2[l]] == l
    {
      assert pieces[l] in p2n && p2n[pieces[l]] == l;
    }
  }

  class BVH {
    const tree: Tree
    var pieceToNode: map<int, int>
    /** The box each indexed piece is filed under. */
    ghost var boxes: map<int, AABB>

    /**
     * `pieceToNode` pairs the indexed piece ids one to one with the leaves of
     * the tree, and `boxes` holds the box of each one's leaf.
     */
    ghost predicate Valid()
      reads this, tree
    {
      tree.Valid() && tree.Boxes().Keys == tree.Leaves() &&
      Paired(pieceToNode, tree.Leaves(), tree.Pieces()) &&
      boxes == PieceBoxes(pieceToNode, tree.Boxes())
    }

    constructor ()
      ensures Valid() && boxes == map[] && fresh(tree)
    {
      var t := new Tree();
      LeafMaps(t.nodes, t.Live);
      tree := t;
      pieceToNode := map[];
      boxes := map[];
    }

    /**
     * BVH.insert: file piece `id` under its box and report the pieces already
     * indexed whose boxes meet it. The piece itself is never among them: the
     * query skips the leaf whose box is the very box just inserted.
     */
    method Insert(id: int, x: real, y: real, w: real, h: real) returns (hits: seq<int>)
      requires Valid() && id !in boxes
      modifies this, tree
      ensures Valid()
      ensures boxes == old(boxes)[id := PieceBox(x, y, w, h)]
      ensures (set j | j in hits) == Overlapping(old(boxes), PieceBox(x, y, w, h))
      ensures id !in hits && NoDuplicates(hits)
    {
      ghost var ob, op2n := boxes, pieceToNode;
      var aabb := PieceBox(x, y, w, h);
      var node := File(id, aabb);
      hits := QueryLeaves(aabb, node);
      SkipSelf(ob, boxes, op2n, pieceToNode, id, node, aabb, hits);
    }

    /** The first half of BVH.insert: a new leaf holding the box, tagged with the piece. */
    method File(id: int, aabb: AABB) returns (node: int)
      requires Valid() && id !in boxes
      modifies this, tree
      ensures Valid()
      ensures boxes == old(boxes)[id := aabb]
      ensures pieceToNode == old(pieceToNode)[id := node] && node in tree.Leaves()
      ensures forall j | j in old(pieceToNode) :: old(pieceToNode)[j] != node
    {
      ghost var p2n, leaves, pieces, tb := pieceToNode, tree.Leaves(), tree.Pieces(), tree.Boxes();
      node := tree.Insert(aabb);
      ghost var pieces1 := tree.Pieces();
      tree.SetPiece(node, id);
      UpdateTwice(pieces, node, NIL, id);
      pieceToNode := pieceToNode[id := node];
      boxes := boxes[id := aabb];
      PairedAdd(p2n, leaves, pieces, tb, id, node, aabb);
    }

    /**
     * BVH.query (bvh.js:285-289) as the tree runs it: the pieces of the
     * leaves whose boxes meet `q`, skipping the leaf `self` whose box is the
     * query box itself (NIL when there is none).
     */
    method QueryLeaves(q: AABB, self: int) returns (hits: seq<int>)
      requires Valid() && (self == NIL || self in tree.Leaves())
      ensures NoDuplicates(hits)
      ensures forall j :: j in hits <==> j in boxes && pieceToNode[j] != self && Test(boxes[j], q)
    {
      var leaves := tree.Query(q, self);
      ghost var hitset := set l | l in leaves;
      HitsAreLeaves(tree.nodes, tree.Live, q, self);
      forall k | 0 <= k < |leaves|
        ensures leaves[k] in tree.Leaves()
      {
        assert leaves[k] in hitset;
      }
      hits := PiecesOf(leaves);
      HitPieces(pieceToNode, tree.Leaves(), tree.Pieces(), tree.Boxes(), hitset, q, self, hits);
    }

    /**
     * The callback of BVH.query: the piece of every leaf reported, in the order
     * reported. Distinct leaves carry distinct pieces.
     */
    method PiecesOf(leaves: seq<int>) returns (pieces: seq<int>)
      requires Valid() && NoDuplicates(leaves)
      requires forall k | 0 <= k < |leaves| :: leaves[k] in tree.Leaves()
      ensures |pieces| == |leaves| && NoDuplicates(pieces)
      ensures forall j :: j in pieces <==> j in pieceToNode && pieceToNode[j] in leaves
    {
      LeafMaps(tree.nodes, tree.Live);
      pieces := [];
      for k := 0 to |leaves|
        invariant |pieces| == k && NoDuplicates(pieces)
        invariant forall i | 0 <= i < k :: pieces[i] == tree.Pieces()[leaves[i]]
        invariant forall j :: j in pieces <==> j in pieceToNode && pieceToNode[j] in leaves[..k]
      {
        var contact := tree.nodes[leaves[k]].piece;
        assert contact == tree.Pieces()[leaves[k]];
        assert contact !in pieces by {
          forall i | 0 <= i < k
            ensures pieces[i] != contact
          {
            assert pieceToNode[pieces[i]] == leaves[i];
          }
        }
        assert leaves[..k + 1] == leaves[..k] + [leaves[k]];
        AppendFresh(pieces, contact);
        pieces := pieces + [contact];
      }
      assert leaves[..|leaves|] == leaves;
    }

    /** BVH.remove: take the piece's leaf out of the tree and forget the piece. */
    method Remove(id: int)
      requires Valid() && id in boxes
      modifies this, tree
      ensures Valid()
      ensures boxes == old(boxes) - {id}
    {
      ghost var p2n, leaves, pieces, tb := pieceToNode, tree.Leaves(), tree.Pieces(), tree.Boxes();
      var node := pieceToNode[id];
      tree.Remove(node);
      pieceToNode := pieceToNode - {id};
      boxes := boxes - {id};
      PairedRemove(p2n, leaves, pieces, tb, id);
    }

    /** BVH.query on a box that is not in the tree: every indexed piece whose box meets it. */
    method Query(q: AABB) returns (hits: seq<int>)
      requires Valid()
      ensures (set j | j in hits) == Overlapping(boxes, q)
      ensures NoDuplicates(hits)
    {
      hits := QueryLeaves(q, NIL);
      forall j | j in pieceToNode
        ensures pieceToNode[j] != NIL
      {
        assert pieceToNode[j] in tree.Leaves();
      }
      assert forall j :: j in hits <==> j in Overlapping(boxes, q);
    }
  }
}
