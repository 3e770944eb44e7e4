/**
 * Axis-aligned bounding boxes (the `AABB` class of src/logic/framework/bvh.js).
 * Coordinates are reals: the tree only ever compares, adds, subtracts and takes
 * minima and maxima of them.
 */
module Aabb {

  datatype Point = Point(x: real, y: real)

  /** A box given by its lower-left corner `min` and upper-right corner `max`. */
  datatype AABB = AABB(min: Point, max: Point)

  function Min(a: real, b: real): real { if a <= b then a else b }
  function Max(a: real, b: real): real { if a <= b then b else a }

  /** The box invariant the tree expects of the boxes it is given. */
  predicate Proper(a: AABB) {
    a.min.x <= a.max.x && a.min.y <= a.max.y
  }

  predicate InBox(p: Point, a: AABB) {
    a.min.x <= p.x <= a.max.x && a.min.y <= p.y <= a.max.y
  }

  /** `outer` covers `inner` on both axes. */
  predicate Contains(outer: AABB, inner: AABB) {
    outer.min.x <= inner.min.x && inner.max.x <= outer.max.x &&
    outer.min.y <= inner.min.y && inner.max.y <= outer.max.y
  }

  /** AABB.test: the boxes are not separated along x and not separated along y. */
  predicate Test(a: AABB, b: AABB) {
    !(a.max.x < b.min.x || a.min.x > b.max.x || a.max.y < b.min.y || a.min.y > b.max.y)
  }

  /** The `perimeter` getter, the cost metric of the tree's insertion heuristic. */
  function Perimeter(a: AABB): (p: real)
    ensures Proper(a) ==> p >= 0.0
    ensures Proper(a) && p == 0.0 ==> a.min == a.max
  {
    (a.max.x - a.min.x + a.max.y - a.min.y) * 2.0
  }

  /** AABB.combine: the smallest box covering both arguments. */
  function Combine(a: AABB, b: AABB): (c: AABB)
    ensures Contains(c, a) && Contains(c, b)
    ensures forall d :: Contains(d, a) && Contains(d, b) ==> Contains(d, c)
  {
    AABB(Point(Min(a.min.x, b.min.x), Min(a.min.y, b.min.y)),
         Point(Max(a.max.x, b.max.x), Max(a.max.y, b.max.y)))
  }

  lemma CombineCommutes(a: AABB, b: AABB)
    ensures Combine(a, b) == Combine(b, a)
  {
  }

  lemma CombineProper(a: AABB, b: AABB)
    requires Proper(a) || Proper(b)
    ensures Proper(Combine(a, b))
  {
  }

  /** Containment is transitive: the fact behind "a box covers every leaf below it". */
  lemma ContainsTransitive(a: AABB, b: AABB, c: AABB)
    requires Contains(a, b) && Contains(b, c)
    ensures Contains(a, c)
  {
  }

  /** Touching edges count as overlap, and the test does not depend on argument order. */
  lemma TestSymmetric(a: AABB, b: AABB)
    ensures Test(a, b) <==> Test(b, a)
  {
  }

  /** For proper boxes the test holds exactly when the boxes share a point. */
  lemma TestIffSharedPoint(a: AABB, b: AABB)
    requires Proper(a) && Proper(b)
    ensures Test(a, b) <==> exists p :: InBox(p, a) && InBox(p, b)
  {
    if Test(a, b) {
      var p := Point(Max(a.min.x, b.min.x), Max(a.min.y, b.min.y));
      assert InBox(p, a) && InBox(p, b);
    }
  }

  /** A box that misses the query misses everything it contains (the pruning step of `query`). */
  lemma TestMonotone(big: AABB, small: AABB, q: AABB)
    requires Contains(big, small) && Test(small, q)
    ensures Test(big, q)
  {
  }

  /** Two boxes that share an edge overlap. */
  lemma TouchingOverlap(a: AABB, b: AABB)
    requires Proper(a) && Proper(b)
    requires a.max.x == b.min.x && a.min.y == b.min.y && a.max.y == b.max.y
    ensures Test(a, b)
  {
  }
}
