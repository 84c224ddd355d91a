/**
 * Plane geometry used by the quadtree and the behaviour rules. The source
 * compares square-rooted Euclidean distances; every comparison here is the
 * equivalent comparison of squared distances, so no square root is needed.
 */
module Geometry {
  datatype Vec = Vec(x: real, y: real)

  /** The half-open rectangle [x, x + w) × [y, y + h) of a quadtree node. */
  datatype Rect = Rect(x: real, y: real, w: real, h: real)

  function Sq(a: real): real { a * a }

  function Abs(a: real): real { if a < 0.0 then -a else a }

  /** Squared Euclidean distance between (x1, y1) and (x2, y2). */
  function DistSq(x1: real, y1: real, x2: real, y2: real): real {
    Sq(x2 - x1) + Sq(y2 - y1)
  }

  /** distance(a, b) <= r, stated without the square root (false for every r < 0). */
  predicate WithinRadius(x1: real, y1: real, x2: real, y2: real, r: real) {
    0.0 <= r && DistSq(x1, y1, x2, y2) <= r * r
  }

  /** distance(a, b) < r, stated without the square root. */
  predicate StrictlyWithin(x1: real, y1: real, x2: real, y2: real, r: real) {
    0.0 < r && DistSq(x1, y1, x2, y2) < r * r
  }

  predicate Contains(b: Rect, px: real, py: real) {
    b.x <= px < b.x + b.w && b.y <= py < b.y + b.h
  }

  /** Python's min and max on two numbers. */
  function Min(a: real, b: real): real { if a <= b then a else b }
  function Max(a: real, b: real): real { if a >= b then a else b }

  /** max(lo, min(v, hi)): the clamp used for node pruning and for keeping agents on the field. */
  function ClampTo(v: real, lo: real, hi: real): (c: real)
    ensures lo <= c
    ensures lo <= hi ==> c <= hi
    ensures lo <= v <= hi ==> c == v
  {
    Max(lo, Min(v, hi))
  }

  /** The point of the closed rectangle nearest to (qx, qy). */
  function Closest(b: Rect, qx: real, qy: real): Vec {
    Vec(ClampTo(qx, b.x, b.x + b.w), ClampTo(qy, b.y, b.y + b.h))
  }

  // The four equal quadrants built by subdivision
  function NW(b: Rect): Rect { Rect(b.x, b.y, b.w / 2.0, b.h / 2.0) }
  function NE(b: Rect): Rect { Rect(b.x + b.w / 2.0, b.y, b.w / 2.0, b.h / 2.0) }
  function SW(b: Rect): Rect { Rect(b.x, b.y + b.h / 2.0, b.w / 2.0, b.h / 2.0) }
  function SE(b: Rect): Rect { Rect(b.x + b.w / 2.0, b.y + b.h / 2.0, b.w / 2.0, b.h / 2.0) }

  /** The quadrants in the order the source tries them: NW, NE, SW, SE. */
  function Quadrant(b: Rect, q: nat): Rect
    requires q < 4
  {
    if q == 0 then NW(b) else if q == 1 then NE(b) else if q == 2 then SW(b) else SE(b)
  }

  /** How many of the four quadrants of b contain the point. */
  function QuadrantHits(b: Rect, px: real, py: real): nat {
    (if Contains(NW(b), px, py) then 1 else 0) + (if Contains(NE(b), px, py) then 1 else 0) +
    (if Contains(SW(b), px, py) then 1 else 0) + (if Contains(SE(b), px, py) then 1 else 0)
  }

  /** The quadrants partition their parent: a point of the parent lies in exactly one of them, any other point in none. */
  lemma QuadrantsPartition(b: Rect, px: real, py: real)
    ensures QuadrantHits(b, px, py) == if Contains(b, px, py) then 1 else 0
  {
  }

  lemma SqMonotone(a: real, b: real)
    requires 0.0 <= a <= b
    ensures Sq(a) <= Sq(b)
  {
    calc {
      a * a;
    <= { assert a * (b - a) >= 0.0; }
      a * b;
    <= { assert b * (b - a) >= 0.0; }
      b * b;
    }
  }

  /** Along one axis, the clamped coordinate is no farther from q than any coordinate of the interval. */
  lemma ClampIsNearer(q: real, lo: real, hi: real, p: real)
    requires lo <= p < hi
    ensures Sq(ClampTo(q, lo, hi) - q) <= Sq(p - q)
  {
    var c := ClampTo(q, lo, hi);
    if q < lo {
      assert c == lo;
      SqMonotone(lo - q, p - q);
    } else if q > hi {
      assert c == hi;
      SqMonotone(q - hi, q - p);
      assert Sq(c - q) == Sq(q - hi);
      assert Sq(p - q) == Sq(q - p);
    } else {
      assert c == q;
    }
  }

  /**
   * The closest point of a node's rectangle is no farther than any point the
   * node contains, so a node whose closest point is out of range holds no
   * point in range: the query's pruning is sound.
   */
  lemma PruningSound(b: Rect, qx: real, qy: real, px: real, py: real, r: real)
    requires Contains(b, px, py)
    requires !WithinRadius(qx, qy, Closest(b, qx, qy).x, Closest(b, qx, qy).y, r)
    ensures !WithinRadius(qx, qy, px, py, r)
  {
    ClampIsNearer(qx, b.x, b.x + b.w, px);
    ClampIsNearer(qy, b.y, b.y + b.h, py);
  }
}
