/**
 * Plane geometry of the dispatch engine: locations, Euclidean distance, and the
 * square root that the source takes from its runtime library.
 */
module Geometry {
  import opened Results

  /** A location: a Python 2-tuple or a Java `double[2]`. */
  datatype Point = Point(x: real, y: real)

  /**
   * The location check the source makes before anything else.  A location argument
   * arrives as `None` (a Java `null`, or a Python value that is not a tuple) or as its
   * components; it is well formed exactly when it has two components.
   */
  function AsPoint(loc: Option<seq<real>>): (r: Option<Point>)
    ensures r.Some? <==> loc.Some? && |loc.value| == 2
    ensures r.Some? ==> r.value.x == loc.value[0] && r.value.y == loc.value[1]
  {
    if loc.Some? && |loc.value| == 2 then Some(Point(loc.value[0], loc.value[1])) else None
  }

  /** dx*dx + dy*dy, the radicand of the Euclidean distance. */
  function SquaredDistance(a: Point, b: Point): real
  {
    (a.x - b.x) * (a.x - b.x) + (a.y - b.y) * (a.y - b.y)
  }

  /**
   * `root` is a square root on the non-negative reals.  Dafny has no real square root;
   * the source's `Math.sqrt` and `** 0.5` enter the model as a parameter that satisfies this.
   */
  ghost predicate IsRoot(root: real -> real)
  {
    forall x: real :: 0.0 <= x ==> 0.0 <= root(x) && root(x) * root(x) == x
  }

  /**
   * Euclidean distance, computed as the source does: the root of the squared distance.
   * For a genuine square root it is the non-negative number whose square is dx*dx + dy*dy.
   */
  function Distance(root: real -> real, a: Point, b: Point): (d: real)
    ensures IsRoot(root) ==> 0.0 <= d && d * d == SquaredDistance(a, b)
  {
    SquaredDistanceZero(a, b);
    root(SquaredDistance(a, b))
  }

  // The solver handles products of squares poorly when a square is compared with a
  // constant; the lemmas below therefore reason through products of distinct factors.

  /** Multiplying strictly smaller non-negative factors gives a strictly smaller product. */
  lemma ProductLess(a: real, b: real, c: real, d: real)
    requires 0.0 <= a < b && 0.0 <= c < d
    ensures a * c < b * d
  {
    assert a * c <= b * c;
    assert b * c < b * d;
  }

  /** Multiplying smaller non-negative factors gives a smaller product. */
  lemma ProductAtMost(a: real, b: real, c: real, d: real)
    requires 0.0 <= a <= b && 0.0 <= c <= d
    ensures a * c <= b * d
  {
    assert a * c <= b * c;
    assert b * c <= b * d;
  }

  /** A square is never negative, and is zero only for zero. */
  lemma SquareSign(r: real, x: real)
    requires r * r == x
    ensures 0.0 <= x
    ensures x == 0.0 <==> r == 0.0
  {
    var m := if r < 0.0 then -r else r;
    assert m * m == x;
    if m == 0.0 {
      ProductAtMost(0.0, m, 0.0, m);
    } else {
      ProductLess(0.0, m, 0.0, m);
    }
  }

  lemma SquaredDistanceZero(a: Point, b: Point)
    ensures SquaredDistance(a, b) >= 0.0
    ensures SquaredDistance(a, b) == 0.0 <==> a == b
  {
    SquareSign(a.x - b.x, (a.x - b.x) * (a.x - b.x));
    SquareSign(a.y - b.y, (a.y - b.y) * (a.y - b.y));
  }

  /** A square root of 0 is 0, and only 0 has 0 as its root. */
  lemma RootOfZero(root: real -> real, x: real)
    requires IsRoot(root) && 0.0 <= x
    ensures root(x) == 0.0 <==> x == 0.0
  {
    SquareSign(root(x), x);
  }

  /** The distance helper is non-negative, symmetric, and zero exactly for identical points. */
  lemma DistanceIsMetric(root: real -> real, a: Point, b: Point)
    requires IsRoot(root)
    ensures Distance(root, a, b) >= 0.0
    ensures Distance(root, a, b) == Distance(root, b, a)
    ensures Distance(root, a, b) == 0.0 <==> a == b
  {
    SquaredDistanceZero(a, b);
    RootOfZero(root, SquaredDistance(a, b));
    assert SquaredDistance(a, b) == SquaredDistance(b, a);
  }

  /** A square root preserves strict order, so comparing distances is comparing squared distances. */
  lemma RootPreservesOrder(root: real -> real, a: real, b: real)
    requires IsRoot(root) && 0.0 <= a && 0.0 <= b
    ensures a < b <==> root(a) < root(b)
  {
    var ra, rb := root(a), root(b);
    if ra < rb {
      ProductLess(ra, rb, ra, rb);
    } else {
      ProductAtMost(rb, ra, rb, ra);
    }
  }

  /** Distances compare exactly as squared distances do, whichever square root is used. */
  lemma DistanceOrder(root: real -> real, a: Point, b: Point, p: Point)
    requires IsRoot(root)
    ensures Distance(root, a, p) < Distance(root, b, p) <==> SquaredDistance(a, p) < SquaredDistance(b, p)
  {
    SquaredDistanceZero(a, p);
    SquaredDistanceZero(b, p);
    RootPreservesOrder(root, SquaredDistance(a, p), SquaredDistance(b, p));
  }
}
