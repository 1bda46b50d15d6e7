/**
 The even-odd ray-casting test of `rayCasting` in `js/app.js`, over exact reals.

 A ring is a sequence of vertices; edge `k` joins vertex `k` to the vertex before it
 (the first vertex to the last). A horizontal ray is cast from the query point towards
 +x and the point is inside when it crosses an odd number of edges.
 */
module Containment {

  /** `(x, y)`; a GeoJSON position is `[lon, lat]`, so x is the longitude and y the latitude. */
  type Point = (real, real)

  type Ring = seq<Point>

  function Max(a: real, b: real): real { if a < b then b else a }

  function Min(a: real, b: real): real { if a < b then a else b }

  /** Division undoes multiplication by a non-zero divisor. */
  lemma DivByMul(a: real, d: real, z: real)
    requires d != 0.0 && z * d == a
    ensures a / d == z
  {
  }

  /** The sign of a product with a positive factor is the sign of the other factor. */
  lemma SignOfFactor(t: real, d: real)
    requires d > 0.0
    ensures t * d >= 0.0 ==> t >= 0.0
    ensures t * d <= 0.0 ==> t <= 0.0
  {
  }

  lemma MulNonNegative(a: real, b: real)
    requires a >= 0.0 && b >= 0.0
    ensures a * b >= 0.0
  {
  }

  /** `(xj - xi) * (y - yi) / (yj - yi) + xi` lies between `xi` and `xj` when `y` lies
      between `yi` and `yj`. */
  lemma InterceptBetween(xi: real, yi: real, xj: real, yj: real, y: real)
    requires (yi > y) != (yj > y)
    ensures Min(xi, xj) <= (xj - xi) * (y - yi) / (yj - yi) + xi <= Max(xi, xj)
  {
    var d := yj - yi;
    var t := (y - yi) / d;
    assert t * d == y - yi;
    assert (t - 1.0) * d == y - yj;
    if d > 0.0 {
      SignOfFactor(t, d);
      SignOfFactor(t - 1.0, d);
    } else {
      SignOfFactor(t, -d);
      SignOfFactor(t - 1.0, -d);
    }
    DivByMul((xj - xi) * (y - yi), d, (xj - xi) * t);
    if xi <= xj {
      MulNonNegative(xj - xi, t);
      MulNonNegative(xj - xi, 1.0 - t);
      assert (xj - xi) * (1.0 - t) == (xj - xi) - (xj - xi) * t;
    } else {
      MulNonNegative(xi - xj, t);
      MulNonNegative(xi - xj, 1.0 - t);
      assert (xi - xj) * t == -((xj - xi) * t);
      assert (xi - xj) * (1.0 - t) == (xi - xj) + (xj - xi) * t;
    }
  }

  /** The per-edge test of the loop: the point's height separates the heights of the two
      endpoints (so they differ and the division is defined), and the point lies left of
      the edge at that height. A crossed edge spans the point's height and reaches to its
      right. */
  predicate Crosses(p: Point, vi: Point, vj: Point)
    ensures Crosses(p, vi, vj) ==> Min(vi.1, vj.1) <= p.1 < Max(vi.1, vj.1)
    ensures Crosses(p, vi, vj) ==> p.0 < Max(vi.0, vj.0)
  {
    var (x, y) := p;
    var (xi, yi) := vi;
    var (xj, yj) := vj;
    if (yi > y) != (yj > y) then
      InterceptBetween(xi, yi, xj, yj, y);
      x < (xj - xi) * (y - yi) / (yj - yi) + xi
    else
      false
  }

  /** Negating both the numerator and the denominator keeps a quotient. */
  lemma NegateFraction(n: real, d: real)
    requires d != 0.0
    ensures (-n) / (-d) == n / d
  {
    DivByMul(-n, -d, n / d);
  }

  /** Quotients by the same divisor subtract through their numerators. */
  lemma FractionDifference(n1: real, n2: real, d: real)
    requires d != 0.0
    ensures n1 / d - n2 / d == (n1 - n2) / d
  {
    assert (n1 / d - n2 / d) * d == n1 / d * d - n2 / d * d;
    DivByMul(n1 - n2, d, n1 / d - n2 / d);
  }

  /** The intercept of an edge at height `y` is the same from either endpoint. */
  lemma InterceptsAgree(a: Point, b: Point, y: real)
    requires a.1 != b.1
    ensures (b.0 - a.0) * (y - a.1) / (b.1 - a.1) + a.0 == (a.0 - b.0) * (y - b.1) / (a.1 - b.1) + b.0
  {
    var u := b.0 - a.0;
    var d := b.1 - a.1;
    assert (a.0 - b.0) * (y - b.1) == -(u * (y - b.1));
    assert a.1 - b.1 == -d;
    NegateFraction(u * (y - b.1), d);
    FractionDifference(u * (y - a.1), u * (y - b.1), d);
    assert u * (y - a.1) - u * (y - b.1) == u * d;
    DivByMul(u * d, d, u);
  }

  /** Where the edge spans the point's height, the test compares the point with the
      intercept taken from the first endpoint. */
  lemma CrossesAt(p: Point, a: Point, b: Point)
    requires (a.1 > p.1) != (b.1 > p.1)
    ensures Crosses(p, a, b) == (p.0 < (b.0 - a.0) * (p.1 - a.1) / (b.1 - a.1) + a.0)
  {
  }

  /** The crossing test does not depend on the direction of the edge. */
  lemma CrossesSymmetric(p: Point, a: Point, b: Point)
    ensures Crosses(p, a, b) == Crosses(p, b, a)
  {
    if (a.1 > p.1) != (b.1 > p.1) {
      CrossesAt(p, a, b);
      CrossesAt(p, b, a);
      InterceptsAgree(a, b, p.1);
    }
  }

  /** The edges the loop visits, in order: vertex `k` paired with vertex `k - 1`,
      vertex 0 with the last vertex. */
  function Edges(ring: Ring): (es: seq<(Point, Point)>)
    ensures |es| == |ring|
  {
    seq(|ring|, k requires 0 <= k < |ring| => (ring[k], ring[if k == 0 then |ring| - 1 else k - 1]))
  }

  /** Number of edges the ray from `p` crosses. */
  function CrossCount(p: Point, es: seq<(Point, Point)>): nat {
    if |es| == 0 then 0
    else CrossCount(p, es[..|es| - 1]) + (if Crosses(p, es[|es| - 1].0, es[|es| - 1].1) then 1 else 0)
  }

  /** Even-odd rule: `p` is inside `ring` when its ray crosses an odd number of edges. */
  predicate Inside(p: Point, ring: Ring) {
    CrossCount(p, Edges(ring)) % 2 == 1
  }

  /** `rayCasting(ponto, poligono)`: toggles `inside` at every crossed edge. */
  method RayCasting(p: Point, ring: Ring) returns (inside: bool)
    ensures inside <==> CrossCount(p, Edges(ring)) % 2 == 1
  {
    inside := false;
    var i := 0;
    var j := |ring| - 1;
    while i < |ring|
      invariant 0 <= i <= |ring|
      invariant i < |ring| ==> j == if i == 0 then |ring| - 1 else i - 1
      invariant inside <==> CrossCount(p, Edges(ring)[..i]) % 2 == 1
    {
      assert Edges(ring)[..i + 1][..i] == Edges(ring)[..i];
      if Crosses(p, ring[i], ring[j]) {
        inside := !inside;
      }
      j := i;
      i := i + 1;
    }
    assert Edges(ring)[..i] == Edges(ring);
  }

  // ---------------------------------------------------------------------------
  // Counting lemmas
  // ---------------------------------------------------------------------------

  lemma {:induction false} CrossCountConcat(p: Point, a: seq<(Point, Point)>, b: seq<(Point, Point)>)
    ensures CrossCount(p, a + b) == CrossCount(p, a) + CrossCount(p, b)
    decreases |b|
  {
    if |b| > 0 {
      assert (a + b)[..|a + b| - 1] == a + b[..|b| - 1];
      CrossCountConcat(p, a, b[..|b| - 1]);
    } else {
      assert a + b == a;
    }
  }

  /** Edge sequences that agree edge by edge on crossing have the same count. */
  lemma {:induction false} CrossCountPointwise(p: Point, a: seq<(Point, Point)>, b: seq<(Point, Point)>)
    requires |a| == |b|
    requires forall k :: 0 <= k < |a| ==> Crosses(p, a[k].0, a[k].1) == Crosses(p, b[k].0, b[k].1)
    ensures CrossCount(p, a) == CrossCount(p, b)
    decreases |a|
  {
    if |a| > 0 {
      CrossCountPointwise(p, a[..|a| - 1], b[..|b| - 1]);
    }
  }

  /** No edge crossed, no crossing counted. */
  lemma {:induction false} CrossCountNone(p: Point, es: seq<(Point, Point)>)
    requires forall k :: 0 <= k < |es| ==> !Crosses(p, es[k].0, es[k].1)
    ensures CrossCount(p, es) == 0
    decreases |es|
  {
    if |es| > 0 {
      CrossCountNone(p, es[..|es| - 1]);
    }
  }

  lemma CrossCountSingle(p: Point, e: (Point, Point))
    ensures CrossCount(p, [e]) == if Crosses(p, e.0, e.1) then 1 else 0
  {
    assert [e][..0] == [];
  }

  function ReverseEdges(es: seq<(Point, Point)>): seq<(Point, Point)> {
    seq(|es|, k requires 0 <= k < |es| => es[|es| - 1 - k])
  }

  lemma {:induction false} CrossCountReverse(p: Point, es: seq<(Point, Point)>)
    ensures CrossCount(p, ReverseEdges(es)) == CrossCount(p, es)
    decreases |es|
  {
    if |es| > 0 {
      var init := es[..|es| - 1];
      var last := es[|es| - 1];
      assert ReverseEdges(es) == [last] + ReverseEdges(init);
      CrossCountConcat(p, [last], ReverseEdges(init));
      CrossCountReverse(p, init);
      assert CrossCount(p, [last]) == CrossCount(p, [] + [last]);
    }
  }

  // ---------------------------------------------------------------------------
  // Properties of the test
  // ---------------------------------------------------------------------------

  /** A ring of fewer than three vertices contains no point. */
  lemma DegenerateRingOutside(p: Point, ring: Ring)
    requires |ring| < 3
    ensures !Inside(p, ring)
  {
    var es := Edges(ring);
    if |ring| == 2 {
      CrossesSymmetric(p, ring[0], ring[1]);
      assert es == [(ring[0], ring[1])] + [(ring[1], ring[0])];
      CrossCountConcat(p, [(ring[0], ring[1])], [(ring[1], ring[0])]);
      CrossCountSingle(p, (ring[0], ring[1]));
      CrossCountSingle(p, (ring[1], ring[0]));
    } else if |ring| == 1 {
      assert es[0] == (ring[0], ring[0]);
      CrossCountNone(p, es);
    }
  }

  /** A point below every vertex is outside. */
  lemma BelowAllOutside(p: Point, ring: Ring)
    requires forall k :: 0 <= k < |ring| ==> ring[k].1 > p.1
    ensures !Inside(p, ring)
  {
    CrossCountNone(p, Edges(ring));
  }

  /** A point at or above every vertex is outside. */
  lemma AboveAllOutside(p: Point, ring: Ring)
    requires forall k :: 0 <= k < |ring| ==> ring[k].1 <= p.1
    ensures !Inside(p, ring)
  {
    CrossCountNone(p, Edges(ring));
  }

  /** A point at or right of every vertex is outside. */
  lemma RightOfAllOutside(p: Point, ring: Ring)
    requires forall k :: 0 <= k < |ring| ==> ring[k].0 <= p.0
    ensures !Inside(p, ring)
  {
    CrossCountNone(p, Edges(ring));
  }

  /** The ring with its vertex order reversed. */
  function Reverse(ring: Ring): (r: Ring)
    ensures |r| == |ring|
  {
    seq(|ring|, k requires 0 <= k < |ring| => ring[|ring| - 1 - k])
  }

  /** Clockwise and counter-clockwise rings classify every point identically. */
  lemma ReverseInvariant(p: Point, ring: Ring)
    ensures Inside(p, Reverse(ring)) == Inside(p, ring)
  {
    if |ring| > 0 {
      var n := |ring|;
      var es := Edges(ring);
      var rs := Edges(Reverse(ring));
      var mirrored := [es[0]] + ReverseEdges(es[1..]);
      forall k | 0 <= k < n
        ensures Crosses(p, rs[k].0, rs[k].1) == Crosses(p, mirrored[k].0, mirrored[k].1)
      {
        CrossesSymmetric(p, rs[k].0, rs[k].1);
      }
      CrossCountPointwise(p, rs, mirrored);
      CrossCountConcat(p, [es[0]], ReverseEdges(es[1..]));
      CrossCountReverse(p, es[1..]);
      CrossCountConcat(p, [es[0]], es[1..]);
      assert [es[0]] + es[1..] == es;
    }
  }

  /** Repeating the first vertex at the end, as GeoJSON rings do, changes nothing: the
      added edge is horizontal-degenerate and the closing edge merely moves. */
  lemma ClosingVertexInvariant(p: Point, ring: Ring)
    requires |ring| > 0
    ensures Inside(p, ring + [ring[0]]) == Inside(p, ring)
  {
    var es := Edges(ring);
    var cs := Edges(ring + [ring[0]]);
    assert cs == [(ring[0], ring[0])] + es[1..] + [es[0]];
    CrossCountConcat(p, [(ring[0], ring[0])] + es[1..], [es[0]]);
    CrossCountConcat(p, [(ring[0], ring[0])], es[1..]);
    CrossCountConcat(p, [es[0]], es[1..]);
    assert [es[0]] + es[1..] == es;
    CrossCountNone(p, [(ring[0], ring[0])]);
    CrossCountNone(p, []);
    assert CrossCount(p, [es[0]]) == CrossCount(p, [] + [es[0]]);
  }
}
