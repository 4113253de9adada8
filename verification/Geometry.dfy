/** Plane geometry shared by the spatial index, the shadow and the ray walk.
    Coordinates are exact reals, so every coordinate is finite. */
module Geometry {

  datatype Point = Point(x: real, y: real)

  function Min(a: real, b: real): real { if a <= b then a else b }

  function Max(a: real, b: real): real { if a >= b then a else b }

  function Abs(a: real): real { if a < 0.0 then -a else a }

  datatype BBox = BBox(minX: real, minY: real, maxX: real, maxY: real) {

    predicate IsValid() { minX <= maxX && minY <= maxY }

    function Width(): real { maxX - minX }

    function Height(): real { maxY - minY }

    predicate ContainsPoint(p: Point) {
      p.x >= minX && p.x <= maxX && p.y >= minY && p.y <= maxY
    }

    predicate Intersects(o: BBox) {
      minX <= o.maxX && maxX >= o.minX && minY <= o.maxY && maxY >= o.minY
    }

    function ExpandToIncludePoint(p: Point): BBox {
      BBox(Min(minX, p.x), Min(minY, p.y), Max(maxX, p.x), Max(maxY, p.y))
    }

    function ExpandToIncludeBBox(o: BBox): BBox {
      BBox(Min(minX, o.minX), Min(minY, o.minY), Max(maxX, o.maxX), Max(maxY, o.maxY))
    }

    predicate Within(o: BBox) {
      o.minX <= minX && maxX <= o.maxX && o.minY <= minY && maxY <= o.maxY
    }
  }

  /** Valid boxes intersect exactly when some point lies in both. */
  lemma IntersectsExactly(a: BBox, b: BBox)
    requires a.IsValid() && b.IsValid()
    ensures a.Intersects(b) <==> exists p :: a.ContainsPoint(p) && b.ContainsPoint(p)
  {
    if a.Intersects(b) {
      var p := Point(Max(a.minX, b.minX), Max(a.minY, b.minY));
      assert a.ContainsPoint(p) && b.ContainsPoint(p);
    }
  }

  /** The corners of a box, going round. */
  function Corners(b: BBox): seq<Point> {
    [Point(b.minX, b.minY), Point(b.maxX, b.minY), Point(b.maxX, b.maxY), Point(b.minX, b.maxY)]
  }

  /** The vertex before vertex k, going round. */
  function Prev(ring: seq<Point>, k: nat): Point
    requires k < |ring|
  {
    if k == 0 then ring[|ring| - 1] else ring[k - 1]
  }

  /** The vertex after vertex k, going round. */
  function Next(ring: seq<Point>, k: nat): Point
    requires k < |ring|
  {
    if k + 1 < |ring| then ring[k + 1] else ring[0]
  }

  function Lerp(a: real, b: real, t: real): real { a + t * (b - a) }

  /** The point a fraction t of the way from p to q. */
  function Along(p: Point, q: Point, t: real): Point {
    Point(Lerp(p.x, q.x, t), Lerp(p.y, q.y, t))
  }

  lemma LerpUp(a: real, b: real, s: real, t: real)
    requires s <= t && a <= b
    ensures Lerp(a, b, s) <= Lerp(a, b, t)
  {
    MulMono(s, t, b - a);
  }

  lemma LerpDown(a: real, b: real, s: real, t: real)
    requires s <= t && a >= b
    ensures Lerp(a, b, s) >= Lerp(a, b, t)
  {
    MulMono(s, t, a - b);
  }

  lemma LerpBetween(a: real, b: real, s: real, t: real, u: real)
    requires s <= t <= u
    ensures Min(Lerp(a, b, s), Lerp(a, b, u)) <= Lerp(a, b, t) <= Max(Lerp(a, b, s), Lerp(a, b, u))
  {
    if a <= b {
      LerpUp(a, b, s, t);
      LerpUp(a, b, t, u);
    } else {
      LerpDown(a, b, s, t);
      LerpDown(a, b, t, u);
    }
  }

  lemma LerpWithin(a: real, b: real, t: real)
    requires 0.0 <= t <= 1.0
    ensures Min(a, b) <= Lerp(a, b, t) <= Max(a, b)
  {
    LerpBetween(a, b, 0.0, t, 1.0);
  }

  /** Twice the signed area of the triangle a, b, c; positive when it turns left. */
  function Cross(a: Point, b: Point, c: Point): real {
    (b.x - a.x) * (c.y - a.y) - (b.y - a.y) * (c.x - a.x)
  }

  lemma DivMul(a: real, c: real)
    requires c != 0.0
    ensures a / c * c == a
  {}

  lemma SameTimes(x: real, y: real, c: real)
    requires c != 0.0 && x * c == y * c
    ensures x == y
  {}

  lemma MulMono(a: real, b: real, c: real)
    requires a <= b && c >= 0.0
    ensures a * c <= b * c
  {}

  lemma MulStrict(a: real, b: real, c: real)
    requires a < b && c > 0.0
    ensures a * c < b * c
  {}

  lemma NonNegMul(a: real, b: real)
    requires a >= 0.0 && b >= 0.0
    ensures a * b >= 0.0
  {}

  function Times(a: real, b: real): real { a * b }

  lemma PositiveTimes(a: real, b: real)
    requires a > 0.0 && b > 0.0
    ensures Times(a, b) > 0.0
  {}

  lemma Square(a: real)
    ensures Times(a, a) >= 0.0
    ensures a != 0.0 ==> Times(a, a) > 0.0
  {
    if a > 0.0 {
      PositiveTimes(a, a);
    } else if a < 0.0 {
      PositiveTimes(-a, -a);
      assert Times(-a, -a) == Times(a, a);
    }
  }

  /** The sign of a factor, from the sign of the product. */
  lemma FactorSign(a: real, b: real)
    requires a * b >= 0.0
    ensures b > 0.0 ==> a >= 0.0
    ensures b < 0.0 ==> a <= 0.0
  {}

  lemma DivMono(a: real, b: real, c: real)
    requires a <= b && c > 0.0
    ensures a / c <= b / c
  {
    var u, v := a / c, b / c;
    assert u * c == a && v * c == b;
    if u > v {
      MulStrict(v, u, c);
    }
  }

  /** a / c stands to k as a stands to k * c, for positive c. */
  lemma DivCompare(a: real, k: real, c: real)
    requires c > 0.0
    ensures a / c <= k <==> a <= k * c
    ensures a / c < k <==> a < k * c
  {
    var u := a / c;
    assert u * c == a;
    if u < k {
      MulStrict(u, k, c);
    } else if u > k {
      MulStrict(k, u, c);
    }
  }
}
