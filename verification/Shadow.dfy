/** The shadow a segment casts from a point, and the box around the part of it
    inside a region being searched. */
module Shadows {
  import opened Geometry
  import opened HalfPlaneClip
  import opened BBoxGrids
  import opened Options

  /** An apex on the segment's own line gives a degenerate shadow, which excludes nothing. */
  datatype SegmentShadow = SegmentShadow(planes: seq<Plane>, degenerate: bool) {

    /** Every half-plane of the shadow holds q. */
    ghost predicate Holds(q: Point) {
      degenerate || forall i :: 0 <= i < |planes| ==> planes[i].Holds(q)
    }

    /** MayContainSegment: no half-plane has both endpoints strictly outside. */
    predicate MayContainSegment(p: Point, q: Point) {
      degenerate || forall i :: 0 <= i < |planes| ==> !(planes[i].At(p) > 0.0 && planes[i].At(q) > 0.0)
    }
  }

  function Sign(a: real): real { if a < 0.0 then -1.0 else 1.0 }

  /** The half-plane with its normal turned to the named side. */
  function TurnedPlane(origin: Point, nx: real, ny: real, side: real, limit: real): Plane {
    Plane(origin, nx * side, ny * side, limit)
  }

  /** The wedge edge from the apex through an endpoint, keeping the side the
      sign names; dropped when the other endpoint is within the margin of it. */
  function WedgeEdge(apex: Point, end: Point, keepSign: real, margin: real, hypot: (real, real) -> real): seq<Plane> {
    var dx, dy := end.x - apex.x, end.y - apex.y;
    var length := hypot(dx, dy);
    if length <= 0.0 || Abs(keepSign) <= margin * length then []
    else [TurnedPlane(apex, dy, -dx, Sign(keepSign), margin * length)]
  }

  /** Twice the signed area of a, b, apex. */
  function Offset(apex: Point, a: Point, b: Point): real {
    (b.x - a.x) * (apex.y - a.y) - (b.y - a.y) * (apex.x - a.x)
  }

  function FarSide(apex: Point, a: Point, b: Point, limit: real): Plane {
    TurnedPlane(a, -(b.y - a.y), b.x - a.x, Sign(Offset(apex, a, b)), limit)
  }

  /** NewSegmentShadow; hypot stands for math.Hypot. */
  function NewSegmentShadow(apex: Point, a: Point, b: Point, margin: real, hypot: (real, real) -> real): SegmentShadow {
    var span := hypot(b.x - a.x, b.y - a.y);
    var offset := Offset(apex, a, b);
    if span <= 0.0 || Abs(offset) <= margin * span then SegmentShadow([], true)
    else
      SegmentShadow(
        [FarSide(apex, a, b, margin * span)] +
        WedgeEdge(apex, a, offset, margin, hypot) + WedgeEdge(apex, b, -offset, margin, hypot), false)
  }

  /** The point a fraction lambda of the way from the apex through a point of [a, b]. */
  function ShadowPoint(apex: Point, a: Point, b: Point, t: real, lambda: real): Point {
    Along(apex, Along(a, b, t), lambda)
  }

  ghost predicate Casts(apex: Point, a: Point, b: Point, v: Point) {
    exists t, lambda :: 0.0 <= t <= 1.0 && lambda >= 1.0 && v == ShadowPoint(apex, a, b, t, lambda)
  }

  // ---- the planes hold the shadow ----

  function Linear(nx: real, ny: real, origin: Point, v: Point): real {
    nx * (v.x - origin.x) + ny * (v.y - origin.y)
  }

  /** What the three edge functionals of the shadow make of one of its points. */
  lemma ShadowValues(apex: Point, a: Point, b: Point, v: Point, t: real, lambda: real)
    requires v == ShadowPoint(apex, a, b, t, lambda)
    ensures Linear(-(b.y - a.y), b.x - a.x, a, v) == -((lambda - 1.0) * Offset(apex, a, b))
    ensures Linear(a.y - apex.y, -(a.x - apex.x), apex, v) == -(lambda * t * Offset(apex, a, b))
    ensures Linear(b.y - apex.y, -(b.x - apex.x), apex, v) == -(lambda * (1.0 - t) * -Offset(apex, a, b))
  {}

  lemma CastValues(apex: Point, a: Point, b: Point, v: Point) returns (k: real, i: real, j: real)
    requires Casts(apex, a, b, v)
    ensures k >= 0.0 && i >= 0.0 && j >= 0.0
    ensures Linear(-(b.y - a.y), b.x - a.x, a, v) == -(k * Offset(apex, a, b))
    ensures Linear(a.y - apex.y, -(a.x - apex.x), apex, v) == -(i * Offset(apex, a, b))
    ensures Linear(b.y - apex.y, -(b.x - apex.x), apex, v) == -(j * -Offset(apex, a, b))
  {
    var t, lambda :| 0.0 <= t <= 1.0 && lambda >= 1.0 && v == ShadowPoint(apex, a, b, t, lambda);
    ShadowValues(apex, a, b, v, t, lambda);
    NonNegMul(lambda, t);
    NonNegMul(lambda, 1.0 - t);
    k, i, j := lambda - 1.0, lambda * t, lambda * (1.0 - t);
  }

  lemma ForwardAt(origin: Point, nx: real, ny: real, limit: real, v: Point)
    ensures Plane(origin, nx, ny, limit).At(v) == Linear(nx, ny, origin, v) - limit
    ensures Plane(origin, -nx, -ny, limit).At(v) == -Linear(nx, ny, origin, v) - limit
  {}

  lemma OppositeSign(m: real, k: real, s: real)
    requires k >= 0.0 && m == -(k * s)
    ensures s >= 0.0 ==> m <= 0.0
    ensures s <= 0.0 ==> m >= 0.0
  {
    if s >= 0.0 { NonNegMul(k, s); }
    if s <= 0.0 { NonNegMul(k, -s); }
  }

  lemma TurnedHolds(origin: Point, nx: real, ny: real, s: real, limit: real, v: Point, k: real)
    requires k >= 0.0 && limit >= 0.0
    requires Linear(nx, ny, origin, v) == -(k * s)
    ensures TurnedPlane(origin, nx, ny, Sign(s), limit).Holds(v)
  {
    OppositeSign(Linear(nx, ny, origin, v), k, s);
    ForwardAt(origin, nx, ny, limit, v);
    assert TurnedPlane(origin, nx, ny, Sign(s), limit) ==
      if s < 0.0 then Plane(origin, -nx, -ny, limit) else Plane(origin, nx, ny, limit);
  }

  lemma FarSideHolds(apex: Point, a: Point, b: Point, limit: real, v: Point, k: real)
    requires k >= 0.0 && limit >= 0.0
    requires Linear(-(b.y - a.y), b.x - a.x, a, v) == -(k * Offset(apex, a, b))
    ensures FarSide(apex, a, b, limit).Holds(v)
  {
    TurnedHolds(a, -(b.y - a.y), b.x - a.x, Offset(apex, a, b), limit, v, k);
  }

  lemma WedgeHolds(apex: Point, end: Point, keepSign: real, margin: real, hypot: (real, real) -> real, v: Point, k: real)
    requires margin >= 0.0 && k >= 0.0
    requires Linear(end.y - apex.y, -(end.x - apex.x), apex, v) == -(k * keepSign)
    ensures forall e :: e in WedgeEdge(apex, end, keepSign, margin, hypot) ==> e.Holds(v)
  {
    var edge := WedgeEdge(apex, end, keepSign, margin, hypot);
    if |edge| > 0 {
      NonNegMul(margin, hypot(end.x - apex.x, end.y - apex.y));
      TurnedHolds(apex, end.y - apex.y, -(end.x - apex.x), keepSign, margin * hypot(end.x - apex.x, end.y - apex.y), v, k);
    }
  }

  lemma FarSideCast(apex: Point, a: Point, b: Point, limit: real, v: Point)
    requires limit >= 0.0 && Casts(apex, a, b, v)
    ensures FarSide(apex, a, b, limit).Holds(v)
  {
    var k, i, j := CastValues(apex, a, b, v);
    FarSideHolds(apex, a, b, limit, v, k);
  }

  lemma WedgesCast(apex: Point, a: Point, b: Point, margin: real, hypot: (real, real) -> real, v: Point)
    requires margin >= 0.0 && Casts(apex, a, b, v)
    ensures forall e :: e in WedgeEdge(apex, a, Offset(apex, a, b), margin, hypot) ==> e.Holds(v)
    ensures forall e :: e in WedgeEdge(apex, b, -Offset(apex, a, b), margin, hypot) ==> e.Holds(v)
  {
    var k, i, j := CastValues(apex, a, b, v);
    WedgeHolds(apex, a, Offset(apex, a, b), margin, hypot, v, i);
    WedgeHolds(apex, b, -Offset(apex, a, b), margin, hypot, v, j);
  }

  /** Every shadow point satisfies every half-plane of the shadow. */
  lemma ShadowHolds(apex: Point, a: Point, b: Point, margin: real, hypot: (real, real) -> real, v: Point)
    requires margin >= 0.0 && Casts(apex, a, b, v)
    ensures NewSegmentShadow(apex, a, b, margin, hypot).Holds(v)
  {
    var s := NewSegmentShadow(apex, a, b, margin, hypot);
    if !s.degenerate {
      NonNegMul(margin, hypot(b.x - a.x, b.y - a.y));
      FarSideCast(apex, a, b, margin * hypot(b.x - a.x, b.y - a.y), v);
      WedgesCast(apex, a, b, margin, hypot, v);
      AllHold(FarSide(apex, a, b, margin * hypot(b.x - a.x, b.y - a.y)), WedgeEdge(apex, a, Offset(apex, a, b), margin, hypot),
              WedgeEdge(apex, b, -Offset(apex, a, b), margin, hypot), v);
    }
  }

  lemma AllHold(far: Plane, left: seq<Plane>, right: seq<Plane>, v: Point)
    requires far.Holds(v) && (forall e :: e in left ==> e.Holds(v)) && forall e :: e in right ==> e.Holds(v)
    ensures SegmentShadow([far] + left + right, false).Holds(v)
  {
    var planes := [far] + left + right;
    forall i | 0 <= i < |planes|
      ensures planes[i].Holds(v)
    {
      assert planes[i] in planes;
    }
  }

  // ---- without a margin they are the shadow ----

  /** What the edge functionals make of a point, and where that puts it. */
  lemma CramerCast(ax: real, ay: real, cx: real, cy: real, vx: real, vy: real)
    ensures vx * (ax * cy - cx * ay) == (cy * vx - cx * vy) * ax - (ay * vx - ax * vy) * cx
    ensures vy * (ax * cy - cx * ay) == (cy * vx - cx * vy) * ay - (ay * vx - ax * vy) * cy
  {}

  lemma CrossesAtApex(apex: Point, a: Point, b: Point, v: Point)
    ensures var s, l, r := Offset(apex, a, b), Linear(a.y - apex.y, -(a.x - apex.x), apex, v), Linear(b.y - apex.y, -(b.x - apex.x), apex, v);
            && (v.x - apex.x) * s == r * (a.x - apex.x) - l * (b.x - apex.x)
            && (v.y - apex.y) * s == r * (a.y - apex.y) - l * (b.y - apex.y)
            && Linear(-(b.y - a.y), b.x - a.x, a, v) == s - r + l
  {
    OffsetAtApex(apex, a, b);
    CramerCast(a.x - apex.x, a.y - apex.y, b.x - apex.x, b.y - apex.y, v.x - apex.x, v.y - apex.y);
  }

  lemma OffsetAtApex(apex: Point, a: Point, b: Point)
    ensures Offset(apex, a, b) == (a.x - apex.x) * (b.y - apex.y) - (b.x - apex.x) * (a.y - apex.y)
  {}

  lemma ShareOf(d: real, s: real, r: real, l: real, x: real, y: real)
    requires s != 0.0 && d * s == r * x - l * y
    ensures d == Times(r / s, x) + Times(-l / s, y)
  {
    DivMul(r, s);
    DivMul(-l, s);
    assert (r / s * x + -l / s * y) * s == r / s * s * x + -l / s * s * y;
    SameTimes(d, r / s * x + -l / s * y, s);
  }

  lemma SignOfQuotient(n: real, s: real)
    requires s != 0.0 && (s > 0.0 ==> n >= 0.0) && (s < 0.0 ==> n <= 0.0)
    ensures n / s >= 0.0
  {
    if s > 0.0 {
      DivMono(0.0, n, s);
    } else {
      DivMul(n, s);
      DivMul(-n, -s);
      SameTimes(n / s, -n / -s, s);
      DivMono(0.0, -n, -s);
    }
  }

  /** Shares i and j of the two directions, at least one together, are a shadow point. */
  lemma SharesCast(p: real, a: real, b: real, i: real, j: real, t: real)
    requires i + j >= 1.0 && t == i / (i + j)
    ensures Lerp(p, Lerp(a, b, t), i + j) == p + Times(j, a - p) + Times(i, b - p)
  {
    DivMul(i, i + j);
    assert (i + j) * (a + t * (b - a) - p) == (i + j) * (a - p) + t * (i + j) * (b - a);
  }

  lemma CastsBack(apex: Point, a: Point, b: Point, v: Point, i: real, j: real)
    requires i >= 0.0 && j >= 0.0 && i + j >= 1.0
    requires v.x - apex.x == Times(j, a.x - apex.x) + Times(i, b.x - apex.x)
    requires v.y - apex.y == Times(j, a.y - apex.y) + Times(i, b.y - apex.y)
    ensures Casts(apex, a, b, v)
  {
    var t := i / (i + j);
    DivMono(0.0, i, i + j);
    DivCompare(i, 1.0, i + j);
    SharesCast(apex.x, a.x, b.x, i, j, t);
    SharesCast(apex.y, a.y, b.y, i, j, t);
    assert v == ShadowPoint(apex, a, b, t, i + j);
  }

  lemma TurnedValue(origin: Point, nx: real, ny: real, s: real, v: Point)
    requires TurnedPlane(origin, nx, ny, Sign(s), 0.0).Holds(v)
    ensures s >= 0.0 ==> Linear(nx, ny, origin, v) <= 0.0
    ensures s < 0.0 ==> Linear(nx, ny, origin, v) >= 0.0
  {
    ForwardAt(origin, nx, ny, 0.0, v);
    assert TurnedPlane(origin, nx, ny, Sign(s), 0.0) ==
      if s < 0.0 then Plane(origin, -nx, -ny, 0.0) else Plane(origin, nx, ny, 0.0);
  }

  /** A point on the inner side of the far side and of both wedge edges. */
  lemma SidesCast(apex: Point, a: Point, b: Point, v: Point)
    requires Offset(apex, a, b) != 0.0
    requires FarSide(apex, a, b, 0.0).Holds(v)
    requires TurnedPlane(apex, a.y - apex.y, -(a.x - apex.x), Sign(Offset(apex, a, b)), 0.0).Holds(v)
    requires TurnedPlane(apex, b.y - apex.y, -(b.x - apex.x), Sign(-Offset(apex, a, b)), 0.0).Holds(v)
    ensures Casts(apex, a, b, v)
  {
    var s := Offset(apex, a, b);
    var l, r := Linear(a.y - apex.y, -(a.x - apex.x), apex, v), Linear(b.y - apex.y, -(b.x - apex.x), apex, v);
    TurnedValue(a, -(b.y - a.y), b.x - a.x, s, v);
    TurnedValue(apex, a.y - apex.y, -(a.x - apex.x), s, v);
    TurnedValue(apex, b.y - apex.y, -(b.x - apex.x), -s, v);
    CrossesAtApex(apex, a, b, v);
    ShareOf(v.x - apex.x, s, r, l, a.x - apex.x, b.x - apex.x);
    ShareOf(v.y - apex.y, s, r, l, a.y - apex.y, b.y - apex.y);
    SignOfQuotient(-l, s);
    SignOfQuotient(r, s);
    AtLeastOne(s, r, l);
    CastsBack(apex, a, b, v, -l / s, r / s);
  }

  lemma AtLeastOne(s: real, r: real, l: real)
    requires s != 0.0 && (s > 0.0 ==> s - r + l <= 0.0) && (s < 0.0 ==> s - r + l >= 0.0)
    ensures -l / s + r / s >= 1.0
  {
    SignOfQuotient(r - l - s, s);
    DivMul(r - l - s, s);
    DivMul(-l, s);
    DivMul(r, s);
    SameTimes((r - l - s) / s + 1.0, -l / s + r / s, s);
  }

  /** math.Hypot is 0 only at 0, and never negative. */
  ghost predicate IsLength(hypot: (real, real) -> real) {
    forall x, y :: hypot(x, y) >= 0.0 && (hypot(x, y) == 0.0 ==> x == 0.0 && y == 0.0)
  }

  lemma OffsetOfTwo(apex: Point, a: Point, b: Point)
    ensures Offset(apex, apex, b) == 0.0 && Offset(apex, a, apex) == 0.0 && Offset(apex, a, a) == 0.0
  {}

  lemma Apart(apex: Point, a: Point, b: Point, hypot: (real, real) -> real)
    requires IsLength(hypot) && Offset(apex, a, b) != 0.0
    ensures hypot(b.x - a.x, b.y - a.y) > 0.0 && hypot(a.x - apex.x, a.y - apex.y) > 0.0 && hypot(b.x - apex.x, b.y - apex.y) > 0.0
  {
    OffsetOfTwo(apex, a, b);
    assert apex != a && apex != b && a != b;
  }

  /** Without a margin a proper shadow's half-planes hold exactly its points. */
  lemma ShadowExactly(apex: Point, a: Point, b: Point, hypot: (real, real) -> real, v: Point)
    requires IsLength(hypot) && Offset(apex, a, b) != 0.0
    ensures NewSegmentShadow(apex, a, b, 0.0, hypot).Holds(v) <==> Casts(apex, a, b, v)
  {
    var s := NewSegmentShadow(apex, a, b, 0.0, hypot);
    if Casts(apex, a, b, v) {
      ShadowHolds(apex, a, b, 0.0, hypot, v);
    }
    if s.Holds(v) {
      var offset := Offset(apex, a, b);
      Apart(apex, a, b, hypot);
      var left := TurnedPlane(apex, a.y - apex.y, -(a.x - apex.x), Sign(offset), 0.0);
      var right := TurnedPlane(apex, b.y - apex.y, -(b.x - apex.x), Sign(-offset), 0.0);
      assert WedgeEdge(apex, a, offset, 0.0, hypot) == [left] && WedgeEdge(apex, b, -offset, 0.0, hypot) == [right];
      assert s.planes[0] == FarSide(apex, a, b, 0.0) && s.planes[1] == left && s.planes[2] == right;
      SidesCast(apex, a, b, v);
    }
  }

  /** MayContainSegment never rejects a segment that reaches the shadow. */
  lemma NoLostSegment(apex: Point, a: Point, b: Point, margin: real, hypot: (real, real) -> real, p: Point, q: Point, u: real)
    requires margin >= 0.0 && 0.0 <= u <= 1.0 && Casts(apex, a, b, Along(p, q, u))
    ensures NewSegmentShadow(apex, a, b, margin, hypot).MayContainSegment(p, q)
  {
    var s := NewSegmentShadow(apex, a, b, margin, hypot);
    ShadowHolds(apex, a, b, margin, hypot, Along(p, q, u));
    if !s.degenerate {
      forall i | 0 <= i < |s.planes|
        ensures !(s.planes[i].At(p) > 0.0 && s.planes[i].At(q) > 0.0)
      {
        if s.planes[i].At(p) > 0.0 && s.planes[i].At(q) > 0.0 {
          OutsideAlong(s.planes[i], p, q, u);
        }
      }
    }
  }

  lemma OutsideAlong(plane: Plane, p: Point, q: Point, u: real)
    requires 0.0 <= u <= 1.0 && plane.At(p) > 0.0 && plane.At(q) > 0.0
    ensures !plane.Holds(Along(p, q, u))
  {
    AtAlong(plane, p, q, u);
    MixPositive(u, plane.At(p), plane.At(q));
  }

  lemma MixPositive(u: real, x: real, y: real)
    requires 0.0 <= u <= 1.0 && x > 0.0 && y > 0.0
    ensures (1.0 - u) * x + u * y > 0.0
  {
    if x <= y {
      NonNegMul(u, y - x);
    } else {
      NonNegMul(1.0 - u, x - y);
    }
    assert (1.0 - u) * x + u * y == x + u * (y - x) == y + (1.0 - u) * (x - y);
  }

  // ---- the bounding box ----

  function ClipAll(ring: seq<Point>, planes: seq<Plane>, n: nat): seq<Point>
    requires n <= |planes|
  {
    if n == 0 then ring else Clip(ClipAll(ring, planes, n - 1), planes[n - 1])
  }

  /** BBoxFromPoints. */
  function BoxOf(points: seq<Point>): BBox
    requires |points| > 0
  {
    if |points| == 1 then BBox(points[0].x, points[0].y, points[0].x, points[0].y)
    else BoxOf(points[..|points| - 1]).ExpandToIncludePoint(points[|points| - 1])
  }

  function Grown(b: BBox, margin: real): BBox {
    BBox(b.minX - margin, b.minY - margin, b.maxX + margin, b.maxY + margin)
  }

  /** Bounds: the box around the part of the shadow in bounds, grown by the margin. */
  function ShadowBounds(s: SegmentShadow, bounds: BBox, margin: real): Option<BBox> {
    if !bounds.IsValid() || s.degenerate then Some(bounds)
    else
      var poly := ClipAll(Corners(bounds), s.planes, |s.planes|);
      if |poly| == 0 then None else Some(Grown(BoxOf(poly), margin))
  }

  /** Bounds as the source computes it, clipping by one plane after another. */
  method ComputeBounds(s: SegmentShadow, bounds: BBox, margin: real) returns (r: Option<BBox>)
    ensures r == ShadowBounds(s, bounds, margin)
  {
    if !bounds.IsValid() || s.degenerate {
      return Some(bounds);
    }
    var poly := Corners(bounds);
    for i := 0 to |s.planes|
      invariant poly == ClipAll(Corners(bounds), s.planes, i)
    {
      poly := ClipConvexHalfPlane(poly, s.planes[i]);
    }
    if |poly| == 0 {
      return None;
    }
    return Some(Grown(BoxOf(poly), margin));
  }

  lemma CornersConvex(b: BBox)
    requires b.IsValid()
    ensures Convex(Corners(b))
  {
    var c := Corners(b);
    forall m: nat, k: nat | m < 4 && k < 4
      ensures LeftOfEdge(c, k, c[m])
    {
      NonNegMul(b.maxX - b.minX, b.maxY - b.minY);
    }
  }

  lemma CornersHull(b: BBox, v: Point)
    requires b.ContainsPoint(v)
    ensures InHull(Corners(b), v)
  {
    var c := Corners(b);
    forall gx, gy
      ensures Supports(c, v, gx, gy)
    {
      var k := if gx >= 0.0 then (if gy >= 0.0 then 0 else 3) else (if gy >= 0.0 then 1 else 2);
      LeastProduct(gx, b.minX, b.maxX, v.x);
      LeastProduct(gy, b.minY, b.maxY, v.y);
      CornerBelow(gx, gy, c[k].x, c[k].y, v);
    }
  }

  lemma CornerBelow(gx: real, gy: real, x: real, y: real, v: Point)
    requires gx * x <= gx * v.x && gy * y <= gy * v.y
    ensures Dot(gx, gy, Point(x, y)) <= Dot(gx, gy, v)
  {}

  lemma LeastProduct(g: real, lo: real, hi: real, x: real)
    requires lo <= x <= hi
    ensures g >= 0.0 ==> g * lo <= g * x
    ensures g < 0.0 ==> g * hi <= g * x
  {
    if g >= 0.0 { NonNegMul(g, x - lo); } else { NonNegMul(-g, hi - x); }
  }

  /** Clipping by every plane keeps every point of the hull the planes hold. */
  lemma {:induction false} ClipAllKeeps(ring: seq<Point>, planes: seq<Plane>, n: nat, v: Point)
    requires n <= |planes| && Convex(ring) && InHull(ring, v)
    requires forall i :: 0 <= i < n ==> planes[i].Holds(v)
    ensures Convex(ClipAll(ring, planes, n)) && InHull(ClipAll(ring, planes, n), v)
  {
    if n > 0 {
      ClipAllKeeps(ring, planes, n - 1, v);
      ClipIsConvex(ClipAll(ring, planes, n - 1), planes[n - 1]);
      ClipKeepsHull(ClipAll(ring, planes, n - 1), planes[n - 1], v);
    }
  }

  lemma {:induction false} BoxHas(points: seq<Point>, k: nat)
    requires k < |points|
    ensures BoxOf(points).ContainsPoint(points[k])
  {
    if |points| > 1 {
      if k < |points| - 1 {
        BoxHas(points[..|points| - 1], k);
      } else {
        BoxHas(points[..|points| - 1], 0);
      }
    }
  }

  /** A point of the hull lies in the vertices' box. */
  lemma HullInBox(ring: seq<Point>, v: Point)
    requires InHull(ring, v)
    ensures |ring| > 0 && BoxOf(ring).ContainsPoint(v)
  {
    var west := Witness(ring, v, 1.0, 0.0);
    var east := Witness(ring, v, -1.0, 0.0);
    var south := Witness(ring, v, 0.0, 1.0);
    var north := Witness(ring, v, 0.0, -1.0);
    BoxHas(ring, west);
    BoxHas(ring, east);
    BoxHas(ring, south);
    BoxHas(ring, north);
  }

  /** The box holds every point of bounds the shadow's planes hold; so it is
      absent only when there is none. */
  lemma BoundsHold(s: SegmentShadow, bounds: BBox, margin: real, v: Point)
    requires bounds.ContainsPoint(v) && s.Holds(v) && margin >= 0.0
    ensures ShadowBounds(s, bounds, margin).Some? && ShadowBounds(s, bounds, margin).value.ContainsPoint(v)
  {
    if !s.degenerate {
      CornersConvex(bounds);
      CornersHull(bounds, v);
      ClipAllKeeps(Corners(bounds), s.planes, |s.planes|, v);
      HullInBox(ClipAll(Corners(bounds), s.planes, |s.planes|), v);
    }
  }

  // ---- the box is no larger than it must be ----

  /** v is in bounds and every plane of the first n holds it. */
  ghost predicate Region(bounds: BBox, planes: seq<Plane>, n: nat, v: Point)
    requires n <= |planes|
  {
    bounds.ContainsPoint(v) && forall i :: 0 <= i < n ==> planes[i].Holds(v)
  }

  lemma RegionAlong(bounds: BBox, planes: seq<Plane>, n: nat, p: Point, q: Point, t: real)
    requires n <= |planes| && 0.0 <= t <= 1.0
    requires Region(bounds, planes, n, p) && Region(bounds, planes, n, q)
    ensures Region(bounds, planes, n, Along(p, q, t))
  {
    LerpWithin(p.x, q.x, t);
    LerpWithin(p.y, q.y, t);
    forall i | 0 <= i < n
      ensures planes[i].Holds(Along(p, q, t))
    {
      AtAlong(planes[i], p, q, t);
      NonNegMul(1.0 - t, -planes[i].At(p));
      NonNegMul(t, -planes[i].At(q));
    }
  }

  lemma {:induction false} ClipStays(bounds: BBox, planes: seq<Plane>, src: seq<Point>, n: nat, m: nat)
    requires n < |planes| && m <= |src|
    requires forall k :: 0 <= k < |src| ==> Region(bounds, planes, n, src[k])
    ensures forall k :: 0 <= k < |ClipUpto(src, planes[n], m)| ==> Region(bounds, planes, n + 1, ClipUpto(src, planes[n], m)[k])
  {
    if m > 0 {
      ClipStays(bounds, planes, src, n, m - 1);
      var p, q := Prev(src, m - 1), src[m - 1];
      assert Region(bounds, planes, n, p) && Region(bounds, planes, n, q);
      if planes[n].Holds(p) != planes[n].Holds(q) {
        var t := CrossingOnEdge(p, q, planes[n]);
        RegionAlong(bounds, planes, n, p, q, t);
        assert Region(bounds, planes, n + 1, Crossing(p, q, planes[n]));
      }
    }
  }

  /** Every vertex of the clipped polygon is a point of bounds in the shadow. */
  lemma {:induction false} ClipAllStays(bounds: BBox, planes: seq<Plane>, n: nat)
    requires bounds.IsValid() && n <= |planes|
    ensures forall k :: 0 <= k < |ClipAll(Corners(bounds), planes, n)| ==> Region(bounds, planes, n, ClipAll(Corners(bounds), planes, n)[k])
  {
    if n > 0 {
      ClipAllStays(bounds, planes, n - 1);
      var src := ClipAll(Corners(bounds), planes, n - 1);
      ClipStays(bounds, planes, src, n - 1, |src|);
    }
  }

  lemma {:induction false} BoxSides(points: seq<Point>) returns (w: nat, s: nat, e: nat, n: nat)
    requires |points| > 0
    ensures w < |points| && s < |points| && e < |points| && n < |points|
    ensures BoxOf(points) == BBox(points[w].x, points[s].y, points[e].x, points[n].y)
  {
    var last := |points| - 1;
    if last == 0 {
      w, s, e, n := 0, 0, 0, 0;
    } else {
      w, s, e, n := BoxSides(points[..last]);
      var b := BoxOf(points[..last]);
      if points[last].x < b.minX { w := last; }
      if points[last].y < b.minY { s := last; }
      if points[last].x > b.maxX { e := last; }
      if points[last].y > b.maxY { n := last; }
    }
  }

  /** Each side of the box, less the margin, is touched by a point of bounds in
      the shadow: the box is exactly the bounding box of that region. */
  lemma BoundsTouch(s: SegmentShadow, bounds: BBox, margin: real) returns (west: Point, south: Point, east: Point, north: Point)
    requires bounds.IsValid() && !s.degenerate && ShadowBounds(s, bounds, margin).Some?
    ensures forall v :: v in {west, south, east, north} ==> bounds.ContainsPoint(v) && s.Holds(v)
    ensures ShadowBounds(s, bounds, margin).value == Grown(BBox(west.x, south.y, east.x, north.y), margin)
  {
    var poly := ClipAll(Corners(bounds), s.planes, |s.planes|);
    ClipAllStays(bounds, s.planes, |s.planes|);
    var i, j, k, l := BoxSides(poly);
    west, south, east, north := poly[i], poly[j], poly[k], poly[l];
  }
}
