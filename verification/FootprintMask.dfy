/** Which points stand strictly inside a building: the even-odd test of a ring,
    and the mask that narrows it with bounding boxes and the spatial index. */
module FootprintMask {
  import opened Geometry
  import opened GridLayout
  import opened BBoxGrids
  import opened GridCursors

  /** DistancePointToSegment(p, a, b) < 1e-12, as near(p, a, b). */
  type Near = (Point, Point, Point) -> bool

  // ---- the even-odd test ----

  predicate Straddles(a: Point, b: Point, y: real) { (a.y > y) != (b.y > y) }

  /** Where the line through a and b crosses height y, left of no vertex. */
  function CrossingX(a: Point, b: Point, y: real): real
    requires a.y != b.y
  {
    Interpolate(b.x - a.x, y - a.y, b.y - a.y) + a.x
  }

  function Interpolate(w: real, n: real, d: real): real
    requires d != 0.0
  {
    w * n / d
  }

  /** The edge from b to a crosses the ray from p to the right. */
  predicate Crosses(p: Point, a: Point, b: Point) {
    Straddles(a, b, p.y) && p.x < CrossingX(a, b, p.y)
  }

  /** Whether an odd number of the first n edges cross; edge k ends at vertex k. */
  predicate OddUpto(p: Point, ring: seq<Point>, n: nat)
    requires n <= |ring|
  {
    n > 0 && OddUpto(p, ring, n - 1) != Crosses(p, ring[n - 1], Prev(ring, n - 1))
  }

  predicate EvenOdd(p: Point, ring: seq<Point>) { OddUpto(p, ring, |ring|) }

  // ---- what crossing means ----

  /** The edge passes p's height, once counting its lower end and not its upper,
      and passes it to the right of p: p lies left of the edge going up. */
  ghost predicate PassesRight(p: Point, a: Point, b: Point) {
    || (a.y <= p.y < b.y && Cross(a, b, p) > 0.0)
    || (b.y <= p.y < a.y && Cross(b, a, p) > 0.0)
  }

  lemma BeforeQuotient(v: real, m: real, d: real)
    requires d != 0.0
    ensures d > 0.0 ==> (m / d > v <==> m > v * d)
    ensures d < 0.0 ==> (m / d > v <==> m < v * d)
  {
    if d > 0.0 {
      DivCompare(m, v, d);
    } else {
      DivCompare(-m, v, -d);
      SameQuotient(m, d);
    }
  }

  lemma SameQuotient(m: real, d: real)
    requires d != 0.0
    ensures -m / -d == m / d
  {
    DivMul(-m, -d);
    DivMul(m, d);
    Negated(-m / -d, m / d, d);
  }

  lemma CrossesRising(x: real, y: real, x0: real, y0: real, x1: real, y1: real)
    requires y1 > y0
    ensures Interpolate(x1 - x0, y - y0, y1 - y0) + x0 > x <==> Cross(Point(x0, y0), Point(x1, y1), Point(x, y)) > 0.0
  {
    BeforeQuotient(x - x0, (x1 - x0) * (y - y0), y1 - y0);
  }

  lemma CrossesFalling(x: real, y: real, x0: real, y0: real, x1: real, y1: real)
    requires y1 < y0
    ensures Interpolate(x1 - x0, y - y0, y1 - y0) + x0 > x <==> Cross(Point(x1, y1), Point(x0, y0), Point(x, y)) > 0.0
  {
    BeforeQuotient(x - x0, (x1 - x0) * (y - y0), y1 - y0);
    CrossTurned(Point(x0, y0), Point(x1, y1), Point(x, y));
  }

  lemma CrossTurned(a: Point, b: Point, p: Point)
    ensures Cross(b, a, p) == -Cross(a, b, p)
  {}

  /** The computed test is the geometric one. */
  lemma CrossesExactly(p: Point, a: Point, b: Point)
    ensures Crosses(p, a, b) <==> PassesRight(p, a, b)
  {
    if a.y < b.y {
      CrossesRising(p.x, p.y, a.x, a.y, b.x, b.y);
    } else if b.y < a.y {
      CrossesFalling(p.x, p.y, a.x, a.y, b.x, b.y);
    }
  }

  lemma InterpolateIs(w: real, n: real, d: real)
    requires d != 0.0
    ensures Interpolate(w, n, d) == n / d * w
  {
    DivMul(w * n, d);
    DivMul(n, d);
    assert n / d * w * d == w * n;
    SameTimes(w * n / d, n / d * w, d);
  }

  /** A straddling edge's crossing is the point of the edge at that height. */
  lemma CrossingOnEdge(a: Point, b: Point, y: real) returns (t: real)
    requires Straddles(a, b, y)
    ensures 0.0 <= t <= 1.0 && Point(CrossingX(a, b, y), y) == Along(a, b, t)
  {
    t := (y - a.y) / (b.y - a.y);
    InterpolateIs(b.x - a.x, y - a.y, b.y - a.y);
    DivMul(y - a.y, b.y - a.y);
    if b.y > a.y {
      DivCompare(y - a.y, 1.0, b.y - a.y);
      DivMono(0.0, y - a.y, b.y - a.y);
    } else {
      SameQuotient(y - a.y, b.y - a.y);
      DivCompare(a.y - y, 1.0, a.y - b.y);
      DivMono(0.0, a.y - y, a.y - b.y);
    }
  }

  /** The edges that pass to the right of p. */
  ghost function RightEdges(p: Point, ring: seq<Point>, n: nat): set<nat>
    requires n <= |ring|
  {
    set k: nat | k < n && PassesRight(p, Prev(ring, k), ring[k])
  }

  lemma RightEdgesNext(p: Point, ring: seq<Point>, k: nat)
    requires k < |ring|
    ensures RightEdges(p, ring, k + 1) ==
            if PassesRight(p, Prev(ring, k), ring[k]) then RightEdges(p, ring, k) + {k} else RightEdges(p, ring, k)
  {
    forall i: nat | i < k
      ensures i in RightEdges(p, ring, k + 1) <==> i in RightEdges(p, ring, k)
    {}
  }

  lemma PassesRightTurned(p: Point, a: Point, b: Point)
    ensures PassesRight(p, a, b) == PassesRight(p, b, a)
  {}

  lemma CountNext(s: set<nat>, k: nat)
    requires forall i :: i in s ==> i < k
    ensures |s + {k}| == |s| + 1
  {
    assert k !in s;
  }

  lemma RightCountNext(p: Point, ring: seq<Point>, k: nat) returns (crosses: bool)
    requires k < |ring|
    ensures crosses == Crosses(p, ring[k], Prev(ring, k))
    ensures |RightEdges(p, ring, k + 1)| == |RightEdges(p, ring, k)| + if crosses then 1 else 0
  {
    crosses := PassesRight(p, Prev(ring, k), ring[k]);
    CrossesExactly(p, ring[k], Prev(ring, k));
    PassesRightTurned(p, ring[k], Prev(ring, k));
    RightEdgesNext(p, ring, k);
    CountNext(RightEdges(p, ring, k), k);
  }

  lemma Flip(odd: bool, flip: bool, before: nat, after: nat)
    requires (odd <==> before % 2 == 1) && after == before + if flip then 1 else 0
    ensures (odd != flip) <==> after % 2 == 1
  {}

  /** The even-odd test counts the edges to the right. */
  lemma {:induction false} OddCounts(p: Point, ring: seq<Point>, n: nat)
    requires n <= |ring|
    ensures OddUpto(p, ring, n) <==> |RightEdges(p, ring, n)| % 2 == 1
  {
    if n == 0 {
      assert RightEdges(p, ring, 0) == {};
    } else {
      OddCounts(p, ring, n - 1);
      var crosses := RightCountNext(p, ring, n - 1);
      Flip(OddUpto(p, ring, n - 1), crosses, |RightEdges(p, ring, n - 1)|, |RightEdges(p, ring, n)|);
    }
  }

  // ---- the ring test ----

  ghost predicate OnEdgeUpto(p: Point, ring: seq<Point>, near: Near, n: nat)
    requires n <= |ring|
  {
    exists k :: 0 <= k < n && near(p, Prev(ring, k), ring[k])
  }

  ghost predicate OnEdge(p: Point, ring: seq<Point>, near: Near) { OnEdgeUpto(p, ring, near, |ring|) }

  /** pointInRingStrict. */
  method PointInRingStrict(p: Point, ring: seq<Point>, near: Near) returns (inside: bool, onEdge: bool)
    ensures onEdge <==> OnEdge(p, ring, near)
    ensures inside <==> !onEdge && EvenOdd(p, ring)
    ensures inside <==> !onEdge && |RightEdges(p, ring, |ring|)| % 2 == 1
  {
    OddCounts(p, ring, |ring|);
    inside := false;
    for i := 0 to |ring|
      invariant inside == OddUpto(p, ring, i) && !OnEdgeUpto(p, ring, near, i)
    {
      var pi, pj := ring[i], Prev(ring, i);
      if near(p, pj, pi) {
        return false, true;
      }
      if Crosses(p, pi, pj) {
        inside := !inside;
      }
    }
    return inside, false;
  }

  /** A ring too short to enclose anything counts as no hole. */
  ghost predicate InHole(p: Point, ring: seq<Point>, near: Near) {
    |ring| >= 4 && (OnEdge(p, ring, near) || EvenOdd(p, ring))
  }

  predicate Closed(rings: seq<seq<Point>>) { |rings| > 0 && |rings[0]| >= 4 }

  /** Strictly inside: inside the exterior, outside every hole, on no edge. */
  ghost predicate Interior(p: Point, rings: seq<seq<Point>>, near: Near) {
    && Closed(rings)
    && EvenOdd(p, rings[0]) && !OnEdge(p, rings[0], near)
    && forall i :: 1 <= i < |rings| ==> !InHole(p, rings[i], near)
  }

  /** PointInPolygonInterior. */
  method PointInPolygonInterior(p: Point, rings: seq<seq<Point>>, near: Near) returns (b: bool)
    ensures b <==> Interior(p, rings, near)
  {
    if |rings| == 0 || |rings[0]| < 4 { return false; }
    var inside, onEdge := PointInRingStrict(p, rings[0], near);
    if onEdge || !inside { return false; }
    for i := 1 to |rings|
      invariant forall j :: 1 <= j < i ==> !InHole(p, rings[j], near)
    {
      if |rings[i]| >= 4 {
        var inHole, onHoleEdge := PointInRingStrict(p, rings[i], near);
        if onHoleEdge || inHole { return false; }
      }
    }
    return true;
  }

  // ---- a box decides every point outside it ----

  predicate Holds(box: BBox, ring: seq<Point>) {
    forall k :: 0 <= k < |ring| ==> box.ContainsPoint(ring[k])
  }

  /** A straddling edge crosses a height between its ends. */
  lemma CrossingBetween(a: Point, b: Point, y: real)
    requires Straddles(a, b, y)
    ensures Min(a.x, b.x) <= CrossingX(a, b, y) <= Max(a.x, b.x)
  {
    InterpolateBetween(b.x - a.x, y - a.y, b.y - a.y);
  }

  lemma InterpolateBetween(w: real, n: real, d: real)
    requires (d > 0.0 && 0.0 <= n <= d) || (d < 0.0 && d <= n <= 0.0)
    ensures Min(0.0, w) <= Interpolate(w, n, d) <= Max(0.0, w)
  {
    if d > 0.0 {
      ProductBetween(w, n, d);
      QuotientBetween(w * n, Min(0.0, w), Max(0.0, w), d);
    } else {
      ProductBetween(w, -n, -d);
      QuotientBetween(w * -n, Min(0.0, w), Max(0.0, w), -d);
      NegateBoth(w, n, d);
    }
  }

  lemma ProductBetween(w: real, n: real, d: real)
    requires 0.0 <= n <= d
    ensures Min(0.0, w) * d <= w * n <= Max(0.0, w) * d
  {
    if w >= 0.0 {
      MulMono(n, d, w);
      NonNegMul(w, n);
    } else {
      MulMono(n, d, -w);
      NonNegMul(-w, n);
    }
  }

  lemma QuotientBetween(m: real, lo: real, hi: real, d: real)
    requires d > 0.0 && lo * d <= m <= hi * d
    ensures lo <= m / d <= hi
  {
    DivCompare(m, lo, d);
    DivCompare(m, hi, d);
  }

  lemma NegateBoth(w: real, n: real, d: real)
    requires d != 0.0
    ensures w * -n / -d == w * n / d
  {
    DivMul(w * -n, -d);
    DivMul(w * n, d);
    Negated(w * -n / -d, w * n / d, d);
  }

  lemma Negated(x: real, y: real, d: real)
    requires d != 0.0 && x * -d == -(y * d)
    ensures x == y
  {}

  /** Going round a ring, the straddling edges so far are odd in number exactly
      when the last vertex and the one it came from lie on different sides. */
  lemma {:induction false} StraddlesTelescope(p: Point, ring: seq<Point>, n: nat)
    requires 0 < n <= |ring|
    requires forall k :: 0 <= k < |ring| ==> (Crosses(p, ring[k], Prev(ring, k)) <==> Straddles(ring[k], Prev(ring, k), p.y))
    ensures OddUpto(p, ring, n) <==> (ring[n - 1].y > p.y) != (ring[|ring| - 1].y > p.y)
  {
    if n > 1 {
      StraddlesTelescope(p, ring, n - 1);
    }
  }

  lemma {:induction false} NoneCross(p: Point, ring: seq<Point>, n: nat)
    requires n <= |ring|
    requires forall k :: 0 <= k < |ring| ==> !Crosses(p, ring[k], Prev(ring, k))
    ensures !OddUpto(p, ring, n)
  {
    if n > 0 {
      NoneCross(p, ring, n - 1);
    }
  }

  /** A point outside a box that holds the ring crosses an even number of edges. */
  lemma OutsideIsEven(p: Point, ring: seq<Point>, box: BBox)
    requires Holds(box, ring) && !box.ContainsPoint(p)
    ensures !EvenOdd(p, ring)
  {
    forall k | 0 <= k < |ring| && Straddles(ring[k], Prev(ring, k), p.y)
      ensures Min(ring[k].x, Prev(ring, k).x) <= CrossingX(ring[k], Prev(ring, k), p.y) <= Max(ring[k].x, Prev(ring, k).x)
    {
      CrossingBetween(ring[k], Prev(ring, k), p.y);
    }
    if |ring| > 0 && p.x < box.minX {
      StraddlesTelescope(p, ring, |ring|);
    } else {
      NoneCross(p, ring, |ring|);
    }
  }

  /** The closed ring round a rectangle. */
  function Outline(b: BBox): seq<Point> { Corners(b) + [Corners(b)[0]] }

  lemma UprightEdge(p: Point, x: real, y0: real, y1: real)
    ensures Crosses(p, Point(x, y0), Point(x, y1)) <==> Straddles(Point(x, y0), Point(x, y1), p.y) && p.x < x
  {
    if Straddles(Point(x, y0), Point(x, y1), p.y) {
      CrossingBetween(Point(x, y0), Point(x, y1), p.y);
    }
  }

  /** On a rectangle the even-odd test is the rectangle, without its far sides. */
  lemma RectangleIsItsInterior(p: Point, b: BBox)
    requires b.IsValid()
    ensures EvenOdd(p, Outline(b)) <==> b.minX <= p.x < b.maxX && b.minY <= p.y < b.maxY
  {
    var ring := Outline(b);
    UprightEdge(p, b.maxX, b.maxY, b.minY);
    UprightEdge(p, b.minX, b.minY, b.maxY);
    assert !OddUpto(p, ring, 1);
    assert !OddUpto(p, ring, 2);
    assert OddUpto(p, ring, 3) <==> Crosses(p, ring[2], ring[1]);
    assert OddUpto(p, ring, 4) <==> OddUpto(p, ring, 3);
  }

  // ---- the mask ----

  /** ringBBox: the ring's bounding box. */
  method RingBBox(ring: seq<Point>) returns (box: BBox)
    requires |ring| > 0
    ensures Holds(box, ring)
    ensures forall o: BBox :: Holds(o, ring) ==> box.Within(o)
  {
    box := BBox(ring[0].x, ring[0].y, ring[0].x, ring[0].y);
    for i := 0 to |ring|
      invariant forall k :: 0 <= k < i ==> box.ContainsPoint(ring[k])
      invariant forall o: BBox :: Holds(o, ring) ==> box.Within(o)
    {
      box := box.ExpandToIncludePoint(ring[i]);
    }
  }

  ghost predicate Boxed(polys: seq<seq<seq<Point>>>, boxes: seq<BBox>) {
    |boxes| == |polys| && forall k :: 0 <= k < |polys| ==> Closed(polys[k]) && Holds(boxes[k], polys[k][0])
  }

  /** footprintBoxes: the footprints that can contain something, with their boxes. */
  method FootprintBoxes(footprints: seq<seq<seq<Point>>>) returns (polys: seq<seq<seq<Point>>>, boxes: seq<BBox>)
    ensures forall f :: f in polys <==> f in footprints && Closed(f)
    ensures Boxed(polys, boxes)
  {
    polys, boxes := [], [];
    for i := 0 to |footprints|
      invariant forall f :: f in polys <==> f in footprints[..i] && Closed(f)
      invariant Boxed(polys, boxes)
    {
      var rings := footprints[i];
      assert footprints[..i + 1] == footprints[..i] + [rings];
      if Closed(rings) {
        var box := RingBBox(rings[0]);
        polys, boxes := polys + [rings], boxes + [box];
      }
    }
    assert footprints[..|footprints|] == footprints;
  }

  ghost predicate CursorOver(cursor: BBoxGridCursor?, boxes: seq<BBox>)
    reads if cursor == null then {} else {cursor, cursor.marks, cursor.touched}
  {
    cursor != null ==> cursor.Ready() && cursor.grid.layout.boxes == boxes
  }

  /** The footprints to test for a point: the index's, or all without an index. */
  method Candidates(cursor: BBoxGridCursor?, p: Point, ghost boxes: seq<BBox>, n: nat) returns (candidates: seq<nat>)
    requires CursorOver(cursor, boxes) && |boxes| == n
    modifies if cursor == null then {} else {cursor, cursor.marks, cursor.touched}
    ensures CursorOver(cursor, boxes)
    ensures forall k: nat :: k < n && boxes[k].ContainsPoint(p) ==> k in candidates
    ensures forall j :: 0 <= j < |candidates| ==> candidates[j] < n
  {
    if cursor != null {
      var q := BBox(p.x, p.y, p.x, p.y);
      candidates := cursor.Query(q, []);
      assert candidates == Ascending(cursor.grid.layout.Hits(q), n);
    } else {
      candidates := seq(n, i => i);
      forall k: nat | k < n
        ensures k in candidates
      {
        assert candidates[k] == k;
      }
    }
  }

  ghost predicate InAny(p: Point, footprints: seq<seq<seq<Point>>>, near: Near) {
    exists f :: f in footprints && Interior(p, f, near)
  }

  method InsideCandidate(p: Point, polys: seq<seq<seq<Point>>>, boxes: seq<BBox>, candidates: seq<nat>, near: Near) returns (b: bool)
    requires Boxed(polys, boxes)
    requires forall k: nat :: k < |polys| && boxes[k].ContainsPoint(p) ==> k in candidates
    requires forall j :: 0 <= j < |candidates| ==> candidates[j] < |polys|
    ensures b <==> InAny(p, polys, near)
  {
    for c := 0 to |candidates|
      invariant forall j :: 0 <= j < c ==> !(boxes[candidates[j]].ContainsPoint(p) && Interior(p, polys[candidates[j]], near))
    {
      var k := candidates[c];
      if boxes[k].ContainsPoint(p) {
        var inside := PointInPolygonInterior(p, polys[k], near);
        if inside {
          return true;
        }
      }
    }
    forall f | f in polys
      ensures !Interior(p, f, near)
    {
      var k :| 0 <= k < |polys| && polys[k] == f;
      if !boxes[k].ContainsPoint(p) {
        OutsideIsEven(p, f[0], boxes[k]);
      }
    }
    return false;
  }

  /** MaskPointsInFootprints: a point is masked exactly when it lies strictly
      inside some footprint, whatever order the footprints come in. */
  method MaskPointsInFootprints(points: seq<Point>, footprints: seq<seq<seq<Point>>>, near: Near, squareRoot: real -> real)
    returns (masked: array<bool>)
    ensures fresh(masked) && masked.Length == |points|
    ensures forall i :: 0 <= i < |points| ==> (masked[i] <==> InAny(points[i], footprints, near))
  {
    masked := new bool[|points|](_ => false);
    if |points| == 0 { return; }
    var polys, boxes := FootprintBoxes(footprints);
    KeptDecide(footprints, polys, near);
    if |polys| == 0 { return; }
    var grid := NewBBoxGrid(boxes, squareRoot);
    var cursor: BBoxGridCursor? := null;
    if grid.Some? {
      cursor := new BBoxGridCursor(grid.value);
    }
    for i := 0 to |points|
      invariant CursorOver(cursor, boxes) && (cursor != null ==> fresh(cursor) && fresh(cursor.marks) && fresh(cursor.touched))
      invariant forall j :: 0 <= j < i ==> (masked[j] <==> InAny(points[j], polys, near))
    {
      var candidates := Candidates(cursor, points[i], boxes, |polys|);
      masked[i] := InsideCandidate(points[i], polys, boxes, candidates, near);
    }
  }

  /** Dropping the footprints without a closed exterior changes no answer. */
  lemma KeptDecide(footprints: seq<seq<seq<Point>>>, polys: seq<seq<seq<Point>>>, near: Near)
    requires forall f :: f in polys <==> f in footprints && Closed(f)
    ensures forall p :: InAny(p, polys, near) <==> InAny(p, footprints, near)
  {
    forall p
      ensures InAny(p, polys, near) <==> InAny(p, footprints, near)
    {
      if InAny(p, footprints, near) {
        var f :| f in footprints && Interior(p, f, near);
        assert f in polys;
      }
    }
  }
}
