/** Clipping a convex ring against a half-plane, Sutherland-Hodgman style, and
    why what it keeps is exactly what the half-plane keeps of the ring's hull. */
module HalfPlaneClip {
  import opened Geometry

  /** The half-plane of points at most 0 from its boundary. */
  datatype Plane = Plane(origin: Point, nx: real, ny: real, limit: real) {

    /** How far q is outside; at most 0 means inside. */
    function At(q: Point): real {
      nx * (q.x - origin.x) + ny * (q.y - origin.y) - limit
    }

    predicate Holds(q: Point) { At(q) <= 0.0 }
  }

  /** Where the edge from p to q meets the plane's boundary. */
  function Crossing(p: Point, q: Point, plane: Plane): Point
    requires plane.Holds(p) != plane.Holds(q)
  {
    Along(p, q, plane.At(p) / (plane.At(p) - plane.At(q)))
  }

  /** What one edge contributes: its crossing, if it has one, then its end, if kept. */
  function Emit(p: Point, q: Point, plane: Plane): seq<Point> {
    (if plane.Holds(q) != plane.Holds(p) then [Crossing(p, q, plane)] else []) +
    (if plane.Holds(q) then [q] else [])
  }

  function ClipUpto(src: seq<Point>, plane: Plane, n: nat): seq<Point>
    requires n <= |src|
  {
    if n == 0 then [] else ClipUpto(src, plane, n - 1) + Emit(Prev(src, n - 1), src[n - 1], plane)
  }

  function Clip(src: seq<Point>, plane: Plane): seq<Point> { ClipUpto(src, plane, |src|) }

  /** clipConvexHalfPlane: one pass over the edges. */
  method ClipConvexHalfPlane(src: seq<Point>, plane: Plane) returns (dst: seq<Point>)
    ensures dst == Clip(src, plane)
  {
    dst := [];
    if |src| == 0 {
      return;
    }
    var previous := src[|src| - 1];
    var previousValue := plane.At(previous);
    for i := 0 to |src|
      invariant i < |src| ==> previous == Prev(src, i)
      invariant previousValue == plane.At(previous)
      invariant dst == ClipUpto(src, plane, i)
    {
      var current := src[i];
      var currentValue := plane.At(current);
      ghost var before := dst;
      if (currentValue <= 0.0) != (previousValue <= 0.0) {
        var t := previousValue / (previousValue - currentValue);
        dst := dst + [Along(previous, current, t)];
      }
      if currentValue <= 0.0 {
        dst := dst + [current];
      }
      assert dst == before + Emit(previous, current, plane);
      previous, previousValue := current, currentValue;
    }
  }

  // ---- linear functionals along an edge ----

  lemma CrossAlong(u: Point, w: Point, p: Point, q: Point, t: real)
    ensures Cross(u, w, Along(p, q, t)) == (1.0 - t) * Cross(u, w, p) + t * Cross(u, w, q)
  {}

  lemma AtAlong(plane: Plane, p: Point, q: Point, t: real)
    ensures plane.At(Along(p, q, t)) == (1.0 - t) * plane.At(p) + t * plane.At(q)
  {}

  /** Between values of opposite sign the zero lies a fraction of the way along. */
  lemma Fraction(a: real, b: real, t: real)
    requires (a <= 0.0) != (b <= 0.0)
    requires t == a / (a - b)
    ensures 0.0 <= t <= 1.0
    ensures t * (a - b) == a
    ensures (1.0 - t) * a + t * b == 0.0
  {
    DivMul(a, a - b);
    assert (1.0 - t) * (a - b) == -b;
    if a > b {
      FactorSign(t, a - b);
      FactorSign(1.0 - t, a - b);
    } else {
      FactorSign(-t, a - b);
      FactorSign(-(1.0 - t), a - b);
    }
  }

  /** The crossing lies on the edge, and on the boundary. */
  lemma CrossingOnEdge(p: Point, q: Point, plane: Plane) returns (t: real)
    requires plane.Holds(p) != plane.Holds(q)
    ensures 0.0 <= t <= 1.0 && Crossing(p, q, plane) == Along(p, q, t)
    ensures plane.At(Crossing(p, q, plane)) == 0.0
    ensures t * (plane.At(p) - plane.At(q)) == plane.At(p)
  {
    t := plane.At(p) / (plane.At(p) - plane.At(q));
    Fraction(plane.At(p), plane.At(q), t);
    AtAlong(plane, p, q, t);
  }

  // ---- convex rings ----

  ghost predicate LeftOfEdge(ring: seq<Point>, k: nat, s: Point)
    requires k < |ring|
  {
    Cross(Prev(ring, k), ring[k], s) >= 0.0
  }

  ghost predicate LeftOfAll(ring: seq<Point>, s: Point) {
    forall k: nat :: k < |ring| ==> LeftOfEdge(ring, k, s)
  }

  /** Every vertex lies on or to the left of every edge; edges may be degenerate. */
  ghost predicate Convex(ring: seq<Point>) {
    forall m: nat :: m < |ring| ==> LeftOfAll(ring, ring[m])
  }

  /** What the half-plane keeps of the ring. */
  ghost predicate Kept(src: seq<Point>, plane: Plane, s: Point) {
    plane.Holds(s) && LeftOfAll(src, s)
  }

  /** The pair u, w can be an edge of a convex ring of kept points. */
  ghost predicate PairOK(src: seq<Point>, plane: Plane, u: Point, w: Point) {
    forall s :: Kept(src, plane, s) ==> Cross(u, w, s) >= 0.0
  }

  lemma LeftOfAllAlong(ring: seq<Point>, p: Point, q: Point, t: real)
    requires LeftOfAll(ring, p) && LeftOfAll(ring, q) && 0.0 <= t <= 1.0
    ensures LeftOfAll(ring, Along(p, q, t))
  {
    forall k: nat | k < |ring|
      ensures LeftOfEdge(ring, k, Along(p, q, t))
    {
      var u, w := Prev(ring, k), ring[k];
      assert LeftOfEdge(ring, k, p) && LeftOfEdge(ring, k, q);
      CrossAlong(u, w, p, q, t);
      NonNegMul(1.0 - t, Cross(u, w, p));
      NonNegMul(t, Cross(u, w, q));
    }
  }

  lemma PrevIsVertex(ring: seq<Point>, k: nat)
    requires Convex(ring) && k < |ring|
    ensures LeftOfAll(ring, Prev(ring, k)) && LeftOfAll(ring, ring[k])
  {
    assert LeftOfAll(ring, ring[|ring| - 1]);
    if k > 0 { assert LeftOfAll(ring, ring[k - 1]); }
  }

  /** Part of an edge has the same left side as the edge. */
  lemma SubEdge(p: Point, q: Point, a: real, b: real, s: Point)
    requires a <= b && Cross(p, q, s) >= 0.0
    ensures Cross(Along(p, q, a), Along(p, q, b), s) >= 0.0
  {
    assert Cross(Along(p, q, a), Along(p, q, b), s) == (b - a) * Cross(p, q, s);
    NonNegMul(b - a, Cross(p, q, s));
  }

  // ---- the boundary line ----

  /** How far along the boundary the step from u to w goes. */
  function Slide(plane: Plane, u: Point, w: Point): real {
    plane.nx * (w.y - u.y) - plane.ny * (w.x - u.x)
  }

  /** The squared length of the plane's normal. */
  function Norm(plane: Plane): real { SumSquares(plane.nx, plane.ny) }

  function SumSquares(x: real, y: real): real { Times(x, x) + Times(y, y) }

  lemma StepAlongBoundary(plane: Plane, u: Point, w: Point)
    requires plane.At(u) == plane.At(w)
    ensures Norm(plane) * (w.x - u.x) == -plane.ny * Slide(plane, u, w)
    ensures Norm(plane) * (w.y - u.y) == plane.nx * Slide(plane, u, w)
  {
    assert Norm(plane) * (w.x - u.x) == plane.nx * (plane.At(w) - plane.At(u)) - plane.ny * Slide(plane, u, w);
    assert Norm(plane) * (w.y - u.y) == plane.ny * (plane.At(w) - plane.At(u)) + plane.nx * Slide(plane, u, w);
  }

  lemma SumOfSquares(x: real, y: real)
    requires x != 0.0 || y != 0.0
    ensures SumSquares(x, y) > 0.0
  {
    Square(x);
    Square(y);
  }

  lemma FlatPlane(plane: Plane, p: Point, q: Point)
    requires plane.nx == 0.0 && plane.ny == 0.0
    ensures plane.At(p) == plane.At(q)
  {}

  lemma NormPositive(plane: Plane, p: Point, q: Point)
    requires plane.At(p) != plane.At(q)
    ensures Norm(plane) > 0.0
  {
    if plane.nx == 0.0 && plane.ny == 0.0 {
      FlatPlane(plane, p, q);
    }
    SumOfSquares(plane.nx, plane.ny);
  }

  /** A boundary point left of an edge that leaves the half-plane lies forward
      of that edge's own crossing, and backward of it for an edge that enters. */
  lemma SlideFromEdge(plane: Plane, p: Point, q: Point, u: Point, c: Point)
    requires Cross(p, q, u) == 0.0 && Cross(p, q, c) >= 0.0
    requires plane.At(u) == plane.At(c)
    ensures plane.At(q) > plane.At(p) ==> Slide(plane, u, c) >= 0.0
    ensures plane.At(q) < plane.At(p) ==> Slide(plane, u, c) <= 0.0
  {
    if plane.At(q) != plane.At(p) {
      NormPositive(plane, p, q);
      SlideScales(plane, p, q, u, c);
      NonNegMul(Norm(plane), Cross(p, q, c));
      FactorSign(Slide(plane, u, c), plane.At(q) - plane.At(p));
    }
  }

  lemma SlideScales(plane: Plane, p: Point, q: Point, u: Point, c: Point)
    requires Cross(p, q, u) == 0.0 && plane.At(u) == plane.At(c)
    ensures Norm(plane) * Cross(p, q, c) == Slide(plane, u, c) * (plane.At(q) - plane.At(p))
  {
    StepAlongBoundary(plane, u, c);
    StepRise(plane, p, q);
    CrossStep(p, q, u, c);
    SlideScaled(Norm(plane), q.x - p.x, q.y - p.y, c.x - u.x, c.y - u.y, plane.nx, plane.ny, Slide(plane, u, c));
  }

  lemma StepRise(plane: Plane, p: Point, q: Point)
    ensures (q.x - p.x) * plane.nx + (q.y - p.y) * plane.ny == plane.At(q) - plane.At(p)
  {}

  lemma CrossStep(p: Point, q: Point, u: Point, c: Point)
    ensures Cross(p, q, c) - Cross(p, q, u) == (q.x - p.x) * (c.y - u.y) - (q.y - p.y) * (c.x - u.x)
  {}

  lemma SlideScaled(n: real, dx: real, dy: real, ex: real, ey: real, nx: real, ny: real, k: real)
    requires n * ex == -ny * k && n * ey == nx * k
    ensures n * (dx * ey - dy * ex) == k * (dx * nx + dy * ny)
  {
    assert n * (dx * ey - dy * ex) == dx * (n * ey) - dy * (n * ex);
  }

  /** The cut from a forward pair of boundary points has the half-plane on its left. */
  lemma CutEdge(plane: Plane, u: Point, w: Point, s: Point)
    requires plane.At(u) == 0.0 == plane.At(w) && plane.Holds(s)
    requires Slide(plane, u, w) >= 0.0 && Norm(plane) > 0.0
    ensures Cross(u, w, s) >= 0.0
  {
    StepAlongBoundary(plane, u, w);
    SlideScaled(Norm(plane), s.x - u.x, s.y - u.y, w.x - u.x, w.y - u.y, plane.nx, plane.ny, Slide(plane, u, w));
    assert (s.x - u.x) * plane.nx + (s.y - u.y) * plane.ny == plane.At(s);
    NonNegMul(Slide(plane, u, w), -plane.At(s));
    assert Cross(u, w, s) == -((s.x - u.x) * (w.y - u.y) - (s.y - u.y) * (w.x - u.x));
    FactorSign(Cross(u, w, s), Norm(plane));
  }

  // ---- the clipped ring is convex ----

  /** v is where some edge leaves the half-plane. */
  ghost predicate IsExit(src: seq<Point>, plane: Plane, v: Point) {
    exists k: nat :: k < |src| && ExitAt(src, plane, k) && v == Crossing(Prev(src, k), src[k], plane)
  }

  ghost predicate IsEntry(src: seq<Point>, plane: Plane, v: Point) {
    exists k: nat :: k < |src| && EntryAt(src, plane, k) && v == Crossing(Prev(src, k), src[k], plane)
  }

  ghost predicate ExitAt(src: seq<Point>, plane: Plane, k: nat)
    requires k < |src|
  {
    plane.Holds(Prev(src, k)) && !plane.Holds(src[k])
  }

  ghost predicate EntryAt(src: seq<Point>, plane: Plane, k: nat)
    requires k < |src|
  {
    !plane.Holds(Prev(src, k)) && plane.Holds(src[k])
  }

  /** A crossing between two vertices of a convex ring is kept. */
  lemma CrossingKept(src: seq<Point>, plane: Plane, p: Point, q: Point)
    requires LeftOfAll(src, p) && LeftOfAll(src, q) && plane.Holds(p) != plane.Holds(q)
    ensures Kept(src, plane, Crossing(p, q, plane)) && plane.At(Crossing(p, q, plane)) == 0.0
  {
    var t := CrossingOnEdge(p, q, plane);
    LeftOfAllAlong(src, p, q, t);
  }

  /** The pieces of edge k that a clip can emit are good edges. */
  lemma EdgePieces(src: seq<Point>, plane: Plane, k: nat)
    requires k < |src|
    ensures PairOK(src, plane, Prev(src, k), src[k])
    ensures plane.Holds(Prev(src, k)) != plane.Holds(src[k]) ==>
      PairOK(src, plane, Prev(src, k), Crossing(Prev(src, k), src[k], plane)) &&
      PairOK(src, plane, Crossing(Prev(src, k), src[k], plane), src[k])
  {
    var p, q := Prev(src, k), src[k];
    forall s | Kept(src, plane, s)
      ensures Cross(p, q, s) >= 0.0
    {
      assert LeftOfEdge(src, k, s);
    }
    if plane.Holds(p) != plane.Holds(q) {
      var t := CrossingOnEdge(p, q, plane);
      assert Along(p, q, 0.0) == p && Along(p, q, 1.0) == q;
      forall s | Kept(src, plane, s)
        ensures Cross(p, Along(p, q, t), s) >= 0.0 && Cross(Along(p, q, t), q, s) >= 0.0
      {
        SubEdge(p, q, 0.0, t, s);
        SubEdge(p, q, t, 1.0, s);
      }
    }
  }

  lemma CrossOnEdge(p: Point, q: Point, t: real)
    ensures Cross(p, q, Along(p, q, t)) == 0.0
  {}

  /** From an exit to a boundary point the convex ring allows, the slide is forward. */
  lemma SlideFromExit(src: seq<Point>, plane: Plane, k: nat, c: Point)
    requires k < |src| && plane.At(c) == 0.0 && LeftOfAll(src, c)
    ensures ExitAt(src, plane, k) ==> Slide(plane, Crossing(Prev(src, k), src[k], plane), c) >= 0.0
    ensures EntryAt(src, plane, k) ==> Slide(plane, Crossing(Prev(src, k), src[k], plane), c) <= 0.0
  {
    var p, q := Prev(src, k), src[k];
    if plane.Holds(p) != plane.Holds(q) {
      var t := CrossingOnEdge(p, q, plane);
      CrossOnEdge(p, q, t);
      assert LeftOfEdge(src, k, c);
      SlideFromEdge(plane, p, q, Crossing(p, q, plane), c);
    }
  }

  /** The cut from an exit to an entry is a good edge. */
  lemma CutIsGood(src: seq<Point>, plane: Plane, u: Point, w: Point)
    requires Convex(src) && IsExit(src, plane, u) && IsEntry(src, plane, w)
    ensures PairOK(src, plane, u, w)
  {
    var i: nat :| i < |src| && ExitAt(src, plane, i) && u == Crossing(Prev(src, i), src[i], plane);
    var j: nat :| j < |src| && EntryAt(src, plane, j) && w == Crossing(Prev(src, j), src[j], plane);
    PrevIsVertex(src, i);
    PrevIsVertex(src, j);
    CrossingKept(src, plane, Prev(src, i), src[i]);
    CrossingKept(src, plane, Prev(src, j), src[j]);
    SlideFromExit(src, plane, i, w);
    NormPositive(plane, Prev(src, i), src[i]);
    forall s | Kept(src, plane, s)
      ensures Cross(u, w, s) >= 0.0
    {
      CutEdge(plane, u, w, s);
    }
  }

  /** What the clip has emitted after n edges. */
  ghost predicate Chain(src: seq<Point>, plane: Plane, out: seq<Point>, n: nat)
    requires n <= |src| && |src| > 0
  {
    && (forall j :: 0 <= j < |out| ==> Kept(src, plane, out[j]))
    && (forall j: nat :: 0 < j < |out| ==> PairOK(src, plane, Prev(out, j), out[j]))
    && (n > 0 && plane.Holds(src[n - 1]) ==> |out| > 0 && out[|out| - 1] == src[n - 1])
    && (n > 0 && !plane.Holds(src[n - 1]) && |out| > 0 ==> IsExit(src, plane, out[|out| - 1]))
    && (|out| > 0 && plane.Holds(src[|src| - 1]) ==> PairOK(src, plane, src[|src| - 1], out[0]))
    && (|out| > 0 && !plane.Holds(src[|src| - 1]) ==> IsEntry(src, plane, out[0]))
    && (n > 0 && |out| == 0 ==> !plane.Holds(src[|src| - 1]))
  }

  /** Appending one good vertex keeps the chain of pairs. */
  lemma ChainPush(src: seq<Point>, plane: Plane, out: seq<Point>, v: Point)
    requires forall j: nat :: 0 < j < |out| ==> PairOK(src, plane, Prev(out, j), out[j])
    requires |out| > 0 ==> PairOK(src, plane, out[|out| - 1], v)
    ensures forall j: nat :: 0 < j < |out + [v]| ==> PairOK(src, plane, Prev(out + [v], j), (out + [v])[j])
  {
    forall j: nat | 0 < j < |out + [v]|
      ensures PairOK(src, plane, Prev(out + [v], j), (out + [v])[j])
    {
      if j < |out| {
        assert PairOK(src, plane, Prev(out, j), out[j]);
      }
    }
  }

  lemma StepKept(src: seq<Point>, plane: Plane, n: nat, out: seq<Point>)
    requires Convex(src) && n < |src| && plane.Holds(Prev(src, n)) && plane.Holds(src[n])
    requires Chain(src, plane, out, n) && (n == 0 ==> out == [])
    ensures Chain(src, plane, out + [src[n]], n + 1)
  {
    PrevIsVertex(src, n);
    EdgePieces(src, plane, n);
    ChainPush(src, plane, out, src[n]);
  }

  lemma StepExit(src: seq<Point>, plane: Plane, n: nat, out: seq<Point>, x: Point)
    requires Convex(src) && n < |src| && ExitAt(src, plane, n)
    requires x == Crossing(Prev(src, n), src[n], plane)
    requires Chain(src, plane, out, n) && (n == 0 ==> out == [])
    ensures Chain(src, plane, out + [x], n + 1)
  {
    PrevIsVertex(src, n);
    EdgePieces(src, plane, n);
    CrossingKept(src, plane, Prev(src, n), src[n]);
    ChainPush(src, plane, out, x);
  }

  lemma StepEntry(src: seq<Point>, plane: Plane, n: nat, out: seq<Point>, x: Point)
    requires Convex(src) && n < |src| && EntryAt(src, plane, n)
    requires x == Crossing(Prev(src, n), src[n], plane)
    requires Chain(src, plane, out, n) && (n == 0 ==> out == [])
    ensures Chain(src, plane, out + [x] + [src[n]], n + 1)
  {
    PrevIsVertex(src, n);
    EdgePieces(src, plane, n);
    CrossingKept(src, plane, Prev(src, n), src[n]);
    if |out| > 0 {
      CutIsGood(src, plane, out[|out| - 1], x);
    }
    ChainPush(src, plane, out, x);
    ChainPush(src, plane, out + [x], src[n]);
  }

  lemma EmitCases(p: Point, q: Point, plane: Plane)
    ensures plane.Holds(p) && plane.Holds(q) ==> Emit(p, q, plane) == [q]
    ensures plane.Holds(p) && !plane.Holds(q) ==> Emit(p, q, plane) == [Crossing(p, q, plane)]
    ensures !plane.Holds(p) && plane.Holds(q) ==> Emit(p, q, plane) == [Crossing(p, q, plane)] + [q]
    ensures !plane.Holds(p) && !plane.Holds(q) ==> Emit(p, q, plane) == []
  {}

  lemma ChainStep(src: seq<Point>, plane: Plane, n: nat, out: seq<Point>, e: seq<Point>)
    requires Convex(src) && n < |src| && e == Emit(Prev(src, n), src[n], plane)
    requires Chain(src, plane, out, n) && (n == 0 ==> out == [])
    ensures Chain(src, plane, out + e, n + 1)
  {
    EmitCases(Prev(src, n), src[n], plane);
    if plane.Holds(Prev(src, n)) && plane.Holds(src[n]) {
      StepKept(src, plane, n, out);
    } else if plane.Holds(Prev(src, n)) {
      StepExit(src, plane, n, out, e[0]);
    } else if plane.Holds(src[n]) {
      StepEntry(src, plane, n, out, e[0]);
      assert out + e == out + [e[0]] + [src[n]];
    } else {
      assert out + e == out;
    }
  }

  lemma {:induction false} ChainHolds(src: seq<Point>, plane: Plane, n: nat)
    requires Convex(src) && n <= |src| && |src| > 0
    ensures Chain(src, plane, ClipUpto(src, plane, n), n)
  {
    if n > 0 {
      ChainHolds(src, plane, n - 1);
      ChainStep(src, plane, n - 1, ClipUpto(src, plane, n - 1), Emit(Prev(src, n - 1), src[n - 1], plane));
    }
  }

  /** Clipping a convex ring gives a convex ring inside the half-plane and
      inside the ring. */
  lemma ClipIsConvex(src: seq<Point>, plane: Plane)
    requires Convex(src)
    ensures Convex(Clip(src, plane))
    ensures forall v :: v in Clip(src, plane) ==> Kept(src, plane, v)
  {
    if |src| == 0 {
      return;
    }
    var out := Clip(src, plane);
    ChainHolds(src, plane, |src|);
    if |out| > 0 {
      if !plane.Holds(src[|src| - 1]) {
        CutIsGood(src, plane, out[|out| - 1], out[0]);
      }
      assert PairOK(src, plane, Prev(out, 0), out[0]);
    }
    forall m: nat, k: nat | m < |out| && k < |out|
      ensures LeftOfEdge(out, k, out[m])
    {
      assert PairOK(src, plane, Prev(out, k), out[k]);
      assert Kept(src, plane, out[m]);
    }
  }

  // ---- nothing of the hull is lost ----

  function Dot(gx: real, gy: real, p: Point): real { gx * p.x + gy * p.y }

  /** Some vertex stands no further along (gx, gy) than v. */
  ghost predicate Supports(ring: seq<Point>, v: Point, gx: real, gy: real) {
    exists k :: 0 <= k < |ring| && Dot(gx, gy, ring[k]) <= Dot(gx, gy, v)
  }

  /** v is in the convex hull of the ring's vertices, said by its support:
      no direction has every vertex beyond v. */
  ghost predicate InHull(ring: seq<Point>, v: Point) {
    forall gx, gy :: Supports(ring, v, gx, gy)
  }

  lemma EmitHas(p: Point, q: Point, plane: Plane)
    ensures plane.Holds(q) ==> q in Emit(p, q, plane)
    ensures plane.Holds(p) != plane.Holds(q) ==> Crossing(p, q, plane) in Emit(p, q, plane)
  {
    var e := Emit(p, q, plane);
    if plane.Holds(q) { assert e[|e| - 1] == q; }
    if plane.Holds(p) != plane.Holds(q) { assert e[0] == Crossing(p, q, plane); }
  }

  lemma {:induction false} EmittedBy(src: seq<Point>, plane: Plane, n: nat, k: nat, v: Point)
    requires k < n <= |src| && v in Emit(Prev(src, k), src[k], plane)
    ensures v in ClipUpto(src, plane, n)
  {
    if k < n - 1 {
      EmittedBy(src, plane, n - 1, k, v);
    }
    InConcat(ClipUpto(src, plane, n - 1), Emit(Prev(src, n - 1), src[n - 1], plane), v);
  }

  lemma InConcat(a: seq<Point>, b: seq<Point>, v: Point)
    requires v in a || v in b
    ensures v in a + b
  {}

  /** The clip keeps every kept vertex and emits every edge's crossing. */
  lemma Emitted(src: seq<Point>, plane: Plane, k: nat)
    requires k < |src|
    ensures plane.Holds(src[k]) ==> src[k] in Clip(src, plane)
    ensures plane.Holds(Prev(src, k)) != plane.Holds(src[k]) ==>
      Crossing(Prev(src, k), src[k], plane) in Clip(src, plane)
  {
    EmitHas(Prev(src, k), src[k], plane);
    if plane.Holds(src[k]) {
      EmittedBy(src, plane, |src|, k, src[k]);
    }
    if plane.Holds(Prev(src, k)) != plane.Holds(src[k]) {
      EmittedBy(src, plane, |src|, k, Crossing(Prev(src, k), src[k], plane));
    }
  }

  /** Going round from a kept vertex to a dropped one, some edge leaves. */
  lemma FindExit(src: seq<Point>, plane: Plane, i: nat, o: nat) returns (k: nat)
    requires i < |src| && o < |src| && plane.Holds(src[i]) && !plane.Holds(src[o])
    ensures k < |src| && ExitAt(src, plane, k)
    decreases if o >= i then o - i else o + |src| - i
  {
    var p := if o == 0 then |src| - 1 else o - 1;
    if plane.Holds(src[p]) {
      k := o;
    } else {
      k := FindExit(src, plane, i, p);
    }
  }

  /** Going round from a dropped vertex to a kept one, some edge enters. */
  lemma FindEntry(src: seq<Point>, plane: Plane, i: nat, o: nat) returns (k: nat)
    requires i < |src| && o < |src| && plane.Holds(src[i]) && !plane.Holds(src[o])
    ensures k < |src| && EntryAt(src, plane, k)
    decreases if i >= o then i - o else i + |src| - o
  {
    var p := if i == 0 then |src| - 1 else i - 1;
    if !plane.Holds(src[p]) {
      k := i;
    } else {
      k := FindEntry(src, plane, p, o);
    }
  }

  function Turn(plane: Plane, gx: real, gy: real): real { gy * plane.nx - gx * plane.ny }

  lemma DotScales(plane: Plane, u: Point, c: Point, gx: real, gy: real)
    requires plane.At(u) == plane.At(c)
    ensures Norm(plane) * (Dot(gx, gy, c) - Dot(gx, gy, u)) == Slide(plane, u, c) * Turn(plane, gx, gy)
  {
    StepAlongBoundary(plane, u, c);
    SlideScaled(Norm(plane), gy, -gx, c.x - u.x, c.y - u.y, plane.nx, plane.ny, Slide(plane, u, c));
    assert Dot(gx, gy, c) - Dot(gx, gy, u) == gy * (c.y - u.y) - -gx * (c.x - u.x);
  }

  /** Forward along the boundary a functional that turns forward does not fall. */
  lemma DotForward(plane: Plane, u: Point, c: Point, gx: real, gy: real)
    requires plane.At(u) == plane.At(c) && Norm(plane) > 0.0
    requires Slide(plane, u, c) * Turn(plane, gx, gy) >= 0.0
    ensures Dot(gx, gy, c) >= Dot(gx, gy, u)
  {
    DotScales(plane, u, c, gx, gy);
    FactorSign(Dot(gx, gy, c) - Dot(gx, gy, u), Norm(plane));
  }

  lemma BothNegative(a: real, b: real)
    requires a <= 0.0 && b <= 0.0
    ensures a * b >= 0.0
  {
    NonNegMul(-a, -b);
  }

  /** A functional positive at both ends of a boundary stretch is positive between. */
  lemma PositiveBetween(plane: Plane, u: Point, w: Point, c: Point, gx: real, gy: real, limit: real)
    requires plane.At(u) == plane.At(w) == plane.At(c) && Norm(plane) > 0.0
    requires Slide(plane, u, c) >= 0.0 && Slide(plane, w, c) <= 0.0
    requires Dot(gx, gy, u) > limit && Dot(gx, gy, w) > limit
    ensures Dot(gx, gy, c) > limit
  {
    if Turn(plane, gx, gy) >= 0.0 {
      NonNegMul(Slide(plane, u, c), Turn(plane, gx, gy));
      DotForward(plane, u, c, gx, gy);
    } else {
      BothNegative(Slide(plane, w, c), Turn(plane, gx, gy));
      DotForward(plane, w, c, gx, gy);
    }
  }

  /** If every emitted vertex is beyond limit, so is the crossing between any
      kept and any dropped vertex, adjacent or not. */
  lemma CrossingBeyond(src: seq<Point>, plane: Plane, i: nat, o: nat, gx: real, gy: real, limit: real)
    requires Convex(src) && i < |src| && o < |src| && plane.Holds(src[i]) && !plane.Holds(src[o])
    requires forall v :: v in Clip(src, plane) ==> Dot(gx, gy, v) > limit
    ensures Dot(gx, gy, Crossing(src[i], src[o], plane)) > limit
  {
    var c := Crossing(src[i], src[o], plane);
    var k := FindExit(src, plane, i, o);
    var j := FindEntry(src, plane, i, o);
    Emitted(src, plane, k);
    Emitted(src, plane, j);
    PrevIsVertex(src, k);
    PrevIsVertex(src, j);
    CrossingKept(src, plane, src[i], src[o]);
    CrossingKept(src, plane, Prev(src, k), src[k]);
    CrossingKept(src, plane, Prev(src, j), src[j]);
    SlideFromExit(src, plane, k, c);
    SlideFromExit(src, plane, j, c);
    NormPositive(plane, src[i], src[o]);
    PositiveBetween(plane, Crossing(Prev(src, k), src[k], plane), Crossing(Prev(src, j), src[j], plane), c, gx, gy, limit);
  }

  /** How far v is beyond limit along (gx, gy). */
  function Beyond(gx: real, gy: real, limit: real, v: Point): real { Dot(gx, gy, v) - limit }

  lemma BeyondAlong(gx: real, gy: real, limit: real, p: Point, q: Point, t: real)
    ensures Beyond(gx, gy, limit, Along(p, q, t)) == (1.0 - t) * Beyond(gx, gy, limit, p) + t * Beyond(gx, gy, limit, q)
  {}

  lemma CrossMultiply(t: real, g: real, h: real, a: real, b: real)
    requires t * (a - b) == a && a <= 0.0 < b && (1.0 - t) * g + t * h > 0.0
    ensures g * b - a * h > 0.0
  {
    assert t * (b - a) == -a;
    assert ((1.0 - t) * g + t * h) * (b - a) == g * (b - a) - g * (t * (b - a)) + h * (t * (b - a));
    MulStrict(0.0, (1.0 - t) * g + t * h, b - a);
  }

  /** The two values at a crossing beyond limit, weighed by the plane's. */
  lemma CrossingWeighs(p: Point, q: Point, plane: Plane, gx: real, gy: real, limit: real)
    requires plane.Holds(p) && !plane.Holds(q) && Beyond(gx, gy, limit, Crossing(p, q, plane)) > 0.0
    ensures Beyond(gx, gy, limit, p) * plane.At(q) - plane.At(p) * Beyond(gx, gy, limit, q) > 0.0
  {
    var t := CrossingOnEdge(p, q, plane);
    BeyondAlong(gx, gy, limit, p, q, t);
    CrossMultiply(t, Beyond(gx, gy, limit, p), Beyond(gx, gy, limit, q), plane.At(p), plane.At(q));
  }

  // ---- a common weight ----

  /** g and a can be mixed: no kept value is cancelled by a dropped one. */
  ghost predicate Mixable(g: seq<real>, a: seq<real>) {
    && |g| == |a|
    && (forall k :: 0 <= k < |g| && a[k] <= 0.0 ==> g[k] > 0.0)
    && forall i, o :: 0 <= i < |g| && 0 <= o < |g| && a[i] <= 0.0 < a[o] ==> Mixes(g, a, i, o)
  }

  ghost predicate Mixes(g: seq<real>, a: seq<real>, i: nat, o: nat)
    requires i < |g| == |a| && o < |g|
  {
    g[i] * a[o] - a[i] * g[o] > 0.0
  }

  lemma BelowRatio(g: real, a: real, h: real, b: real)
    requires b > 0.0 && g * b - a * h > 0.0
    ensures (-h / b) * -a < g
  {
    var r := -h / b;
    assert r * b == -h;
    assert (g + r * a) * b == g * b + a * (r * b);
    if g + r * a <= 0.0 { MulMono(g + r * a, 0.0, b); }
  }

  /** At weight m the kept values among the first n are positive. */
  ghost predicate HoldAt(g: seq<real>, a: seq<real>, m: real, n: nat)
    requires n <= |g| == |a|
  {
    forall k :: 0 <= k < n && a[k] <= 0.0 ==> m * -a[k] < g[k]
  }

  /** At weight m the dropped values among the first n have come up to zero. */
  ghost predicate RaisedAt(g: seq<real>, a: seq<real>, m: real, n: nat)
    requires n <= |g| == |a|
  {
    forall k :: 0 <= k < n && a[k] > 0.0 ==> -g[k] <= m * a[k]
  }

  lemma RaisedMore(g: seq<real>, a: seq<real>, rest: real, lo: real, n: nat)
    requires n <= |g| == |a| && RaisedAt(g, a, rest, n) && rest <= lo
    ensures RaisedAt(g, a, lo, n)
  {
    forall k | 0 <= k < n && a[k] > 0.0
      ensures -g[k] <= lo * a[k]
    {
      MulMono(rest, lo, a[k]);
    }
  }

  lemma HoldAtRatio(g: seq<real>, a: seq<real>, o: nat)
    requires Mixable(g, a) && o < |g| && a[o] > 0.0
    ensures HoldAt(g, a, -g[o] / a[o], |g|)
  {
    forall k | 0 <= k < |g| && a[k] <= 0.0
      ensures -g[o] / a[o] * -a[k] < g[k]
    {
      assert Mixes(g, a, k, o);
      BelowRatio(g[k], a[k], g[o], a[o]);
    }
  }

  /** The least weight that raises every dropped value among the first n keeps
      every kept value strictly positive. */
  lemma {:induction false} LowWeight(g: seq<real>, a: seq<real>, n: nat) returns (lo: real)
    requires Mixable(g, a) && n <= |g|
    ensures lo >= 0.0 && HoldAt(g, a, lo, |g|) && RaisedAt(g, a, lo, n)
  {
    if n == 0 {
      lo := 0.0;
    } else {
      var rest := LowWeight(g, a, n - 1);
      lo := rest;
      if a[n - 1] > 0.0 && rest * a[n - 1] < -g[n - 1] {
        lo := -g[n - 1] / a[n - 1];
        DivCompare(-g[n - 1], rest, a[n - 1]);
        DivMul(-g[n - 1], a[n - 1]);
        HoldAtRatio(g, a, n - 1);
        RaisedMore(g, a, rest, lo, n - 1);
      }
    }
  }

  lemma RoomAbove(lo: real, b: real, h: real, rest: real) returns (e: real)
    requires b >= 0.0 && lo * b < h && rest > 0.0
    ensures 0.0 < e <= rest && (lo + e) * b < h
  {
    if (lo + rest) * b < h {
      e := rest;
    } else {
      var room := h - lo * b;
      assert rest * b >= room > 0.0;
      FactorSign(b, rest);
      var d := room / b;
      assert d * b == room;
      DivCompare(room, rest, b);
      FactorSign(d, b);
      e := d / 2.0;
      assert (lo + e) * b == lo * b + room / 2.0;
    }
  }

  /** How far above the least weight the kept values among the first n still hold. */
  lemma {:induction false} Slack(g: seq<real>, a: seq<real>, lo: real, n: nat) returns (e: real)
    requires n <= |g| == |a|
    requires HoldAt(g, a, lo, |g|)
    ensures e > 0.0 && HoldAt(g, a, lo + e, n)
  {
    if n == 0 {
      e := 1.0;
    } else {
      var rest := Slack(g, a, lo, n - 1);
      e := rest;
      if a[n - 1] <= 0.0 {
        e := RoomAbove(lo, -a[n - 1], g[n - 1], rest);
      }
      forall k | 0 <= k < n - 1 && a[k] <= 0.0
        ensures (lo + e) * -a[k] < g[k]
      {
        MulMono(lo + e, lo + rest, -a[k]);
      }
    }
  }

  /** One weight makes every value positive. */
  lemma CommonWeight(g: seq<real>, a: seq<real>) returns (mu: real)
    requires Mixable(g, a)
    ensures mu >= 0.0
    ensures forall k :: 0 <= k < |g| ==> g[k] + mu * a[k] > 0.0
  {
    var lo := LowWeight(g, a, |g|);
    var e := Slack(g, a, lo, |g|);
    mu := lo + e;
    WeightsWork(g, a, lo, mu);
  }

  lemma WeightWorks(g: real, a: real, lo: real, mu: real)
    requires a > 0.0 ==> lo < mu && -g <= lo * a
    requires a <= 0.0 ==> mu * -a < g
    ensures g + mu * a > 0.0
  {
    if a > 0.0 {
      MulStrict(lo, mu, a);
    } else {
      assert mu * -a == -(mu * a);
    }
  }

  lemma WeightsWork(g: seq<real>, a: seq<real>, lo: real, mu: real)
    requires |g| == |a| && lo < mu && RaisedAt(g, a, lo, |g|) && HoldAt(g, a, mu, |g|)
    ensures forall k :: 0 <= k < |g| ==> g[k] + mu * a[k] > 0.0
  {
    forall k | 0 <= k < |g|
      ensures g[k] + mu * a[k] > 0.0
    {
      WeightWorks(g[k], a[k], lo, mu);
    }
  }

  function BeyondsOf(src: seq<Point>, gx: real, gy: real, limit: real): (g: seq<real>)
    ensures |g| == |src|
    ensures forall k :: 0 <= k < |src| ==> g[k] == Beyond(gx, gy, limit, src[k])
  {
    seq(|src|, k requires 0 <= k < |src| => Beyond(gx, gy, limit, src[k]))
  }

  function AtsOf(src: seq<Point>, plane: Plane): (a: seq<real>)
    ensures |a| == |src|
    ensures forall k :: 0 <= k < |src| ==> a[k] == plane.At(src[k])
  {
    seq(|src|, k requires 0 <= k < |src| => plane.At(src[k]))
  }

  lemma PairMixes(src: seq<Point>, plane: Plane, gx: real, gy: real, limit: real, i: nat, o: nat)
    requires Convex(src) && i < |src| && o < |src| && plane.Holds(src[i]) && !plane.Holds(src[o])
    requires forall w :: w in Clip(src, plane) ==> Dot(gx, gy, w) > limit
    ensures Mixes(BeyondsOf(src, gx, gy, limit), AtsOf(src, plane), i, o)
  {
    CrossingBeyond(src, plane, i, o, gx, gy, limit);
    CrossingWeighs(src[i], src[o], plane, gx, gy, limit);
  }

  lemma ValuesMix(src: seq<Point>, plane: Plane, gx: real, gy: real, limit: real)
    requires Convex(src)
    requires forall w :: w in Clip(src, plane) ==> Dot(gx, gy, w) > limit
    ensures Mixable(BeyondsOf(src, gx, gy, limit), AtsOf(src, plane))
  {
    var g, a := BeyondsOf(src, gx, gy, limit), AtsOf(src, plane);
    forall k | 0 <= k < |src| && a[k] <= 0.0
      ensures g[k] > 0.0
    {
      Emitted(src, plane, k);
    }
    forall i, o | 0 <= i < |src| && 0 <= o < |src| && a[i] <= 0.0 < a[o]
      ensures Mixes(g, a, i, o)
    {
      PairMixes(src, plane, gx, gy, limit, i, o);
    }
  }

  /** If every emitted vertex were beyond v in some direction, then mixing in
      the plane would put every vertex of the ring beyond v. */
  lemma SomeVertexWithin(src: seq<Point>, plane: Plane, v: Point, gx: real, gy: real)
    requires Convex(src) && plane.Holds(v) && InHull(src, v)
    ensures exists w :: w in Clip(src, plane) && Dot(gx, gy, w) <= Dot(gx, gy, v)
  {
    var limit := Dot(gx, gy, v);
    if forall w :: w in Clip(src, plane) ==> Dot(gx, gy, w) > limit {
      ValuesMix(src, plane, gx, gy, limit);
      var mu := CommonWeight(BeyondsOf(src, gx, gy, limit), AtsOf(src, plane));
      var k := Witness(src, v, gx + mu * plane.nx, gy + mu * plane.ny);
      MixedDot(plane, v, src[k], gx, gy, mu, BeyondsOf(src, gx, gy, limit)[k], AtsOf(src, plane)[k]);
    }
  }

  lemma Witness(src: seq<Point>, v: Point, gx: real, gy: real) returns (k: nat)
    requires InHull(src, v)
    ensures k < |src| && Dot(gx, gy, src[k]) <= Dot(gx, gy, v)
  {
    assert Supports(src, v, gx, gy);
    k :| k < |src| && Dot(gx, gy, src[k]) <= Dot(gx, gy, v);
  }

  lemma MixedDot(plane: Plane, v: Point, w: Point, gx: real, gy: real, mu: real, g: real, a: real)
    requires plane.Holds(v) && mu >= 0.0
    requires Dot(gx + mu * plane.nx, gy + mu * plane.ny, w) <= Dot(gx + mu * plane.nx, gy + mu * plane.ny, v)
    requires g == Dot(gx, gy, w) - Dot(gx, gy, v) && a == plane.At(w)
    ensures g + mu * a <= 0.0
  {
    var b := plane.At(v);
    assert Dot(gx + mu * plane.nx, gy + mu * plane.ny, w) - Dot(gx + mu * plane.nx, gy + mu * plane.ny, v)
        == g + mu * (a - b);
    NonNegMul(mu, -b);
    assert mu * (a - b) == mu * a + mu * -b;
  }

  /** The part of the ring's hull in the half-plane is the clipped ring's hull. */
  lemma ClipKeepsHull(src: seq<Point>, plane: Plane, v: Point)
    requires Convex(src) && InHull(src, v) && plane.Holds(v)
    ensures InHull(Clip(src, plane), v)
  {
    forall gx, gy
      ensures Supports(Clip(src, plane), v, gx, gy)
    {
      SomeVertexWithin(src, plane, v, gx, gy);
      var w :| w in Clip(src, plane) && Dot(gx, gy, w) <= Dot(gx, gy, v);
      var k :| 0 <= k < |Clip(src, plane)| && Clip(src, plane)[k] == w;
    }
  }
}
