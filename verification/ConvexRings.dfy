/** The even-odd test on a convex ring of either turn: it holds of every point on
    the inner side of all edges and of none on the outer side of one. */
module ConvexRings {
  import opened Geometry
  import opened FootprintMask
  import HalfPlaneClip

  predicate Turns(left: bool, a: Point, b: Point, c: Point) {
    if left then Cross(a, b, c) > 0.0 else Cross(a, b, c) < 0.0
  }

  predicate VerticesTurn(left: bool, ring: seq<Point>, i: nat, j: nat, k: nat)
    requires i < |ring| && j < |ring| && k < |ring|
  {
    Turns(left, ring[i], ring[j], ring[k])
  }

  /** The vertices of a convex ring, in order: any three turn the same way. */
  ghost predicate TurnsAll(left: bool, ring: seq<Point>) {
    forall i, j, k :: 0 <= i < j < k < |ring| ==> VerticesTurn(left, ring, i, j, k)
  }

  /** p lies to this side of the edge that ends at vertex k. */
  predicate EdgeTurns(left: bool, ring: seq<Point>, k: nat, p: Point)
    requires k < |ring|
  {
    Turns(left, Prev(ring, k), ring[k], p)
  }

  ghost predicate InsideAll(left: bool, ring: seq<Point>, p: Point) {
    forall k: nat :: k < |ring| ==> EdgeTurns(left, ring, k, p)
  }

  ghost predicate OnSideOfOne(left: bool, ring: seq<Point>, p: Point) {
    exists k: nat :: k < |ring| && EdgeTurns(left, ring, k, p)
  }

  ghost predicate OutsideOne(left: bool, ring: seq<Point>, p: Point) { OnSideOfOne(!left, ring, p) }

  // ---- no line is crossed four times ----

  lemma CrossRotates(a: Point, b: Point, c: Point)
    ensures Cross(a, b, c) == Cross(b, c, a)
  {}

  lemma CrossSum(a: Point, b: Point, c: Point, d: Point)
    ensures Cross(b, c, d) + Cross(a, b, d) == Cross(a, c, d) + Cross(a, b, c)
  {}

  /** The areas weigh four points into balance. */
  lemma Balance(x1: real, y1: real, x2: real, y2: real, x3: real, y3: real)
    ensures (x1 * y2 - y1 * x2) * y3 + (x2 * y3 - y2 * x3) * y1 == (x1 * y3 - y1 * x3) * y2
  {}

  lemma CrossBalance(a: Point, b: Point, c: Point, d: Point)
    ensures Cross(a, b, c) * (d.y - a.y) + Cross(a, c, d) * (b.y - a.y) == Cross(a, b, d) * (c.y - a.y)
  {
    Balance(b.x - a.x, b.y - a.y, c.x - a.x, c.y - a.y, d.x - a.x, d.y - a.y);
  }

  lemma WeighedHeights(A: real, B: real, C: real, D: real, ha: real, hb: real, hc: real, hd: real)
    requires A + C == B + D && D * (hd - ha) + B * (hb - ha) == C * (hc - ha)
    ensures Times(D, hd) + Times(B, hb) == Times(C, hc) + Times(A, ha)
  {
    assert A == B + D - C;
    assert (B + D - C) * ha == B * ha + D * ha - C * ha;
  }

  lemma Sign(a: real, h: real)
    requires a > 0.0
    ensures h > 0.0 ==> Times(a, h) > 0.0
    ensures h <= 0.0 ==> Times(a, h) <= 0.0
  {
    if h > 0.0 {
      PositiveTimes(a, h);
    } else {
      NonNegMul(a, -h);
    }
  }

  /** Positive weights that balance two points against two keep no line between them. */
  lemma NotBetween(A: real, B: real, C: real, D: real, ha: real, hb: real, hc: real, hd: real)
    requires A > 0.0 && B > 0.0 && C > 0.0 && D > 0.0
    requires A + C == B + D && D * (hd - ha) + B * (hb - ha) == C * (hc - ha)
    ensures !(ha <= 0.0 && hc <= 0.0 && hb > 0.0 && hd > 0.0)
    ensures !(ha > 0.0 && hc > 0.0 && hb <= 0.0 && hd <= 0.0)
  {
    WeighedHeights(A, B, C, D, ha, hb, hc, hd);
    Sign(A, ha);
    Sign(B, hb);
    Sign(C, hc);
    Sign(D, hd);
  }

  predicate High(v: Point, y: real) { v.y > y }

  lemma NoFourLeft(a: Point, b: Point, c: Point, d: Point, y: real)
    requires Cross(a, b, c) > 0.0 && Cross(a, b, d) > 0.0 && Cross(a, c, d) > 0.0 && Cross(b, c, d) > 0.0
    requires High(a, y) == High(c, y) && High(b, y) == High(d, y)
    ensures High(a, y) == High(b, y)
  {
    CrossSum(a, b, c, d);
    CrossBalance(a, b, c, d);
    NotBetween(Cross(b, c, d), Cross(a, c, d), Cross(a, b, d), Cross(a, b, c), a.y - y, b.y - y, c.y - y, d.y - y);
  }

  function Mirrored(v: Point): Point { Point(-v.x, v.y) }

  lemma MirroredTurns(a: Point, b: Point, c: Point)
    ensures Cross(Mirrored(a), Mirrored(b), Mirrored(c)) == -Cross(a, b, c)
  {}

  /** Four vertices in order do not alternate between the sides of a height. */
  lemma NoFour(left: bool, ring: seq<Point>, y: real, i: nat, j: nat, k: nat, l: nat)
    requires TurnsAll(left, ring) && i < j < k < l < |ring|
    requires High(ring[i], y) == High(ring[k], y) && High(ring[j], y) == High(ring[l], y)
    ensures High(ring[i], y) == High(ring[j], y)
  {
    var a, b, c, d := ring[i], ring[j], ring[k], ring[l];
    assert VerticesTurn(left, ring, i, j, k) && VerticesTurn(left, ring, i, j, l);
    assert VerticesTurn(left, ring, i, k, l) && VerticesTurn(left, ring, j, k, l);
    if left {
      NoFourLeft(a, b, c, d, y);
    } else {
      MirroredTurns(a, b, c);
      MirroredTurns(a, b, d);
      MirroredTurns(a, c, d);
      MirroredTurns(b, c, d);
      NoFourLeft(Mirrored(a), Mirrored(b), Mirrored(c), Mirrored(d), y);
    }
  }

  /** Edge k passes height y, up to a high vertex or down to a low one. */
  predicate Passes(ring: seq<Point>, y: real, k: int, up: bool) {
    0 <= k < |ring| && High(ring[k], y) == up && High(Prev(ring, k), y) != up
  }

  /** At most one edge passes a height each way. */
  lemma PassesOnce(left: bool, ring: seq<Point>, y: real, j: nat, k: nat, up: bool)
    requires TurnsAll(left, ring) && Passes(ring, y, j, up) && Passes(ring, y, k, up)
    ensures j == k
  {
    var i, m := if j < k then j else k, if j < k then k else j;
    if i != m {
      if i > 0 {
        NoFour(left, ring, y, i - 1, i, m - 1, m);
      } else {
        NoFour(left, ring, y, i, m - 1, m, |ring| - 1);
      }
    }
  }

  lemma {:induction false} Change(ring: seq<Point>, y: real, i: nat, j: nat) returns (k: nat)
    requires i < j < |ring| && High(ring[i], y) != High(ring[j], y)
    ensures i < k <= j && Passes(ring, y, k, High(ring[j], y))
    decreases j
  {
    if High(ring[j - 1], y) != High(ring[j], y) {
      return j;
    }
    k := Change(ring, y, i, j - 1);
  }

  /** With vertices on both sides some edge passes each way. */
  lemma PassesBothWays(ring: seq<Point>, y: real, i: nat, j: nat) returns (k: nat)
    requires i < |ring| && j < |ring| && High(ring[i], y) != High(ring[j], y)
    ensures Passes(ring, y, k, High(ring[j], y))
  {
    if i < j {
      k := Change(ring, y, i, j);
    } else if High(ring[|ring| - 1], y) == High(ring[j], y) {
      k := Change(ring, y, i, |ring| - 1);
    } else if High(ring[0], y) == High(ring[j], y) {
      return 0;
    } else {
      k := Change(ring, y, 0, j);
    }
  }

  // ---- a point inside has vertices above and below ----

  lemma WedgeSigns(uw: real, wq: real, uq: real, uy: real, wy: real, qy: real)
    requires uw > 0.0 && wq > 0.0 && uq > 0.0 && uw * qy + wq * uy == uq * wy && (uy != 0.0 || wy != 0.0)
    ensures uy <= 0.0 <= wy ==> qy > 0.0
    ensures uy >= 0.0 >= wy ==> qy < 0.0
  {}

  /** Where two edges meet at a lowest vertex a point left of both is above it;
      at a highest one it is below. */
  lemma Wedge(ux: real, uy: real, wx: real, wy: real, qx: real, qy: real)
    requires ux * wy - uy * wx > 0.0 && ux * qy - uy * qx > 0.0 && wx * qy - wy * qx > 0.0
    ensures uy <= 0.0 <= wy ==> qy > 0.0
    ensures uy >= 0.0 >= wy ==> qy < 0.0
  {
    Balance(ux, uy, wx, wy, qx, qy);
    WedgeSigns(ux * wy - uy * wx, wx * qy - wy * qx, ux * qy - uy * qx, uy, wy, qy);
  }

  lemma CrossSteps(a: Point, b: Point, c: Point)
    ensures Cross(a, b, c) == (b.x - a.x) * (c.y - b.y) - (b.y - a.y) * (c.x - b.x)
  {}

  lemma WedgeLeft(u: Point, v: Point, w: Point, p: Point)
    requires Cross(u, v, w) > 0.0 && Cross(u, v, p) > 0.0 && Cross(v, w, p) > 0.0
    ensures v.y <= u.y && v.y <= w.y ==> p.y > v.y
    ensures v.y >= u.y && v.y >= w.y ==> p.y < v.y
  {
    CrossSteps(u, v, w);
    CrossSteps(u, v, p);
    Wedge(v.x - u.x, v.y - u.y, w.x - v.x, w.y - v.y, p.x - v.x, p.y - v.y);
  }

  lemma WedgeTurned(left: bool, u: Point, v: Point, w: Point, p: Point)
    requires Turns(left, u, v, w) && Turns(left, u, v, p) && Turns(left, v, w, p)
    ensures v.y <= u.y && v.y <= w.y ==> p.y > v.y
    ensures v.y >= u.y && v.y >= w.y ==> p.y < v.y
  {
    if left {
      WedgeLeft(u, v, w, p);
    } else {
      MirroredTurns(u, v, w);
      MirroredTurns(u, v, p);
      MirroredTurns(v, w, p);
      WedgeLeft(Mirrored(u), Mirrored(v), Mirrored(w), Mirrored(p));
    }
  }

  lemma TurnRotates(left: bool, a: Point, b: Point, c: Point)
    ensures Turns(left, a, b, c) == Turns(left, b, c, a)
  {
    CrossRotates(a, b, c);
  }

  /** Consecutive vertices turn with the ring. */
  lemma Corner(left: bool, ring: seq<Point>, k: nat)
    requires |ring| >= 3 && TurnsAll(left, ring) && k < |ring|
    ensures Turns(left, Prev(ring, k), ring[k], Next(ring, k))
  {
    var n := |ring|;
    if k == 0 {
      assert VerticesTurn(left, ring, 0, 1, n - 1);
      TurnRotates(left, ring[n - 1], ring[0], ring[1]);
    } else if k == n - 1 {
      assert VerticesTurn(left, ring, 0, n - 2, n - 1);
      TurnRotates(left, ring[0], ring[n - 2], ring[n - 1]);
    } else {
      assert VerticesTurn(left, ring, k - 1, k, k + 1);
    }
  }

  lemma {:induction false} Lowest(ring: seq<Point>, n: nat) returns (m: nat)
    requires 0 < n <= |ring|
    ensures m < n && forall k :: 0 <= k < n ==> ring[m].y <= ring[k].y
  {
    if n == 1 {
      return 0;
    }
    m := Lowest(ring, n - 1);
    m := if ring[n - 1].y < ring[m].y then n - 1 else m;
  }

  lemma {:induction false} Highest(ring: seq<Point>, n: nat) returns (m: nat)
    requires 0 < n <= |ring|
    ensures m < n && forall k :: 0 <= k < n ==> ring[m].y >= ring[k].y
  {
    if n == 1 {
      return 0;
    }
    m := Highest(ring, n - 1);
    m := if ring[n - 1].y > ring[m].y then n - 1 else m;
  }

  lemma InsideAt(left: bool, ring: seq<Point>, p: Point, k: nat)
    requires |ring| >= 3 && TurnsAll(left, ring) && InsideAll(left, ring, p) && k < |ring|
    ensures ring[k].y <= Prev(ring, k).y && ring[k].y <= Next(ring, k).y ==> p.y > ring[k].y
    ensures ring[k].y >= Prev(ring, k).y && ring[k].y >= Next(ring, k).y ==> p.y < ring[k].y
  {
    Corner(left, ring, k);
    var next := if k + 1 < |ring| then k + 1 else 0;
    assert EdgeTurns(left, ring, k, p) && EdgeTurns(left, ring, next, p);
    WedgeTurned(left, Prev(ring, k), ring[k], Next(ring, k), p);
  }

  /** The ring has a vertex on each side of the height of a point inside. */
  lemma BothSides(left: bool, ring: seq<Point>, p: Point) returns (low: nat, high: nat)
    requires |ring| >= 3 && TurnsAll(left, ring) && InsideAll(left, ring, p)
    ensures low < |ring| && high < |ring| && !High(ring[low], p.y) && High(ring[high], p.y)
  {
    low := Lowest(ring, |ring|);
    high := Highest(ring, |ring|);
    InsideAt(left, ring, p, low);
    InsideAt(left, ring, p, high);
  }

  // ---- which edges the test counts ----

  /** Of the edges a point is inside of, the test counts those going up on a ring
      turning left and those going down on one turning right. */
  lemma CountedInside(left: bool, a: Point, b: Point, p: Point)
    requires Turns(left, a, b, p)
    ensures PassesRight(p, a, b) <==> High(b, p.y) == left && High(a, p.y) != left
  {
    CrossTurned(a, b, p);
  }

  lemma CountedPasses(p: Point, ring: seq<Point>, k: nat)
    requires k < |ring| && PassesRight(p, Prev(ring, k), ring[k])
    ensures Passes(ring, p.y, k, High(ring[k], p.y))
  {}

  lemma CountsOneWay(left: bool, ring: seq<Point>, p: Point, j: nat, k: nat)
    requires TurnsAll(left, ring) && InsideAll(left, ring, p) && j < |ring| && Passes(ring, p.y, k, left)
    ensures PassesRight(p, Prev(ring, j), ring[j]) <==> j == k
  {
    assert EdgeTurns(left, ring, j, p);
    CountedInside(left, Prev(ring, j), ring[j], p);
    if Passes(ring, p.y, j, left) {
      PassesOnce(left, ring, p.y, j, k, left);
    }
  }

  lemma InsideIsOdd(left: bool, ring: seq<Point>, p: Point)
    requires |ring| >= 3 && TurnsAll(left, ring) && InsideAll(left, ring, p)
    ensures EvenOdd(p, ring)
  {
    var low, high := BothSides(left, ring, p);
    var k := PassesBothWays(ring, p.y, if left then low else high, if left then high else low);
    forall j: nat | j < |ring|
      ensures j in RightEdges(p, ring, |ring|) <==> j == k
    {
      CountsOneWay(left, ring, p, j, k);
    }
    OneCounts(RightEdges(p, ring, |ring|), k);
    OddCounts(p, ring, |ring|);
  }

  lemma OneCounts(s: set<nat>, k: nat)
    requires forall j :: j in s <==> j == k
    ensures |s| == 1
  {
    assert s == {k};
  }

  lemma TwoCount(s: set<nat>, j: nat, k: nat)
    requires j != k && forall i :: i in s <==> i == j || i == k
    ensures |s| == 2
  {
    assert s == {j, k};
  }

  // ---- a point outside an edge ----

  predicate Faces(left: bool, a: Point, b: Point, c: Point) { !Turns(!left, a, b, c) }

  /** No vertex lies on the outer side of an edge. */
  lemma VertexFaces(left: bool, ring: seq<Point>, e: nat, i: nat)
    requires TurnsAll(left, ring) && e < |ring| && i < |ring|
    ensures Faces(left, Prev(ring, e), ring[e], ring[i])
  {
    var d := if e == 0 then |ring| - 1 else e - 1;
    if i != d && i != e {
      if e == 0 {
        assert VerticesTurn(left, ring, e, i, d);
        TurnRotates(left, ring[d], ring[e], ring[i]);
      } else if i < d {
        assert VerticesTurn(left, ring, i, d, e);
        TurnRotates(left, ring[i], ring[d], ring[e]);
      } else {
        assert VerticesTurn(left, ring, d, e, i);
      }
    } else {
      CrossAtEnds(ring[d], ring[e]);
    }
  }

  lemma CrossAtEnds(a: Point, b: Point)
    ensures Cross(a, b, a) == 0.0 && Cross(a, b, b) == 0.0
  {}

  lemma MeanSign(t: real, u: real, w: real)
    requires 0.0 <= t <= 1.0
    ensures u >= 0.0 && w >= 0.0 ==> (1.0 - t) * u + t * w >= 0.0
    ensures u <= 0.0 && w <= 0.0 ==> (1.0 - t) * u + t * w <= 0.0
  {
    if u >= 0.0 && w >= 0.0 {
      NonNegMul(1.0 - t, u);
      NonNegMul(t, w);
    } else if u <= 0.0 && w <= 0.0 {
      NonNegMul(1.0 - t, -u);
      NonNegMul(t, -w);
    }
  }

  /** Nor does a point between two points that do not. */
  lemma FacesAlong(left: bool, a: Point, b: Point, u: Point, w: Point, t: real)
    requires Faces(left, a, b, u) && Faces(left, a, b, w) && 0.0 <= t <= 1.0
    ensures Faces(left, a, b, Along(u, w, t))
  {
    HalfPlaneClip.CrossAlong(a, b, u, w, t);
    MeanSign(t, Cross(a, b, u), Cross(a, b, w));
  }

  lemma EdgeFaces(left: bool, ring: seq<Point>, e: nat, k: nat, y: real)
    requires TurnsAll(left, ring) && e < |ring| && k < |ring| && Straddles(ring[k], Prev(ring, k), y)
    ensures Faces(left, Prev(ring, e), ring[e], Point(CrossingX(ring[k], Prev(ring, k), y), y))
  {
    var t := CrossingOnEdge(ring[k], Prev(ring, k), y);
    VertexFaces(left, ring, e, k);
    VertexFaces(left, ring, e, if k == 0 then |ring| - 1 else k - 1);
    FacesAlong(left, Prev(ring, e), ring[e], ring[k], Prev(ring, k), t);
  }

  lemma LevelBetween(x: real, u: real, w: real, y: real) returns (t: real)
    requires u <= x < w
    ensures 0.0 <= t <= 1.0 && Point(x, y) == Along(Point(u, y), Point(w, y), t)
  {
    t := (x - u) / (w - u);
    DivMul(x - u, w - u);
    DivMono(0.0, x - u, w - u);
    DivCompare(x - u, 1.0, w - u);
  }

  /** The test counts both of the edges passing a height, or neither, seen from a
      point outside some edge. */
  lemma CountedTogether(left: bool, ring: seq<Point>, p: Point, j: nat, k: nat)
    requires TurnsAll(left, ring) && OutsideOne(left, ring, p)
    requires j < |ring| && k < |ring|
    requires Straddles(ring[j], Prev(ring, j), p.y) && Straddles(ring[k], Prev(ring, k), p.y)
    requires Crosses(p, ring[j], Prev(ring, j))
    ensures Crosses(p, ring[k], Prev(ring, k))
  {
    var e: nat :| e < |ring| && EdgeTurns(!left, ring, e, p);
    var u, w := CrossingX(ring[k], Prev(ring, k), p.y), CrossingX(ring[j], Prev(ring, j), p.y);
    EdgeFaces(left, ring, e, j, p.y);
    EdgeFaces(left, ring, e, k, p.y);
    if u <= p.x {
      var t := LevelBetween(p.x, u, w, p.y);
      FacesAlong(left, Prev(ring, e), ring[e], Point(u, p.y), Point(w, p.y), t);
    }
  }

  lemma CountsBothWays(left: bool, ring: seq<Point>, p: Point, j: nat, k: nat, i: nat)
    requires TurnsAll(left, ring) && j in RightEdges(p, ring, |ring|) && k in RightEdges(p, ring, |ring|)
    requires High(ring[j], p.y) != High(ring[k], p.y) && i in RightEdges(p, ring, |ring|)
    ensures i == j || i == k
  {
    CountedPasses(p, ring, i);
    CountedPasses(p, ring, j);
    CountedPasses(p, ring, k);
    PassesOnce(left, ring, p.y, i, if High(ring[i], p.y) == High(ring[j], p.y) then j else k, High(ring[i], p.y));
  }

  /** From outside an edge the test counts an edge only with the one passing back. */
  lemma CountedBack(left: bool, ring: seq<Point>, p: Point, j: nat) returns (k: nat)
    requires TurnsAll(left, ring) && OutsideOne(left, ring, p) && j in RightEdges(p, ring, |ring|)
    ensures k in RightEdges(p, ring, |ring|) && High(ring[j], p.y) != High(ring[k], p.y)
  {
    CountedPasses(p, ring, j);
    k := PassesBothWays(ring, p.y, j, if j == 0 then |ring| - 1 else j - 1);
    CrossesExactly(p, ring[j], Prev(ring, j));
    CrossesExactly(p, ring[k], Prev(ring, k));
    PassesRightTurned(p, ring[j], Prev(ring, j));
    PassesRightTurned(p, ring[k], Prev(ring, k));
    CountedTogether(left, ring, p, j, k);
  }

  lemma OutsideIsEven(left: bool, ring: seq<Point>, p: Point)
    requires TurnsAll(left, ring) && OutsideOne(left, ring, p)
    ensures !EvenOdd(p, ring)
  {
    OddCounts(p, ring, |ring|);
    if RightEdges(p, ring, |ring|) != {} {
      var j :| j in RightEdges(p, ring, |ring|);
      var k := CountedBack(left, ring, p, j);
      forall i: nat | i in RightEdges(p, ring, |ring|)
        ensures i == j || i == k
      {
        CountsBothWays(left, ring, p, j, k, i);
      }
      TwoCount(RightEdges(p, ring, |ring|), j, k);
    }
  }

  // ---- closing the ring ----

  /** Repeating the first vertex at the end adds an edge that passes no height. */
  lemma {:induction false} ClosedUpto(p: Point, ring: seq<Point>, n: nat)
    requires 0 < n <= |ring|
    ensures OddUpto(p, ring + [ring[0]], n) <==> OddUpto(p, ring, n) != Crosses(p, ring[0], Prev(ring, 0))
  {
    if n > 1 {
      ClosedUpto(p, ring, n - 1);
    }
  }

  lemma ClosedIsOpen(p: Point, ring: seq<Point>)
    requires ring != []
    ensures EvenOdd(p, ring + [ring[0]]) == EvenOdd(p, ring)
  {
    ClosedUpto(p, ring, |ring|);
  }

  /** On a closed convex ring of either turn the even-odd test holds of every
      point on the inner side of each edge and of none on the outer side of one. */
  lemma ConvexIsItsInterior(left: bool, ring: seq<Point>, p: Point)
    requires |ring| >= 3 && TurnsAll(left, ring)
    ensures InsideAll(left, ring, p) ==> EvenOdd(p, ring + [ring[0]])
    ensures OutsideOne(left, ring, p) ==> !EvenOdd(p, ring + [ring[0]])
  {
    ClosedIsOpen(p, ring);
    if InsideAll(left, ring, p) {
      InsideIsOdd(left, ring, p);
    }
    if OutsideOne(left, ring, p) {
      OutsideIsEven(left, ring, p);
    }
  }
}
