/** Where a ray crosses obstacles in plan view: the branching edge test and the
    branch-free one, the nearest crossing of a polyline, and the crossings of a
    ray over all obstacles or over the candidates an index found. */
module RayWalk {
  import opened Geometry
  import opened GridLayout
  import opened BBoxGrids
  import opened SegmentWalk
  import opened CrossingSort
  import opened GridCursors
  import opened Options

  const PARALLEL: real := 0.000000000001

  // ---- one edge ----

  /** The cross product of two directions; 0 when they are parallel. */
  function Denom(dx1: real, dy1: real, dx2: real, dy2: real): real { dx1 * dy2 - dy1 * dx2 }

  function Ratio(n: real, d: real): real
    requires d != 0.0
  {
    n / d
  }

  /** SegmentIntersection of a1a2 with b1b2: the parameter along a1a2. */
  function SegmentIntersection(a1: Point, a2: Point, b1: Point, b2: Point): Option<real> {
    EdgeIntersection(a2.x - a1.x, a2.y - a1.y, b2.x - b1.x, b2.y - b1.y, b1.x - a1.x, b1.y - a1.y)
  }

  function EdgeIntersection(dx1: real, dy1: real, dx2: real, dy2: real, dx3: real, dy3: real): Option<real> {
    var denom := Denom(dx1, dy1, dx2, dy2);
    if Abs(denom) < PARALLEL then None
    else
      var t, u := Ratio(Denom(dx3, dy3, dx2, dy2), denom), Ratio(Denom(dx3, dy3, dx1, dy1), denom);
      if t < 0.0 || t > 1.0 || u < 0.0 || u > 1.0 then None else Some(t)
  }

  /** rayEdgeT: the same test without branching on which bound fails. A zero
      denominator, where the source's quotients are not numbers, fails it. */
  function RayEdgeT(dx1: real, dy1: real, dx2: real, dy2: real, dx3: real, dy3: real): (real, bool) {
    var denom := Denom(dx1, dy1, dx2, dy2);
    if denom == 0.0 then (0.0, false)
    else
      var t, u := Ratio(Denom(dx3, dy3, dx2, dy2), denom), Ratio(Denom(dx3, dy3, dx1, dy1), denom);
      (t, Score(t, u, denom) >= 0.0)
  }

  function Score(t: real, u: real, denom: real): real {
    Min(t * (1.0 - t), Min(u * (1.0 - u), Abs(denom) - PARALLEL))
  }

  lemma UnitInterval(t: real)
    ensures t * (1.0 - t) >= 0.0 <==> 0.0 <= t <= 1.0
  {
    if 0.0 <= t <= 1.0 {
      NonNegMul(t, 1.0 - t);
    } else if t < 0.0 {
      assert (-t) * (1.0 - t) > 0.0;
    } else {
      assert t * (t - 1.0) > 0.0;
    }
  }

  lemma ScoreAccepts(t: real, u: real, denom: real)
    ensures Score(t, u, denom) >= 0.0 <==> 0.0 <= t <= 1.0 && 0.0 <= u <= 1.0 && Abs(denom) >= PARALLEL
  {
    UnitInterval(t);
    UnitInterval(u);
  }

  /** The branch-free test accepts the same edges with the same parameter. */
  lemma RayEdgeAgrees(dx1: real, dy1: real, dx2: real, dy2: real, dx3: real, dy3: real)
    ensures var r := RayEdgeT(dx1, dy1, dx2, dy2, dx3, dy3);
            EdgeIntersection(dx1, dy1, dx2, dy2, dx3, dy3) == if r.1 then Some(r.0) else None
  {
    var denom := Denom(dx1, dy1, dx2, dy2);
    if denom != 0.0 {
      ScoreAccepts(Ratio(Denom(dx3, dy3, dx2, dy2), denom), Ratio(Denom(dx3, dy3, dx1, dy1), denom), denom);
    }
  }

  /** A crossing lies on both segments. */
  lemma CrossingOnBoth(a1: Point, a2: Point, b1: Point, b2: Point) returns (u: real)
    requires SegmentIntersection(a1, a2, b1, b2).Some?
    ensures 0.0 <= u <= 1.0 && 0.0 <= SegmentIntersection(a1, a2, b1, b2).value <= 1.0
    ensures Along(a1, a2, SegmentIntersection(a1, a2, b1, b2).value) == Along(b1, b2, u)
  {
    var t := SegmentIntersection(a1, a2, b1, b2).value;
    u := Crossed(a2.x - a1.x, a2.y - a1.y, b2.x - b1.x, b2.y - b1.y, b1.x - a1.x, b1.y - a1.y);
    LerpsMeet(a1.x, a2.x, b1.x, b2.x, t, u);
    LerpsMeet(a1.y, a2.y, b1.y, b2.y, t, u);
  }

  /** In one coordinate, t along the first direction meets u along the second. */
  predicate Meeting(d1: real, d2: real, d3: real, t: real, u: real) { t * d1 == d3 + u * d2 }

  lemma LerpsMeet(a1: real, a2: real, b1: real, b2: real, t: real, u: real)
    ensures Lerp(a1, a2, t) == Lerp(b1, b2, u) <==> Meeting(a2 - a1, b2 - b1, b1 - a1, t, u)
  {}

  lemma Crossed(dx1: real, dy1: real, dx2: real, dy2: real, dx3: real, dy3: real) returns (u: real)
    requires EdgeIntersection(dx1, dy1, dx2, dy2, dx3, dy3).Some?
    ensures var t := EdgeIntersection(dx1, dy1, dx2, dy2, dx3, dy3).value;
            0.0 <= u <= 1.0 && 0.0 <= t <= 1.0 && Meeting(dx1, dx2, dx3, t, u) && Meeting(dy1, dy2, dy3, t, u)
  {
    var denom := Denom(dx1, dy1, dx2, dy2);
    u := Ratio(Denom(dx3, dy3, dx1, dy1), denom);
    Cramer(dx1, dy1, dx2, dy2, dx3, dy3, denom, Ratio(Denom(dx3, dy3, dx2, dy2), denom), u);
  }

  /** Cramer's rule for the two parameters of a crossing. */
  lemma Cramer(dx1: real, dy1: real, dx2: real, dy2: real, dx3: real, dy3: real, denom: real, t: real, u: real)
    requires denom == dx1 * dy2 - dy1 * dx2 && denom != 0.0
    requires t == (dx3 * dy2 - dy3 * dx2) / denom && u == (dx3 * dy1 - dy3 * dx1) / denom
    ensures t * dx1 == dx3 + u * dx2 && t * dy1 == dy3 + u * dy2
  {
    DivMul(dx3 * dy2 - dy3 * dx2, denom);
    DivMul(dx3 * dy1 - dy3 * dx1, denom);
    assert (t * dx1 - dx3 - u * dx2) * denom == (t * denom) * dx1 - dx3 * denom - (u * denom) * dx2;
    assert (t * dy1 - dy3 - u * dy2) * denom == (t * denom) * dy1 - dy3 * denom - (u * denom) * dy2;
    assert (dx3 * dy2 - dy3 * dx2) * dx1 - dx3 * (dx1 * dy2 - dy1 * dx2) - (dx3 * dy1 - dy3 * dx1) * dx2 == 0.0;
    assert (dx3 * dy2 - dy3 * dx2) * dy1 - dy3 * (dx1 * dy2 - dy1 * dx2) - (dx3 * dy1 - dy3 * dx1) * dy2 == 0.0;
    ZeroFactor(t * dx1 - dx3 - u * dx2, denom);
    ZeroFactor(t * dy1 - dy3 - u * dy2, denom);
  }

  lemma ZeroFactor(a: real, b: real)
    requires a * b == 0.0 && b != 0.0
    ensures a == 0.0
  {}

  /** Two directions whose cross product is at least 1e-12 either way. */
  ghost predicate Skew(a1: Point, a2: Point, b1: Point, b2: Point) {
    Abs(Denom(a2.x - a1.x, a2.y - a1.y, b2.x - b1.x, b2.y - b1.y)) >= 0.000000000001
  }

  /** The point a fraction t along a1a2 is a point of b1b2. */
  ghost predicate SharedAt(a1: Point, a2: Point, b1: Point, b2: Point, t: real) {
    0.0 <= t <= 1.0 && exists u :: 0.0 <= u <= 1.0 && Along(a1, a2, t) == Along(b1, b2, u)
  }

  lemma CramerBack(dx1: real, dy1: real, dx2: real, dy2: real, dx3: real, dy3: real, t: real, u: real)
    requires t * dx1 == dx3 + u * dx2 && t * dy1 == dy3 + u * dy2
    ensures Denom(dx3, dy3, dx2, dy2) == t * Denom(dx1, dy1, dx2, dy2)
    ensures Denom(dx3, dy3, dx1, dy1) == u * Denom(dx1, dy1, dx2, dy2)
  {
    assert t * (dx1 * dy2 - dy1 * dx2) == (t * dx1) * dy2 - (t * dy1) * dx2;
    assert (dx3 + u * dx2) * dy2 - (dy3 + u * dy2) * dx2 == dx3 * dy2 - dy3 * dx2;
    assert u * (dx1 * dy2 - dy1 * dx2) == dx1 * (u * dy2) - dy1 * (u * dx2);
    assert dx1 * (t * dy1 - dy3) - dy1 * (t * dx1 - dx3) == dx3 * dy1 - dy3 * dx1;
  }

  lemma RatioOf(n: real, t: real, d: real)
    requires n == t * d && d != 0.0
    ensures Ratio(n, d) == t
  {}

  /** Two parameters that meet are the ones the test computes. */
  lemma MeetingIsAccepted(dx1: real, dy1: real, dx2: real, dy2: real, dx3: real, dy3: real, t: real, u: real)
    requires Abs(Denom(dx1, dy1, dx2, dy2)) >= PARALLEL && 0.0 <= t <= 1.0 && 0.0 <= u <= 1.0
    requires Meeting(dx1, dx2, dx3, t, u) && Meeting(dy1, dy2, dy3, t, u)
    ensures EdgeIntersection(dx1, dy1, dx2, dy2, dx3, dy3) == Some(t)
  {
    var denom := Denom(dx1, dy1, dx2, dy2);
    CramerBack(dx1, dy1, dx2, dy2, dx3, dy3, t, u);
    RatioOf(Denom(dx3, dy3, dx2, dy2), t, denom);
    RatioOf(Denom(dx3, dy3, dx1, dy1), u, denom);
  }

  /** An edge is accepted exactly when it is skew to the ray and shares a point
      with it, and the parameter is that point's. */
  lemma AcceptedExactly(a1: Point, a2: Point, b1: Point, b2: Point, t: real)
    ensures SegmentIntersection(a1, a2, b1, b2) == Some(t) <==> Skew(a1, a2, b1, b2) && SharedAt(a1, a2, b1, b2, t)
  {
    if SegmentIntersection(a1, a2, b1, b2) == Some(t) {
      var u := CrossingOnBoth(a1, a2, b1, b2);
    }
    if Skew(a1, a2, b1, b2) && SharedAt(a1, a2, b1, b2, t) {
      var u :| 0.0 <= u <= 1.0 && Along(a1, a2, t) == Along(b1, b2, u);
      LerpsMeet(a1.x, a2.x, b1.x, b2.x, t, u);
      LerpsMeet(a1.y, a2.y, b1.y, b2.y, t, u);
      MeetingIsAccepted(a2.x - a1.x, a2.y - a1.y, b2.x - b1.x, b2.y - b1.y, b1.x - a1.x, b1.y - a1.y, t, u);
    }
  }

  /** The segment from source to receiver crosses edge k of a polyline, a fraction t along. */
  ghost predicate Crosses(source: Point, receiver: Point, line: seq<Point>, k: int, t: real) {
    0 <= k < |line| - 1 && Skew(source, receiver, line[k], line[k + 1]) && SharedAt(source, receiver, line[k], line[k + 1], t)
  }

  /** No crossing of the polyline is nearer the source, none as near on an earlier edge. */
  ghost predicate CrossesFirst(source: Point, receiver: Point, line: seq<Point>, k: int, t: real) {
    && Crosses(source, receiver, line, k, t)
    && forall j, s :: Crosses(source, receiver, line, j, s) ==> t <= s && (j < k ==> t < s)
  }

  // ---- the nearest edge ----

  /** An edge: its start, and its end minus its start. */
  datatype Edge = Edge(x: real, y: real, dx: real, dy: real)

  function EdgeAt(line: seq<Point>, k: nat): Edge
    requires k + 1 < |line|
  {
    Edge(line[k].x, line[k].y, line[k + 1].x - line[k].x, line[k + 1].y - line[k].y)
  }

  function EdgeCount(line: seq<Point>): nat { if |line| == 0 then 0 else |line| - 1 }

  function EdgesOf(line: seq<Point>): (e: seq<Edge>)
  {
    seq(EdgeCount(line), k requires 0 <= k < EdgeCount(line) => EdgeAt(line, k))
  }

  /** What the branch-free test makes of one edge for a ray from p. */
  function EdgeTest(e: Edge, p: Point, dx: real, dy: real): Option<real> {
    var c := RayEdgeT(dx, dy, e.dx, e.dy, e.x - p.x, e.y - p.y);
    if c.1 then Some(c.0) else None
  }

  function Tests(edges: seq<Edge>, p: Point, dx: real, dy: real): seq<Option<real>> {
    seq(|edges|, k requires 0 <= k < |edges| => EdgeTest(edges[k], p, dx, dy))
  }

  /** What the branching test makes of each edge of a polyline. */
  function Meets(line: seq<Point>, p1: Point, p2: Point): seq<Option<real>> {
    seq(EdgeCount(line), k requires 0 <= k < EdgeCount(line) => SegmentIntersection(p1, p2, line[k], line[k + 1]))
  }

  lemma EdgeTestAgrees(a: Point, b: Point, p1: Point, p2: Point)
    ensures EdgeTest(Edge(a.x, a.y, b.x - a.x, b.y - a.y), p1, p2.x - p1.x, p2.y - p1.y) == SegmentIntersection(p1, p2, a, b)
  {
    RayEdgeAgrees(p2.x - p1.x, p2.y - p1.y, b.x - a.x, b.y - a.y, a.x - p1.x, a.y - p1.y);
  }

  lemma TestsAreMeets(line: seq<Point>, p1: Point, p2: Point)
    ensures Tests(EdgesOf(line), p1, p2.x - p1.x, p2.y - p1.y) == Meets(line, p1, p2)
  {
    forall k | 0 <= k < EdgeCount(line)
      ensures Tests(EdgesOf(line), p1, p2.x - p1.x, p2.y - p1.y)[k] == Meets(line, p1, p2)[k]
    {
      EdgeTestAgrees(line[k], line[k + 1], p1, p2);
    }
  }

  datatype Hit = Hit(t: real, edge: nat)

  /** The least crossing, the first of equals. */
  function Nearest(ts: seq<Option<real>>): (h: Option<Hit>)
    ensures h.Some? ==> h.value.edge < |ts|
  {
    if ts == [] then None
    else
      var n := |ts| - 1;
      var best := Nearest(ts[..n]);
      if ts[n].Some? && (best.None? || ts[n].value < best.value.t) then Some(Hit(ts[n].value, n)) else best
  }

  /** A hit is no later than any crossing and earlier than those before it;
      there is none only when nothing is crossed. */
  lemma {:induction false} NearestIsFirst(ts: seq<Option<real>>)
    ensures Nearest(ts).None? ==> forall k :: 0 <= k < |ts| ==> ts[k].None?
    ensures Nearest(ts).Some? ==> var h := Nearest(ts).value;
      ts[h.edge] == Some(h.t) && forall k :: 0 <= k < |ts| && ts[k].Some? ==> h.t <= ts[k].value && (k < h.edge ==> h.t < ts[k].value)
  {
    if ts != [] {
      NearestIsFirst(ts[..|ts| - 1]);
    }
  }

  /** The nearest hit is the first crossing, and there is one whenever an edge is crossed. */
  lemma NearestCrosses(line: seq<Point>, p1: Point, p2: Point)
    ensures Nearest(Meets(line, p1, p2)).None? ==> forall k, t :: !Crosses(p1, p2, line, k, t)
    ensures Nearest(Meets(line, p1, p2)).Some? ==>
              CrossesFirst(p1, p2, line, Nearest(Meets(line, p1, p2)).value.edge, Nearest(Meets(line, p1, p2)).value.t)
  {
    var ts := Meets(line, p1, p2);
    NearestIsFirst(ts);
    forall k, t
      ensures Crosses(p1, p2, line, k, t) <==> 0 <= k < |ts| && ts[k] == Some(t)
    {
      if 0 <= k < |ts| {
        AcceptedExactly(p1, p2, line[k], line[k + 1], t);
      }
    }
  }

  // ---- the crossings of a ray ----

  /** A ray, how close to its ends a crossing may come, and math.Hypot's distance. */
  datatype Ray = Ray(source: Point, receiver: Point, tolerance: real, distance: (Point, Point) -> real) {

    /** appendCrossingAt: nothing when the crossing grazes either end. */
    function CrossingAt(point: Point, obstacle: nat, segment: nat): seq<RayCrossing> {
      var d := distance(source, point);
      if tolerance > 0.0 && (d < tolerance || distance(point, receiver) < tolerance) then []
      else [RayCrossing(point, d, obstacle, segment)]
    }

    function CrossingFor(h: Option<Hit>, obstacle: nat): seq<RayCrossing> {
      if h.None? then [] else CrossingAt(Along(source, receiver, h.value.t), obstacle, h.value.edge)
    }

    /** What one obstacle contributes: its crossing nearest the source, if any. */
    function CrossingOf(line: seq<Point>, obstacle: nat): seq<RayCrossing> {
      CrossingFor(Nearest(Meets(line, source, receiver)), obstacle)
    }

    function Contributions(lines: seq<seq<Point>>): seq<seq<RayCrossing>> {
      seq(|lines|, i requires 0 <= i < |lines| => CrossingOf(lines[i], i))
    }

    /** A point within a positive tolerance of either end. */
    ghost predicate Grazes(p: Point) {
      tolerance > 0.0 && (distance(source, p) < tolerance || distance(p, receiver) < tolerance)
    }

    /** c is where the ray first crosses its obstacle, not grazing an end. */
    ghost predicate IsCrossing(lines: seq<seq<Point>>, c: RayCrossing) {
      && c.obstacle < |lines| && c.dist == distance(source, c.point) && !Grazes(c.point)
      && exists t :: c.point == Along(source, receiver, t) && CrossesFirst(source, receiver, lines[c.obstacle], c.segment, t)
    }

    /** r lists, by distance and then by obstacle, where the ray first crosses
        each of these obstacles, if it does without grazing an end. */
    ghost predicate Answers(lines: seq<seq<Point>>, obstacles: seq<nat>, r: seq<RayCrossing>) {
      && (forall c :: c in r <==> c.obstacle in obstacles && IsCrossing(lines, c))
      && forall i, j :: 0 <= i < j < |r| ==> Nearer(r[i], r[j])
    }

    /** The same over every obstacle. */
    ghost predicate AnswersAll(lines: seq<seq<Point>>, r: seq<RayCrossing>) {
      && (forall c :: c in r <==> IsCrossing(lines, c))
      && forall i, j :: 0 <= i < j < |r| ==> Nearer(r[i], r[j])
    }
  }

  /** The named obstacles' contributions, in the order named. */
  function Collect(parts: seq<seq<RayCrossing>>, candidates: seq<nat>): seq<RayCrossing>
    requires Named(candidates, |parts|)
  {
    if candidates == [] then []
    else Collect(parts, candidates[..|candidates| - 1]) + parts[candidates[|candidates| - 1]]
  }

  predicate Named(candidates: seq<nat>, n: nat) {
    forall k :: 0 <= k < |candidates| ==> candidates[k] < n
  }

  function AllIndices(n: nat): seq<nat> { seq(n, i => i) }

  // ---- what the answer holds ----

  lemma FirstIsUnique(source: Point, receiver: Point, line: seq<Point>, k: int, t: real, j: int, s: real)
    requires CrossesFirst(source, receiver, line, k, t) && CrossesFirst(source, receiver, line, j, s)
    ensures k == j && t == s
  {}

  /** An obstacle contributes exactly its crossing, at most one. */
  lemma ContributionIs(ray: Ray, lines: seq<seq<Point>>, i: nat, c: RayCrossing)
    requires i < |lines|
    ensures c in ray.Contributions(lines)[i] <==> c.obstacle == i && ray.IsCrossing(lines, c)
    ensures |ray.Contributions(lines)[i]| <= 1
  {
    var h: Option<Hit> := Nearest(Meets(lines[i], ray.source, ray.receiver));
    NearestCrosses(lines[i], ray.source, ray.receiver);
    if c.obstacle == i && ray.IsCrossing(lines, c) {
      var t :| c.point == Along(ray.source, ray.receiver, t) && CrossesFirst(ray.source, ray.receiver, lines[i], c.segment, t);
      FirstIsUnique(ray.source, ray.receiver, lines[i], c.segment, t, h.value.edge, h.value.t);
    }
  }

  ghost predicate Rising(candidates: seq<nat>) {
    forall i, j :: 0 <= i < j < |candidates| ==> candidates[i] < candidates[j]
  }

  /** Collecting ascending obstacles lists their crossings by obstacle. */
  lemma {:induction false} CollectHolds(ray: Ray, lines: seq<seq<Point>>, candidates: seq<nat>)
    requires Named(candidates, |lines|) && Rising(candidates)
    ensures var s := Collect(ray.Contributions(lines), candidates);
            && (forall c :: c in s <==> c.obstacle in candidates && ray.IsCrossing(lines, c))
            && ByObstacle(s)
  {
    if candidates != [] {
      var n := |candidates| - 1;
      var i, parts := candidates[n], ray.Contributions(lines);
      CollectHolds(ray, lines, candidates[..n]);
      forall c: RayCrossing
        ensures c in parts[i] <==> c.obstacle == i && ray.IsCrossing(lines, c)
      {
        ContributionIs(ray, lines, i, c);
      }
      assert |parts[i]| <= 1 by {
        ContributionIs(ray, lines, i, RayCrossing(ray.source, 0.0, i, 0));
      }
      var rest := Collect(parts, candidates[..n]);
      assert forall c :: c in rest + parts[i] <==> c in rest || c in parts[i];
      assert candidates == candidates[..n] + [i];
      ObstacleNext(rest, parts[i], i);
    }
  }

  lemma ObstacleNext(s: seq<RayCrossing>, part: seq<RayCrossing>, i: nat)
    requires ByObstacle(s) && |part| <= 1
    requires (forall c :: c in s ==> c.obstacle < i) && forall c :: c in part ==> c.obstacle == i
    ensures ByObstacle(s + part)
  {
    forall a, b | 0 <= a < b < |s + part|
      ensures (s + part)[a].obstacle < (s + part)[b].obstacle
    {
      assert s[a] in s;
      assert (s + part)[b] in s || (s + part)[b] in part;
    }
  }

  /** The stably sorted crossings of ascending candidates answer the ray over them. */
  lemma SortedAnswers(ray: Ray, lines: seq<seq<Point>>, candidates: seq<nat>)
    requires Named(candidates, |lines|) && Rising(candidates)
    ensures ray.Answers(lines, candidates, StableSort(Collect(ray.Contributions(lines), candidates)))
  {
    CollectHolds(ray, lines, candidates);
    StableSortNearer(Collect(ray.Contributions(lines), candidates));
  }

  lemma AllIndicesAre(n: nat)
    ensures forall i: nat :: i in AllIndices(n) <==> i < n
  {
    forall i: nat | i < n
      ensures i in AllIndices(n)
    {
      assert AllIndices(n)[i] == i;
    }
  }

  lemma AnswersOfAll(ray: Ray, lines: seq<seq<Point>>, all: seq<nat>, r: seq<RayCrossing>)
    requires (forall i: nat :: i in all <==> i < |lines|) && ray.Answers(lines, all, r)
    ensures ray.AnswersAll(lines, r)
  {}

  /** Over all the obstacles. */
  lemma AllAnswers(ray: Ray, lines: seq<seq<Point>>)
    ensures ray.AnswersAll(lines, StableSort(Collect(ray.Contributions(lines), AllIndices(|lines|))))
  {
    var all := AllIndices(|lines|);
    AllIndicesAre(|lines|);
    SortedAnswers(ray, lines, all);
    AnswersOfAll(ray, lines, all, StableSort(Collect(ray.Contributions(lines), all)));
  }

  /** LineStringIntersectsSegment's loop. */
  method LineStringIntersectsSegment(line: seq<Point>, p1: Point, p2: Point) returns (h: Option<Hit>)
    ensures h == Nearest(Meets(line, p1, p2))
  {
    h := None;
    if |line| < 2 { return; }
    ghost var ts := Meets(line, p1, p2);
    for k := 0 to |line| - 1
      invariant h == Nearest(ts[..k])
    {
      EdgeTestAgrees(line[k], line[k + 1], p1, p2);
      var c := EdgeTest(EdgeAt(line, k), p1, p2.x - p1.x, p2.y - p1.y);
      assert ts[..k + 1][..k] == ts[..k];
      if c.Some? && (h.None? || c.value < h.value.t) {
        h := Some(Hit(c.value, k));
      }
    }
    assert ts[..|ts|] == ts;
  }

  method AppendSorted(dst: seq<RayCrossing>, tail: seq<RayCrossing>) returns (r: seq<RayCrossing>)
    ensures r == dst + StableSort(tail)
  {
    var a := new RayCrossing[|tail|](i requires 0 <= i < |tail| => tail[i]);
    assert a[..] == tail;
    SortRayCrossings(a);
    r := dst + a[..];
  }

  /** AppendRayCrossings: the candidates' crossings, stably sorted, after dst. */
  method AppendRayCrossings(dst: seq<RayCrossing>, ray: Ray, lines: seq<seq<Point>>, candidates: seq<nat>) returns (r: seq<RayCrossing>)
    requires Named(candidates, |lines|)
    ensures r == dst + StableSort(Collect(ray.Contributions(lines), candidates))
    ensures Rising(candidates) ==> ray.Answers(lines, candidates, r[|dst|..])
  {
    var tail := [];
    for k := 0 to |candidates|
      invariant tail == Collect(ray.Contributions(lines), candidates[..k])
    {
      var i := candidates[k];
      var h := LineStringIntersectsSegment(lines[i], ray.source, ray.receiver);
      assert candidates[..k + 1][..k] == candidates[..k];
      tail := tail + ray.CrossingFor(h, i);
    }
    assert candidates[..|candidates|] == candidates;
    r := AppendSorted(dst, tail);
    if Rising(candidates) {
      SortedAnswers(ray, lines, candidates);
    }
  }

  /** RayCrossings over every obstacle. */
  method RayCrossings(ray: Ray, lines: seq<seq<Point>>) returns (r: seq<RayCrossing>)
    ensures r == StableSort(Collect(ray.Contributions(lines), AllIndices(|lines|)))
    ensures ray.AnswersAll(lines, r)
  {
    r := AppendRayCrossings([], ray, lines, AllIndices(|lines|));
    AllAnswers(ray, lines);
  }

  // ---- the edge layout ----

  /** One sequence per quantity, each obstacle's edges contiguous. */
  datatype RayEdges = RayEdges(x: seq<real>, y: seq<real>, dx: seq<real>, dy: seq<real>, first: seq<nat>) {

    predicate Even() { |x| == |y| == |dx| == |dy| }

    function All(): seq<Edge>
      requires Even()
    {
      Zip(x, y, dx, dy)
    }

    ghost predicate LaysOne(lines: seq<seq<Point>>, i: nat)
      requires Even() && i < |lines| && i + 1 < |first|
    {
      first[i] <= first[i + 1] <= |x| && All()[first[i]..first[i + 1]] == EdgesOf(lines[i])
    }

    /** The edges of the first n polylines are laid out, in order. */
    ghost predicate Lays(lines: seq<seq<Point>>, n: nat)
      requires n <= |lines|
    {
      && Even()
      && |first| == n + 1 && first[n] == |x|
      && forall i :: 0 <= i < n ==> LaysOne(lines, i)
    }
  }

  function Zip(x: seq<real>, y: seq<real>, dx: seq<real>, dy: seq<real>): (r: seq<Edge>)
    requires |x| == |y| == |dx| == |dy|
  {
    seq(|x|, k requires 0 <= k < |x| => Edge(x[k], y[k], dx[k], dy[k]))
  }

  lemma LayNext(e: RayEdges, f: RayEdges, lines: seq<seq<Point>>, n: nat)
    requires n < |lines| && e.Lays(lines, n) && f.Even()
    requires f.All() == e.All() + EdgesOf(lines[n]) && f.first == e.first + [|f.x|]
    ensures f.Lays(lines, n + 1)
  {
    forall i | 0 <= i < n + 1
      ensures f.LaysOne(lines, i)
    {
      if i < n {
        assert e.LaysOne(lines, i);
        assert f.All()[f.first[i]..f.first[i + 1]] == e.All()[e.first[i]..e.first[i + 1]];
      } else {
        assert f.All()[|e.x|..|f.x|] == EdgesOf(lines[n]);
      }
    }
  }

  /** NewRayEdges. */
  method NewRayEdges(lines: seq<seq<Point>>) returns (e: RayEdges)
    ensures e.Lays(lines, |lines|)
  {
    e := RayEdges([], [], [], [], [0]);
    for i := 0 to |lines|
      invariant e.Lays(lines, i)
    {
      var f := AppendEdges(e, lines[i]);
      LayNext(e, f, lines, i);
      e := f;
    }
  }

  method AppendEdges(e: RayEdges, line: seq<Point>) returns (f: RayEdges)
    requires e.Even()
    ensures f.Even() && f.All() == e.All() + EdgesOf(line) && f.first == e.first + [|f.x|]
  {
    var x, y, dx, dy := e.x, e.y, e.dx, e.dy;
    var k := 1;
    while k < |line|
      invariant 1 <= k <= EdgeCount(line) + 1
      invariant |x| == |y| == |dx| == |dy| && Zip(x, y, dx, dy) == e.All() + EdgesOf(line)[..k - 1]
    {
      var a, b := line[k - 1], line[k];
      ghost var was := Zip(x, y, dx, dy);
      x, y, dx, dy := x + [a.x], y + [a.y], dx + [b.x - a.x], dy + [b.y - a.y];
      assert Zip(x, y, dx, dy) == was + [EdgeAt(line, k - 1)];
      assert EdgesOf(line)[..k] == EdgesOf(line)[..k - 1] + [EdgeAt(line, k - 1)];
      k := k + 1;
    }
    assert EdgesOf(line)[..k - 1] == EdgesOf(line);
    f := RayEdges(x, y, dx, dy, e.first + [|x|]);
  }

  /** nearestEdgeCrossing, over one obstacle's stretch of the layout. */
  method NearestEdgeCrossing(x: seq<real>, y: seq<real>, dx: seq<real>, dy: seq<real>, p: Point, rdx: real, rdy: real)
    returns (h: Option<Hit>)
    requires |x| == |y| == |dx| == |dy|
    ensures h == Nearest(Tests(Zip(x, y, dx, dy), p, rdx, rdy))
  {
    h := None;
    ghost var ts := Tests(Zip(x, y, dx, dy), p, rdx, rdy);
    for k := 0 to |x|
      invariant h == Nearest(ts[..k])
    {
      var c := EdgeTest(Edge(x[k], y[k], dx[k], dy[k]), p, rdx, rdy);
      assert ts[..k + 1][..k] == ts[..k];
      if c.Some? && (h.None? || c.value < h.value.t) {
        h := Some(Hit(c.value, k));
      }
    }
    assert ts[..|ts|] == ts;
  }

  /** One obstacle's contribution, from its stretch of the layout. */
  method EdgesCrossing(ray: Ray, edges: RayEdges, ghost lines: seq<seq<Point>>, i: nat) returns (part: seq<RayCrossing>)
    requires edges.Lays(lines, |lines|) && i < |lines|
    ensures part == ray.Contributions(lines)[i]
  {
    assert edges.LaysOne(lines, i);
    var lo, hi := edges.first[i], edges.first[i + 1];
    var h := NearestEdgeCrossing(edges.x[lo..hi], edges.y[lo..hi], edges.dx[lo..hi], edges.dy[lo..hi],
      ray.source, ray.receiver.x - ray.source.x, ray.receiver.y - ray.source.y);
    assert Zip(edges.x[lo..hi], edges.y[lo..hi], edges.dx[lo..hi], edges.dy[lo..hi]) == edges.All()[lo..hi];
    TestsAreMeets(lines[i], ray.source, ray.receiver);
    part := ray.CrossingFor(h, i);
  }

  /** AppendRayEdgeCrossings answers as AppendRayCrossings does. */
  method AppendRayEdgeCrossings(dst: seq<RayCrossing>, ray: Ray, edges: RayEdges, ghost lines: seq<seq<Point>>, candidates: seq<nat>)
    returns (r: seq<RayCrossing>)
    requires edges.Lays(lines, |lines|)
    requires Named(candidates, |lines|)
    ensures r == dst + StableSort(Collect(ray.Contributions(lines), candidates))
    ensures Rising(candidates) ==> ray.Answers(lines, candidates, r[|dst|..])
  {
    var tail := [];
    for k := 0 to |candidates|
      invariant tail == Collect(ray.Contributions(lines), candidates[..k])
    {
      var part := EdgesCrossing(ray, edges, lines, candidates[k]);
      CollectNext(ray.Contributions(lines), candidates[..k], candidates[k]);
      assert candidates[..k + 1] == candidates[..k] + [candidates[k]];
      tail := tail + part;
    }
    assert candidates[..|candidates|] == candidates;
    r := AppendSorted(dst, tail);
    if Rising(candidates) {
      SortedAnswers(ray, lines, candidates);
    }
  }

  // ---- narrowing loses nothing ----

  /** An obstacle the ray crosses has its box on the ray. */
  lemma CrossedIsOnSegment(line: seq<Point>, box: BBox, source: Point, receiver: Point)
    requires forall k :: 0 <= k < |line| ==> box.ContainsPoint(line[k])
    requires Nearest(Meets(line, source, receiver)).Some?
    ensures SegmentMeets(source, receiver, box)
  {
    var h := Nearest(Meets(line, source, receiver)).value;
    NearestIsFirst(Meets(line, source, receiver));
    EdgeInBox(line[h.edge], line[h.edge + 1], box, source, receiver);
  }

  lemma EdgeInBox(a: Point, b: Point, box: BBox, source: Point, receiver: Point)
    requires box.ContainsPoint(a) && box.ContainsPoint(b)
    requires SegmentIntersection(source, receiver, a, b).Some?
    ensures SegmentMeets(source, receiver, box)
  {
    var u := CrossingOnBoth(source, receiver, a, b);
    LerpWithin(a.x, b.x, u);
    LerpWithin(a.y, b.y, u);
    assert box.ContainsPoint(Along(source, receiver, SegmentIntersection(source, receiver, a, b).value));
  }

  /** Candidates outside which nothing contributes give what all indices do. */
  lemma {:induction false} CandidatesSuffice(parts: seq<seq<RayCrossing>>, found: set<nat>, n: nat)
    requires n <= |parts| && forall i: nat :: i < n && i !in found ==> parts[i] == []
    ensures Collect(parts, Ascending(found, n)) == Collect(parts, AllIndices(n))
  {
    if n > 0 {
      var i := n - 1;
      CandidatesSuffice(parts, found, i);
      TakeOrSkip(parts, Ascending(found, i), AllIndices(i), i, i in found);
      assert AllIndices(n) == AllIndices(i) + [i];
      assert Ascending(found, n) == if i in found then Ascending(found, i) + [i] else Ascending(found, i);
    }
  }

  lemma TakeOrSkip(parts: seq<seq<RayCrossing>>, some: seq<nat>, all: seq<nat>, i: nat, taken: bool)
    requires Named(some, |parts|) && Named(all, |parts|) && i < |parts| && (taken || parts[i] == [])
    requires Collect(parts, some) == Collect(parts, all)
    ensures Collect(parts, if taken then some + [i] else some) == Collect(parts, all + [i])
  {
    CollectNext(parts, some, i);
    CollectNext(parts, all, i);
    if !taken {
      assert Collect(parts, all) + [] == Collect(parts, all);
    }
  }

  lemma CollectNext(parts: seq<seq<RayCrossing>>, candidates: seq<nat>, i: nat)
    requires Named(candidates, |parts|) && i < |parts|
    ensures Collect(parts, candidates + [i]) == Collect(parts, candidates) + parts[i]
  {
    assert (candidates + [i])[..|candidates|] == candidates;
  }

  /** Every vertex of every polyline is in its obstacle's indexed box. */
  ghost predicate Boxed(boxes: seq<BBox>, lines: seq<seq<Point>>) {
    |boxes| == |lines| && forall i, k :: 0 <= i < |lines| && 0 <= k < |lines[i]| ==> boxes[i].ContainsPoint(lines[i][k])
  }

  /** Searching an ascending candidate set that holds every box on the ray
      gives exactly the crossings of a search over every obstacle. */
  lemma NarrowingIsExact(l: Layout, lines: seq<seq<Point>>, ray: Ray, found: set<nat>)
    requires Boxed(l.boxes, lines) && OnSegment(l, ray.source, ray.receiver) <= found
    ensures Collect(ray.Contributions(lines), Ascending(found, |lines|)) == Collect(ray.Contributions(lines), AllIndices(|lines|))
  {
    forall i: nat | i < |lines| && i !in found
      ensures ray.Contributions(lines)[i] == []
    {
      if Nearest(Meets(lines[i], ray.source, ray.receiver)).Some? {
        CrossedIsOnSegment(lines[i], l.boxes[i], ray.source, ray.receiver);
      }
    }
    CandidatesSuffice(ray.Contributions(lines), found, |lines|);
  }

  /** The narrowed walk of a whole ray: the index's candidates over the edge
      layout give what RayCrossings gives, on any cursor state between queries. */
  method NarrowedCrossings(cursor: BBoxGridCursor, ray: Ray, margin: real, edges: RayEdges, ghost lines: seq<seq<Point>>) returns (r: seq<RayCrossing>)
    requires margin >= 0.0 && cursor.Ready() && edges.Lays(lines, |lines|) && Boxed(cursor.grid.layout.boxes, lines)
    modifies cursor, cursor.marks, cursor.touched
    ensures cursor.Ready()
    ensures r == StableSort(Collect(ray.Contributions(lines), AllIndices(|lines|)))
    ensures ray.AnswersAll(lines, r)
  {
    var candidates, found := cursor.QuerySegment(ray.source, ray.receiver, margin, []);
    assert candidates == Ascending(found, |lines|);
    NarrowingIsExact(cursor.grid.layout, lines, ray, found);
    r := AppendRayEdgeCrossings([], ray, edges, lines, candidates);
    AllAnswers(ray, lines);
  }
}
