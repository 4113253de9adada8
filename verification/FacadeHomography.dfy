/** The homography four pairs of corners determine: from a photo of a facade to
    the facade's own frame. */
module FacadeHomographies {
  import opened Geometry
  import opened LinearSolve
  import opened Homographies
  import opened Horizon
  import opened Options

  const CONVEXITY_TOLERANCE: real := 0.000000001

  type Quad = q: seq<Point> | |q| == 4 witness [Point(0.0, 0.0), Point(0.0, 0.0), Point(0.0, 0.0), Point(0.0, 0.0)]

  /** What math.Hypot gives: never negative, and zero at the origin alone. */
  ghost predicate Norm(hypot: (real, real) -> real) {
    forall x, y :: hypot(x, y) >= 0.0 && (hypot(x, y) == 0.0 <==> x == 0.0 && y == 0.0)
  }

  function Gap(q: Quad, hypot: (real, real) -> real, i: nat, j: nat): real
    requires i < 4 && j < 4
  {
    hypot(q[j].x - q[i].x, q[j].y - q[i].y)
  }

  /** No two corners are further apart than size, and some two are that far. */
  ghost predicate IsSize(q: Quad, hypot: (real, real) -> real, size: real) {
    && (forall i, j :: 0 <= i < j < 4 ==> Gap(q, hypot, i, j) <= size)
    && exists i, j :: 0 <= i < j < 4 && Gap(q, hypot, i, j) == size
  }

  /** The turn at the corner after corner i. */
  function TurnAt(q: Quad, i: nat): real
    requires i < 4
  {
    Turn(q[i], q[(i + 1) % 4], q[(i + 2) % 4])
  }

  /** Every corner turns the way given, by more than limit. */
  predicate Turns(q: Quad, turn: int, limit: real) {
    forall i :: 0 <= i < 4 ==> if turn == 1 then TurnAt(q, i) > limit else TurnAt(q, i) < -limit
  }

  method SizeOf(q: Quad, hypot: (real, real) -> real) returns (size: real)
    requires Norm(hypot)
    ensures IsSize(q, hypot, size)
  {
    size := 0.0;
    for i := 0 to 4
      invariant size >= 0.0 && (i == 0 ==> size == 0.0) && (i > 0 ==> exists a, b :: 0 <= a < b < 4 && Gap(q, hypot, a, b) == size)
      invariant forall a, b :: 0 <= a < i && a < b < 4 ==> Gap(q, hypot, a, b) <= size
    {
      for j := i + 1 to 4
        invariant size >= 0.0 && (i == 0 && j == 1 ==> size == 0.0)
        invariant i > 0 || j > i + 1 ==> exists a, b :: 0 <= a < b < 4 && Gap(q, hypot, a, b) == size
        invariant forall a, b :: 0 <= a < b < 4 && (a < i || (a == i && b < j)) ==> Gap(q, hypot, a, b) <= size
      {
        assert Gap(q, hypot, i, j) >= 0.0;
        ghost var before := size;
        size := Max(size, Gap(q, hypot, i, j));
        assert size == Gap(q, hypot, i, j) || (size == before && (i > 0 || j > i + 1));
      }
    }
  }

  function StraightLimit(size: real): real { CONVEXITY_TOLERANCE * size * size }

  /** Every corner turns the way given, and by more than counts as straight. */
  ghost predicate Convex(q: Quad, hypot: (real, real) -> real, turn: int) {
    (turn == 1 || turn == -1) && exists size :: IsSize(q, hypot, size) && Turns(q, turn, StraightLimit(size))
  }

  lemma OneSize(q: Quad, hypot: (real, real) -> real, a: real, b: real)
    requires IsSize(q, hypot, a) && IsSize(q, hypot, b)
    ensures a == b
  {
    var i, j :| 0 <= i < j < 4 && Gap(q, hypot, i, j) == a;
    var k, l :| 0 <= k < l < 4 && Gap(q, hypot, k, l) == b;
  }

  lemma LimitNotNegative(size: real)
    ensures StraightLimit(size) >= 0.0
  {
    Square(size);
    NonNegMul(CONVEXITY_TOLERANCE, Times(size, size));
    assert CONVEXITY_TOLERANCE * Times(size, size) == StraightLimit(size);
  }

  /** A quadrilateral is not convex both ways round. */
  lemma OneWay(q: Quad, hypot: (real, real) -> real, turn: int)
    requires Convex(q, hypot, turn)
    ensures Turns(q, turn, 0.0) && !Convex(q, hypot, -turn)
  {
    var size :| IsSize(q, hypot, size) && Turns(q, turn, StraightLimit(size));
    LimitNotNegative(size);
    assert if turn == 1 then TurnAt(q, 0) > 0.0 else TurnAt(q, 0) < 0.0;
    if Convex(q, hypot, -turn) {
      var other :| IsSize(q, hypot, other) && Turns(q, -turn, StraightLimit(other));
      LimitNotNegative(other);
      assert false;
    }
  }

  /** convexTurn: which way every corner turns, or that they do not turn alike. */
  method ConvexTurn(q: Quad, hypot: (real, real) -> real) returns (turn: int, ok: bool)
    requires Norm(hypot)
    ensures ok ==> Convex(q, hypot, turn)
    ensures !ok ==> forall way :: !Convex(q, hypot, way)
  {
    var size := SizeOf(q, hypot);
    var bound := StraightLimit(size);
    LimitNotNegative(size);
    forall other | IsSize(q, hypot, other)
      ensures other == size
    {
      OneSize(q, hypot, size, other);
    }
    turn := 0;
    for i := 0 to 4
      invariant i == 0 <==> turn == 0
      invariant turn == 0 || turn == 1 || turn == -1
      invariant forall k :: 0 <= k < i ==> if turn == 1 then TurnAt(q, k) > bound else TurnAt(q, k) < -bound
    {
      var cross := TurnAt(q, i);
      if Abs(cross) <= bound {
        return 0, false;
      }
      var sign := if cross < 0.0 then -1 else 1;
      if turn != 0 && sign != turn {
        assert i > 0 && (if turn == 1 then TurnAt(q, 0) > bound else TurnAt(q, 0) < -bound);
        return 0, false;
      }
      turn := sign;
    }
    return turn, true;
  }

  // ---- normalisation ----

  function Centroid(q: Quad): Point {
    Point(q[0].x / 4.0 + q[1].x / 4.0 + q[2].x / 4.0 + q[3].x / 4.0, q[0].y / 4.0 + q[1].y / 4.0 + q[2].y / 4.0 + q[3].y / 4.0)
  }

  function Normal(p: Point, scale: real, c: Point): Point { Point((p.x - c.x) * scale, (p.y - c.y) * scale) }

  /** The sum of the first n corners' shares of the mean distance to the centroid. */
  function MeanUpto(q: Quad, hypot: (real, real) -> real, n: nat): real
    requires n <= 4
  {
    if n == 0 then 0.0 else MeanUpto(q, hypot, n - 1) + hypot(q[n - 1].x - Centroid(q).x, q[n - 1].y - Centroid(q).y) / 4.0
  }

  /** The scale that makes the mean distance root2. */
  function ScaleOf(q: Quad, hypot: (real, real) -> real, root2: real): real {
    if MeanUpto(q, hypot, 4) == 0.0 then 1.0 else root2 / MeanUpto(q, hypot, 4)
  }

  function Moved(q: Quad, scale: real): Quad {
    [Normal(q[0], scale, Centroid(q)), Normal(q[1], scale, Centroid(q)), Normal(q[2], scale, Centroid(q)), Normal(q[3], scale, Centroid(q))]
  }

  /** normalised: the points moved to their centroid and scaled. */
  method Normalised(q: Quad, hypot: (real, real) -> real, root2: real) returns (out: Quad, scale: real, c: Point)
    requires Norm(hypot) && root2 > 0.0 && TurnAt(q, 0) != 0.0
    ensures MeanUpto(q, hypot, 4) > 0.0 && scale == ScaleOf(q, hypot, root2) && scale > 0.0 && c == Centroid(q)
    ensures out == Moved(q, scale)
  {
    c := Point(0.0, 0.0);
    c := Point(c.x + q[0].x / 4.0, c.y + q[0].y / 4.0);
    c := Point(c.x + q[1].x / 4.0, c.y + q[1].y / 4.0);
    c := Point(c.x + q[2].x / 4.0, c.y + q[2].y / 4.0);
    c := Point(c.x + q[3].x / 4.0, c.y + q[3].y / 4.0);
    var mean := 0.0;
    for i := 0 to 4
      invariant mean >= 0.0 && mean == MeanUpto(q, hypot, i)
      invariant mean == 0.0 ==> forall k :: 0 <= k < i ==> q[k] == c
    {
      assert hypot(q[i].x - c.x, q[i].y - c.y) >= 0.0;
      mean := mean + hypot(q[i].x - c.x, q[i].y - c.y) / 4.0;
    }
    CornersDiffer(q);
    assert mean != 0.0;
    scale := root2 / mean;
    PositiveQuotient(root2, mean);
    out := [Normal(q[0], scale, c), Normal(q[1], scale, c), Normal(q[2], scale, c), Normal(q[3], scale, c)];
  }

  lemma CornersDiffer(q: Quad)
    requires TurnAt(q, 0) != 0.0
    ensures q[0] != q[1]
  {}

  lemma PositiveQuotient(a: real, b: real)
    requires a > 0.0 && b > 0.0
    ensures a / b > 0.0
  {
    DivCompare(a, 0.0, b);
  }

  // ---- the equations ----

  function EquationX(p: Point, f: Point): Row { [p.x, p.y, 1.0, 0.0, 0.0, 0.0, -f.x * p.x, -f.x * p.y, f.x] }

  function EquationY(p: Point, f: Point): Row { [0.0, 0.0, 0.0, p.x, p.y, 1.0, -f.y * p.x, -f.y * p.y, f.y] }

  function FromVector(v: Vector): Homography { Homography(v[0], v[1], v[2], v[3], v[4], v[5], v[6], v[7], 1.0) }

  lemma PairSum(a: real, b: real, c: real, g: real, h: real, x: real, y: real, u: real)
    requires a * x + b * y + c + (-u * x * g) + (-u * y * h) == u
    ensures a * x + b * y + c * 1.0 == u * (g * x + h * y + 1.0 * 1.0)
  {}

  lemma EquationXSays(p: Point, f: Point, v: Vector)
    requires Holds(EquationX(p, f), v)
    ensures Row3(v[0], v[1], v[2], p.x, p.y, 1.0) == f.x * Row3(v[6], v[7], 1.0, p.x, p.y, 1.0)
  {
    DotInFull(EquationX(p, f), v);
    PairSum(v[0], v[1], v[2], v[6], v[7], p.x, p.y, f.x);
  }

  lemma EquationYSays(p: Point, f: Point, v: Vector)
    requires Holds(EquationY(p, f), v)
    ensures Row3(v[3], v[4], v[5], p.x, p.y, 1.0) == f.y * Row3(v[6], v[7], 1.0, p.x, p.y, 1.0)
  {
    DotInFull(EquationY(p, f), v);
    PairSum(v[3], v[4], v[5], v[6], v[7], p.x, p.y, f.y);
  }

  /** A solution of a pair's two equations maps its point onto the other. */
  lemma SolutionMaps(p: Point, f: Point, v: Vector)
    requires Holds(EquationX(p, f), v) && Holds(EquationY(p, f), v)
    ensures FromVector(v).On(Lifted(p)) == Scale(Lifted(f), FromVector(v).Weight(p))
  {
    EquationXSays(p, f, v);
    EquationYSays(p, f, v);
    AffineIsRow(v[6], v[7], 1.0, p);
    OneTimes(FromVector(v).Weight(p));
  }

  /** Into normalised coordinates, and out of them. */
  function In(scale: real, c: Point): Homography {
    Homography(scale, 0.0, -scale * c.x, 0.0, scale, -scale * c.y, 0.0, 0.0, 1.0)
  }

  function Out(scale: real, c: Point): Homography
    requires scale != 0.0
  {
    Homography(1.0 / scale, 0.0, c.x, 0.0, 1.0 / scale, c.y, 0.0, 0.0, 1.0)
  }

  lemma InRow(x: real, y: real, scale: real, c: real)
    ensures Row3(scale, 0.0, -scale * c, x, y, 1.0) == (x - c) * scale
    ensures Row3(0.0, scale, -scale * c, y, x, 1.0) == (x - c) * scale
  {}

  lemma InMaps(p: Point, scale: real, c: Point)
    ensures In(scale, c).On(Lifted(p)) == Lifted(Normal(p, scale, c))
  {
    InRow(p.x, p.y, scale, c.x);
    InRow(p.y, p.x, scale, c.y);
  }

  lemma OutRow(x: real, y: real, scale: real, c: real)
    requires scale != 0.0
    ensures Row3(1.0 / scale, 0.0, c, (x - c) * scale, y, 1.0) == x
    ensures Row3(0.0, 1.0 / scale, c, y, (x - c) * scale, 1.0) == x
  {
    OutTerm(x - c, scale);
  }

  lemma OutTerm(d: real, scale: real)
    requires scale != 0.0
    ensures 1.0 / scale * (d * scale) == d
  {
    DivMul(1.0, scale);
    assert 1.0 / scale * (d * scale) == d * (1.0 / scale * scale);
  }

  lemma OutMaps(p: Point, scale: real, c: Point)
    requires scale != 0.0
    ensures Out(scale, c).On(Lifted(Normal(p, scale, c))) == Lifted(p)
  {
    OutRow(p.x, Normal(p, scale, c).y, scale, c.x);
    OutRow(p.y, Normal(p, scale, c).x, scale, c.y);
  }

  // ---- the map ----

  datatype Result = Solved(h: Homography) | ImageNotConvex | FacadeNotConvex | Mirrored | Undetermined | BeyondHorizon(corner: nat)

  /** Every image corner maps onto its facade corner, with a positive weight. */
  ghost predicate MapsCorners(h: Homography, image: Quad, facade: Quad) {
    forall i :: 0 <= i < 4 ==> h.Weight(image[i]) > 0.0 && h.Apply(image[i]) == Some(facade[i])
  }

  /** Undoing the normalisation keeps each corner on its corner. */
  lemma CornerMaps(v: Vector, p: Point, f: Point, imageScale: real, imageCentre: Point, facadeScale: real, facadeCentre: Point)
    requires facadeScale != 0.0
    requires Holds(EquationX(Normal(p, imageScale, imageCentre), Normal(f, facadeScale, facadeCentre)), v)
    requires Holds(EquationY(Normal(p, imageScale, imageCentre), Normal(f, facadeScale, facadeCentre)), v)
    ensures var h := Out(facadeScale, facadeCentre).After(FromVector(v)).After(In(imageScale, imageCentre));
      h.On(Lifted(p)) == Scale(Lifted(f), h.Weight(p))
  {
    var o, m, n := Out(facadeScale, facadeCentre), FromVector(v), In(imageScale, imageCentre);
    var x, u := Normal(p, imageScale, imageCentre), Normal(f, facadeScale, facadeCentre);
    var w := m.Weight(x);
    AfterMaps(o.After(m), n, Lifted(p));
    InMaps(p, imageScale, imageCentre);
    AfterMaps(o, m, Lifted(x));
    SolutionMaps(x, u, v);
    OnScaled(o, Lifted(u), w);
    OutMaps(f, facadeScale, facadeCentre);
    OnLifted(o.After(m).After(n), p);
    OneTimes(w);
  }

  lemma RowDivided(a: real, b: real, c: real, x: real, y: real, z: real, d: real)
    requires d != 0.0
    ensures Row3(a / d, b / d, c / d, x, y, z) == Row3(a, b, c, x, y, z) / d
  {
    DivMul(a, d);
    DivMul(b, d);
    DivMul(c, d);
    DivMul(Row3(a, b, c, x, y, z), d);
    RowTimes(x, y, z, a / d, b / d, c / d, d);
    RowTimes(a, b, c, x, y, z, d);
    RowTimes(a / d, b / d, c / d, x, y, z, d);
    CancelDiv(Row3(a / d, b / d, c / d, x, y, z), Row3(a, b, c, x, y, z) / d, d);
  }

  /** Dividing a homography by a number divides every triple it gives. */
  lemma OverMaps(h: Homography, d: real, p: Point)
    requires d != 0.0
    ensures h.Over(d).On(Lifted(p)) == Triple(h.On(Lifted(p)).x / d, h.On(Lifted(p)).y / d, h.On(Lifted(p)).w / d)
  {
    RowDivided(h.h0, h.h1, h.h2, p.x, p.y, 1.0, d);
    RowDivided(h.h3, h.h4, h.h5, p.x, p.y, 1.0, d);
    RowDivided(h.h6, h.h7, h.h8, p.x, p.y, 1.0, d);
  }

  lemma DividedEntry(e: real, a: real, w: real, d: real)
    requires d != 0.0 && e == a * w
    ensures e / d == a * (w / d)
  {
    DivMul(e, d);
    DivMul(w, d);
    assert a * (w / d) * d == a * (w / d * d);
    CancelDiv(e / d, a * (w / d), d);
  }

  lemma OverKeeps(h: Homography, d: real, p: Point, f: Point)
    requires d != 0.0 && h.On(Lifted(p)) == Scale(Lifted(f), h.Weight(p))
    ensures h.Over(d).Weight(p) == h.Weight(p) / d
    ensures h.Over(d).On(Lifted(p)) == Scale(Lifted(f), h.Over(d).Weight(p))
  {
    WeightOver(h, d, p);
    OverMaps(h, d, p);
    DividedEntry(h.On(Lifted(p)).x, f.x, h.Weight(p), d);
    DividedEntry(h.On(Lifted(p)).y, f.y, h.Weight(p), d);
    DividedEntry(h.On(Lifted(p)).w, 1.0, h.Weight(p), d);
  }

  /** Rows 2i and 2i+1 of the system are pair i's equations. */
  ghost predicate Poses(a: seq<Row>, image: Quad, facade: Quad) {
    |a| == 8 && forall i :: 0 <= i < 4 ==> a[2 * i] == EquationX(image[i], facade[i]) && a[2 * i + 1] == EquationY(image[i], facade[i])
  }

  method Pose(image: Quad, facade: Quad) returns (a: array<Row>)
    ensures fresh(a) && Poses(a[..], image, facade)
  {
    a := new Row[8](_ => [0.0, 0.0, 0.0, 0.0, 0.0, 0.0, 0.0, 0.0, 0.0]);
    for i := 0 to 4
      invariant forall k :: 0 <= k < i ==> a[2 * k] == EquationX(image[k], facade[k]) && a[2 * k + 1] == EquationY(image[k], facade[k])
    {
      a[2 * i] := EquationX(image[i], facade[i]);
      a[2 * i + 1] := EquationY(image[i], facade[i]);
    }
  }

  /** The normalised pairs' system has a column that is nearly a combination of
      those before it. */
  ghost predicate NearlyDegenerate(image: Quad, facade: Quad, hypot: (real, real) -> real, root2: real) {
    exists rows :: Poses(rows, Moved(image, ScaleOf(image, hypot, root2)), Moved(facade, ScaleOf(facade, hypot, root2))) && NearlyDependent(rows)
  }

  /** The map the solution stands for once the normalisation is undone. */
  function Undone(v: Vector, imageScale: real, imageCentre: Point, facadeScale: real, facadeCentre: Point): Homography
    requires facadeScale != 0.0
  {
    Out(facadeScale, facadeCentre).After(FromVector(v)).After(In(imageScale, imageCentre))
  }

  /** Undoing the normalisation leaves the weight at the centroid 1. */
  lemma CentreWeight(v: Vector, imageScale: real, imageCentre: Point, facadeScale: real, facadeCentre: Point)
    requires facadeScale != 0.0
    ensures Undone(v, imageScale, imageCentre, facadeScale, facadeCentre).Weight(imageCentre) == 1.0
  {
    var o, m, n := Out(facadeScale, facadeCentre), FromVector(v), In(imageScale, imageCentre);
    AfterMaps(o.After(m), n, Lifted(imageCentre));
    InMaps(imageCentre, imageScale, imageCentre);
    AtOrigin(imageCentre, imageScale);
    AfterMaps(o, m, Lifted(Point(0.0, 0.0)));
    OnLifted(o.After(m).After(n), imageCentre);
    LastRow(v[6], v[7]);
    LastRow(m.On(Lifted(Point(0.0, 0.0))).x, m.On(Lifted(Point(0.0, 0.0))).y);
  }

  lemma AtOrigin(c: Point, scale: real)
    ensures Normal(c, scale, c) == Point(0.0, 0.0)
  {}

  lemma LastRow(x: real, y: real)
    ensures Row3(0.0, 0.0, 1.0, x, y, 1.0) == 1.0 && Row3(x, y, 1.0, 0.0, 0.0, 1.0) == 1.0
  {}

  /** Solves the normalised system and undoes the normalisation. */
  method SolvePairs(image: Quad, facade: Quad, hypot: (real, real) -> real, root2: real) returns (h: Homography, ok: bool)
    requires Norm(hypot) && root2 > 0.0 && TurnAt(image, 0) != 0.0 && TurnAt(facade, 0) != 0.0
    ensures ok ==> h.Weight(Centroid(image)) == 1.0 && forall i :: 0 <= i < 4 ==> Takes(h, image[i], facade[i])
    ensures !ok ==> NearlyDegenerate(image, facade, hypot, root2)
  {
    var imageNorm, imageScale, imageCentre := Normalised(image, hypot, root2);
    var facadeNorm, facadeScale, facadeCentre := Normalised(facade, hypot, root2);
    var a := Pose(imageNorm, facadeNorm);
    ghost var s := a[..];
    var v;
    v, ok := Solve8(a);
    if !ok {
      return IDENTITY, false;
    }
    h := Out(facadeScale, facadeCentre).After(FromVector(v)).After(In(imageScale, imageCentre));
    CentreWeight(v, imageScale, imageCentre, facadeScale, facadeCentre);
    assert Solves(s, v);
    forall i | 0 <= i < 4
      ensures Takes(h, image[i], facade[i])
    {
      assert Holds(s[2 * i], v) && Holds(s[2 * i + 1], v);
      CornerMaps(v, image[i], facade[i], imageScale, imageCentre, facadeScale, facadeCentre);
    }
  }

  lemma WeightOver(h: Homography, d: real, p: Point)
    requires d != 0.0
    ensures h.Over(d).Weight(p) == h.Weight(p) / d
  {
    OverMaps(h, d, p);
    OnLifted(h, p);
    OnLifted(h.Over(d), p);
  }

  /** A map that takes the image's corners to the facade's, which turn the other
      way, and weighs the centroid 1 weighs every corner positively. */
  lemma AllPositive(h: Homography, image: Quad, facade: Quad, turn: int)
    requires (turn == 1 || turn == -1) && Turns(image, turn, 0.0) && Turns(facade, -turn, 0.0)
    requires h.Weight(Centroid(image)) == 1.0 && forall i :: 0 <= i < 4 ==> Takes(h, image[i], facade[i])
    ensures forall i :: 0 <= i < 4 ==> h.Weight(image[i]) > 0.0
  {
    Opposed(image, facade, turn);
    WeightsAgree(h, image[0], image[1], image[2], image[3], facade[0], facade[1], facade[2], facade[3]);
    MixWeight(h, image, 0.25, 0.25, 0.25, 0.25);
    assert Mix(image, 0.25, 0.25, 0.25, 0.25) == Centroid(image);
    SomePositive(h.Weight(image[0]), h.Weight(image[1]), h.Weight(image[2]), h.Weight(image[3]));
  }

  lemma SomePositive(a: real, b: real, c: real, d: real)
    requires 0.25 * a + 0.25 * b + 0.25 * c + 0.25 * d == 1.0
    ensures a > 0.0 || b > 0.0 || c > 0.0 || d > 0.0
  {}

  lemma Opposed(image: Quad, facade: Quad, turn: int)
    requires (turn == 1 || turn == -1) && Turns(image, turn, 0.0) && Turns(facade, -turn, 0.0)
    ensures OppositeTurns(image[0], image[1], image[2], image[3], facade[0], facade[1], facade[2], facade[3])
  {
    forall i | 0 <= i < 4
      ensures Opposite(TurnAt(image, i), TurnAt(facade, i)) && (TurnAt(image, i) > 0.0 <==> turn == 1)
    {}
    assert TurnAt(image, 0) == Turn(image[0], image[1], image[2]) && TurnAt(facade, 0) == Turn(facade[0], facade[1], facade[2]);
    assert TurnAt(image, 1) == Turn(image[1], image[2], image[3]) && TurnAt(facade, 1) == Turn(facade[1], facade[2], facade[3]);
    assert TurnAt(image, 2) == Turn(image[2], image[3], image[0]) && TurnAt(facade, 2) == Turn(facade[2], facade[3], facade[0]);
    assert TurnAt(image, 3) == Turn(image[3], image[0], image[1]) && TurnAt(facade, 3) == Turn(facade[3], facade[0], facade[1]);
  }

  /** The last steps of FacadeHomography: scales the map to weigh the centroid 1
      and refuses it when a corner is not in front of the horizon. */
  method Checked(h: Homography, image: Quad, facade: Quad) returns (r: Result)
    requires forall i :: 0 <= i < 4 ==> Takes(h, image[i], facade[i])
    ensures !r.ImageNotConvex? && !r.FacadeNotConvex? && !r.Mirrored?
    ensures r.Undetermined? <==> h.Weight(Centroid(image)) == 0.0
    ensures r.Solved? ==> r.h == h.Over(h.Weight(Centroid(image))) && MapsCorners(r.h, image, facade)
    ensures r.BeyondHorizon? ==> r.corner < 4 && h.Over(h.Weight(Centroid(image))).Weight(image[r.corner]) <= 0.0
  {
    var w := h.Weight(Centroid(image));
    if w == 0.0 { return Undetermined; }
    var scaled := h.Over(w);
    for i := 0 to 4
      invariant forall k :: 0 <= k < i ==> scaled.Weight(image[k]) > 0.0 && scaled.Apply(image[k]) == Some(facade[k])
    {
      if scaled.Weight(image[i]) <= 0.0 { return BeyondHorizon(i); }
      OverKeeps(h, w, image[i], facade[i]);
      AppliesAs(scaled, image[i], facade[i], scaled.Weight(image[i]));
    }
    return Solved(scaled);
  }

  lemma OverOne(h: Homography, c: Point, image: Quad, facade: Quad)
    requires h.Weight(c) == 1.0 && forall i :: 0 <= i < 4 ==> Takes(h, image[i], facade[i])
    ensures h.Over(1.0).Weight(c) == 1.0 && forall i :: 0 <= i < 4 ==> Takes(h.Over(1.0), image[i], facade[i])
  {
    WeightOver(h, 1.0, c);
    forall i | 0 <= i < 4
      ensures Takes(h.Over(1.0), image[i], facade[i])
    {
      OverKeeps(h, 1.0, image[i], facade[i]);
    }
  }

  // ---- and back ----

  lemma Reciprocal(w: real)
    requires w > 0.0
    ensures 1.0 / w > 0.0
  {
    PositiveQuotient(1.0, w);
  }

  /** A map of the image's corners onto those of a quadrilateral that turns can be
      undone: its inverse maps the facade's corners onto the image's, again with
      positive weights. */
  lemma InverseMapsBack(h: Homography, image: Quad, facade: Quad)
    requires MapsCorners(h, image, facade) && TurnAt(facade, 0) != 0.0
    ensures h.Inverse().Some? && MapsCorners(h.Inverse().value, facade, image)
  {
    forall i | 0 <= i < 4
      ensures Takes(h, image[i], facade[i]) && h.Weight(image[i]) != 0.0
    {
      LiftOfApply(h, image[i]);
    }
    NotSingular(h, image[0], image[1], image[2], facade[0], facade[1], facade[2]);
    InverseIsTwoSided(h);
    forall i | 0 <= i < 4
      ensures h.Inverse().value.Weight(facade[i]) > 0.0 && h.Inverse().value.Apply(facade[i]) == Some(image[i])
    {
      InverseUndoes(h, image[i]);
      Reciprocal(h.Weight(image[i]));
    }
  }

  // ---- the whole solve ----

  /** FacadeHomography once both quadrilaterals are known to be convex and to
      turn opposite ways. */
  method SolvedAndChecked(image: Quad, facade: Quad, hypot: (real, real) -> real, root2: real, ghost turn: int) returns (r: Result)
    requires Norm(hypot) && root2 > 0.0 && (turn == 1 || turn == -1) && Turns(image, turn, 0.0) && Turns(facade, -turn, 0.0)
    ensures r.Solved? || r.Undetermined?
    ensures r.Undetermined? ==> NearlyDegenerate(image, facade, hypot, root2)
    ensures r.Solved? ==> MapsCorners(r.h, image, facade) && r.h.Weight(Centroid(image)) == 1.0
  {
    var h, ok := SolvePairs(image, facade, hypot, root2);
    if !ok { return Undetermined; }
    r := Checked(h, image, facade);
    OverOne(h, Centroid(image), image, facade);
    AllPositive(h.Over(1.0), image, facade, turn);
  }

  /** FacadeHomography: a map that takes each image corner to its facade corner,
      its weight 1 at the image's centroid and positive at every corner. Scaled
      so, a solved map leaves no corner beyond the horizon. */
  method FacadeHomography(image: Quad, facade: Quad, hypot: (real, real) -> real, root2: real) returns (r: Result)
    requires Norm(hypot) && root2 > 0.0
    ensures r.ImageNotConvex? <==> forall turn :: !Convex(image, hypot, turn)
    ensures r.FacadeNotConvex? ==> forall turn :: !Convex(facade, hypot, turn)
    ensures r.Mirrored? <==> exists turn :: Convex(image, hypot, turn) && Convex(facade, hypot, turn)
    ensures r.Undetermined? ==> NearlyDegenerate(image, facade, hypot, root2)
    ensures !r.BeyondHorizon?
    ensures r.Solved? ==> MapsCorners(r.h, image, facade) && r.h.Weight(Centroid(image)) == 1.0
    ensures r.Solved? ==> exists turn :: Convex(image, hypot, turn) && Convex(facade, hypot, -turn)
    ensures r.Solved? ==> r.h.Inverse().Some? && MapsCorners(r.h.Inverse().value, facade, image)
  {
    var imageTurn, imageOk := ConvexTurn(image, hypot);
    if !imageOk { return ImageNotConvex; }
    var facadeTurn, facadeOk := ConvexTurn(facade, hypot);
    if !facadeOk { return FacadeNotConvex; }
    if imageTurn == facadeTurn { return Mirrored; }
    OneWay(image, hypot, imageTurn);
    OneWay(facade, hypot, facadeTurn);
    assert forall turn :: Convex(image, hypot, turn) ==> turn == imageTurn;
    assert forall turn :: Convex(facade, hypot, turn) ==> turn == facadeTurn == -imageTurn;
    r := SolvedAndChecked(image, facade, hypot, root2, imageTurn);
    if r.Solved? {
      InverseMapsBack(r.h, image, facade);
    }
  }

  // ---- over the whole quadrilateral ----

  /** The point of a quadrilateral with these weights on its corners. */
  function Mix(q: Quad, a: real, b: real, c: real, d: real): Point {
    Point(a * q[0].x + b * q[1].x + c * q[2].x + d * q[3].x, a * q[0].y + b * q[1].y + c * q[2].y + d * q[3].y)
  }

  lemma MixWeight(h: Homography, q: Quad, a: real, b: real, c: real, d: real)
    requires a + b + c + d == 1.0
    ensures h.Weight(Mix(q, a, b, c, d)) == a * h.Weight(q[0]) + b * h.Weight(q[1]) + c * h.Weight(q[2]) + d * h.Weight(q[3])
  {
    MixAffine(h.h6, h.h7, h.h8, q[0].x, q[0].y, q[1].x, q[1].y, q[2].x, q[2].y, q[3].x, q[3].y, a, b, c, d);
  }

  lemma MixAffine(l: real, m: real, n: real, x0: real, y0: real, x1: real, y1: real, x2: real, y2: real, x3: real, y3: real,
                  a: real, b: real, c: real, d: real)
    requires d == 1.0 - a - b - c
    ensures l * (a * x0 + b * x1 + c * x2 + d * x3) + m * (a * y0 + b * y1 + c * y2 + d * y3) + n
         == a * (l * x0 + m * y0 + n) + b * (l * x1 + m * y1 + n) + c * (l * x2 + m * y2 + n) + d * (l * x3 + m * y3 + n)
  {
    assert a * n + b * n + c * n + d * n == n;
  }

  /** The weight is positive at every point of the image quadrilateral. */
  lemma PositiveInside(h: Homography, image: Quad, facade: Quad, a: real, b: real, c: real, d: real)
    requires MapsCorners(h, image, facade)
    requires a >= 0.0 && b >= 0.0 && c >= 0.0 && d >= 0.0 && a + b + c + d == 1.0
    ensures h.Weight(Mix(image, a, b, c, d)) > 0.0
  {
    MixWeight(h, image, a, b, c, d);
    PositiveSum(a, b, c, d, h.Weight(image[0]), h.Weight(image[1]), h.Weight(image[2]), h.Weight(image[3]));
  }

  lemma PositiveSum(a: real, b: real, c: real, d: real, w: real, x: real, y: real, z: real)
    requires a >= 0.0 && b >= 0.0 && c >= 0.0 && d >= 0.0 && a + b + c + d == 1.0
    requires w > 0.0 && x > 0.0 && y > 0.0 && z > 0.0
    ensures a * w + b * x + c * y + d * z > 0.0
  {
    var least := Min(Min(w, x), Min(y, z));
    MulMono(least, w, a);
    MulMono(least, x, b);
    MulMono(least, y, c);
    MulMono(least, z, d);
    assert least * a + least * b + least * c + least * d == least * (a + b + c + d);
  }
}
