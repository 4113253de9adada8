/** The rubber band laid over a cross-section: the upper hull of points sorted by
    distance, thinned of the vertices that barely clear it. */
module RubberBand {
  import opened Geometry

  datatype HullPoint = HullPoint(dist: real, height: real, index: int)

  const HULL_COLLINEAR_TOLERANCE_M: real := 0.000001

  /** The height of b above the chord a to c, times the chord's run. */
  function Rise(a: HullPoint, c: HullPoint, b: HullPoint): real {
    Lift(a.dist, a.height, c.dist, c.height, b.dist, b.height)
  }

  function Lift(ad: real, ah: real, cd: real, ch: real, bd: real, bh: real): real {
    (bh - ah) * (cd - ad) - (bd - ad) * (ch - ah)
  }

  ghost predicate SortedByDist(s: seq<HullPoint>) {
    forall i, j :: 0 <= i <= j < |s| ==> s[i].dist <= s[j].dist
  }

  /** p lies along the edge a to b, no more than tol above it. */
  predicate UnderEdge(a: HullPoint, b: HullPoint, p: HullPoint, tol: real) {
    && a.dist <= p.dist <= b.dist
    && Rise(a, b, p) <= tol * (b.dist - a.dist)
    && (a.dist == b.dist ==> p.height <= Max(a.height, b.height) + tol)
  }

  /** p stands no more than tol above the band through these vertices. */
  ghost predicate UnderBand(band: seq<HullPoint>, p: HullPoint, tol: real) {
    exists k :: 0 <= k < |band| - 1 && EdgeCovers(band, k, p, tol)
  }

  predicate EdgeCovers(band: seq<HullPoint>, k: nat, p: HullPoint, tol: real)
    requires k + 1 < |band|
  {
    UnderEdge(band[k], band[k + 1], p, tol)
  }

  /** The band turns strictly down at vertex k. */
  predicate TurnsDown(band: seq<HullPoint>, k: nat)
    requires 0 < k && k + 1 < |band|
  {
    Rise(band[k - 1], band[k + 1], band[k]) > 0.0
  }

  ghost predicate Concave(band: seq<HullPoint>) {
    forall k :: 0 < k < |band| - 1 ==> TurnsDown(band, k)
  }

  // ---- the chain ----

  /** The vertices left once those on or below the line to c are popped. */
  function Popped(band: seq<HullPoint>, c: HullPoint): (r: seq<HullPoint>)
    ensures r <= band && (|band| >= 1 ==> |r| >= 1)
  {
    if |band| >= 2 && Rise(band[|band| - 2], c, band[|band| - 1]) <= 0.0 then Popped(band[..|band| - 1], c) else band
  }

  function Push(band: seq<HullPoint>, c: HullPoint): seq<HullPoint> { Popped(band, c) + [c] }

  /** The hull of the points, before thinning. */
  function Chain(points: seq<HullPoint>): seq<HullPoint> {
    if points == [] then [] else Push(Chain(points[..|points| - 1]), points[|points| - 1])
  }

  lemma {:induction false} ChainEnds(points: seq<HullPoint>)
    requires points != []
    ensures Chain(points) != [] && Chain(points)[0] == points[0]
    ensures Chain(points)[|Chain(points)| - 1] == points[|points| - 1]
    ensures |points| > 1 ==> |Chain(points)| > 1
  {
    if |points| > 1 {
      ChainEnds(points[..|points| - 1]);
    }
  }

  // ---- one pop ----

  /** p under a b, and b under a c, puts p under a c, measured from a. */
  lemma Lever(B: real, P: real, C: real, b: real, p: real, c: real)
    requires 0.0 <= P <= B <= C && 0.0 < B
    requires p * B <= b * P && b * C <= c * B
    ensures p * C <= c * P
  {
    MulMono(p * B, b * P, C);
    MulMono(b * C, c * B, P);
    assert (p * C) * B == (p * B) * C && (c * P) * B == (c * B) * P && (b * P) * C == (b * C) * P;
    if p * C > c * P {
      MulStrict(c * P, p * C, B);
    }
  }

  lemma RiseFromFirst(a: HullPoint, c: HullPoint, b: HullPoint)
    ensures Rise(a, c, b) <= 0.0 <==> (b.height - a.height) * (c.dist - a.dist) <= (c.height - a.height) * (b.dist - a.dist)
  {}

  lemma RiseFromLast(a: HullPoint, c: HullPoint, b: HullPoint)
    ensures Rise(a, c, b) <= 0.0 <==> (b.height - c.height) * (c.dist - a.dist) <= (a.height - c.height) * (c.dist - b.dist)
  {
    RiseShift(b.height - a.height, c.height - a.height, b.dist - a.dist, c.dist - a.dist);
  }

  lemma RiseShift(b: real, c: real, B: real, C: real)
    ensures b * C - B * c == (b - c) * C - (-c) * (C - B)
  {}

  lemma PopKeepsBefore(a: HullPoint, b: HullPoint, c: HullPoint, p: HullPoint)
    requires a.dist <= b.dist <= c.dist && a.dist < c.dist && Rise(a, c, b) <= 0.0
    requires UnderEdge(a, b, p, 0.0)
    ensures UnderEdge(a, c, p, 0.0)
  {
    RiseFromFirst(a, c, b);
    RiseFromFirst(a, c, p);
    if a.dist < b.dist {
      RiseFromFirst(a, b, p);
      Lever(b.dist - a.dist, p.dist - a.dist, c.dist - a.dist, b.height - a.height, p.height - a.height, c.height - a.height);
    } else {
      NotAbove(b.height - a.height, c.dist - a.dist);
      BelowStart(p.height - a.height, c.dist - a.dist);
    }
  }

  lemma PopKeepsAfter(a: HullPoint, b: HullPoint, c: HullPoint, p: HullPoint)
    requires a.dist <= b.dist <= c.dist && a.dist < c.dist && Rise(a, c, b) <= 0.0
    requires UnderEdge(b, c, p, 0.0)
    ensures UnderEdge(a, c, p, 0.0)
  {
    RiseFromLast(a, c, b);
    RiseFromLast(a, c, p);
    if b.dist < c.dist {
      RiseFromLast(b, c, p);
      Lever(c.dist - b.dist, c.dist - p.dist, c.dist - a.dist, b.height - c.height, p.height - c.height, a.height - c.height);
    } else {
      NotAbove(b.height - c.height, c.dist - a.dist);
      BelowStart(p.height - c.height, c.dist - a.dist);
    }
  }

  /** Popping b loses no point along either of its edges, unless three points
      tie and b was the highest. */
  lemma PopKeeps(a: HullPoint, b: HullPoint, c: HullPoint, p: HullPoint)
    requires a.dist <= b.dist <= c.dist && Rise(a, c, b) <= 0.0
    requires a.dist == c.dist ==> b.height <= Max(a.height, c.height)
    requires UnderEdge(a, b, p, 0.0) || UnderEdge(b, c, p, 0.0)
    ensures UnderEdge(a, c, p, 0.0)
  {
    if a.dist == c.dist {
      LevelRise(a, c, p);
    } else if UnderEdge(a, b, p, 0.0) {
      PopKeepsBefore(a, b, c, p);
    } else {
      PopKeepsAfter(a, b, c, p);
    }
  }

  lemma NotAbove(h: real, run: real)
    requires run > 0.0 && h * run <= 0.0
    ensures h <= 0.0
  {
    if h > 0.0 {
      PositiveTimes(h, run);
    }
  }

  lemma BelowStart(h: real, run: real)
    requires run > 0.0 && h <= 0.0
    ensures h * run <= 0.0
  {
    NonNegMul(-h, run);
  }

  // ---- what the chain keeps ----

  lemma PrefixConcave(band: seq<HullPoint>, k: nat)
    requires Concave(band) && k <= |band|
    ensures Concave(band[..k])
  {
    forall j | 0 < j < k - 1
      ensures TurnsDown(band[..k], j)
    {
      assert TurnsDown(band, j);
    }
  }

  /** Pushing c after the pops keeps the band strictly concave. */
  lemma {:induction false} PushConcave(band: seq<HullPoint>, c: HullPoint)
    requires Concave(band)
    ensures Concave(Push(band, c))
  {
    var n := |band|;
    if n >= 2 && Rise(band[n - 2], c, band[n - 1]) <= 0.0 {
      PrefixConcave(band, n - 1);
      PushConcave(band[..n - 1], c);
    } else {
      forall k | 0 < k < n
        ensures TurnsDown(band + [c], k)
      {
        if k < n - 1 {
          assert TurnsDown(band, k);
        }
      }
    }
  }

  lemma SnocSorted(band: seq<HullPoint>, c: HullPoint)
    requires SortedByDist(band) && (band != [] ==> band[|band| - 1].dist <= c.dist)
    ensures forall r :: r <= band ==> SortedByDist(r + [c])
  {
    forall r | r <= band
      ensures SortedByDist(r + [c])
    {
      forall i, j | 0 <= i <= j < |r| + 1
        ensures (r + [c])[i].dist <= (r + [c])[j].dist
      {
        if i < |r| {
          assert r[i] == band[i] && band[i].dist <= band[|band| - 1].dist;
          assert j < |r| ==> r[j] == band[j];
        }
      }
    }
  }

  /** Every vertex of the chain strictly protrudes between its neighbours, and
      distances do not fall along it. */
  lemma {:induction false} ChainConcave(points: seq<HullPoint>)
    requires SortedByDist(points)
    ensures Concave(Chain(points)) && SortedByDist(Chain(points))
  {
    if points != [] {
      var before, c := points[..|points| - 1], points[|points| - 1];
      ChainConcave(before);
      PushConcave(Chain(before), c);
      if before != [] {
        ChainEnds(before);
      }
      SnocSorted(Chain(before), c);
    }
  }

  /** Of three vertices the first two at one distance, the second is lower. */
  lemma TieFalls(z: HullPoint, a: HullPoint, b: HullPoint)
    requires z.dist <= a.dist == b.dist && Rise(z, b, a) > 0.0
    ensures b.height < a.height
  {
    TieFallsIn(a.dist - z.dist, a.height - z.height, b.height - z.height);
  }

  lemma TieFallsIn(run: real, a: real, b: real)
    requires run >= 0.0 && a * run - run * b > 0.0
    ensures b < a
  {
    if a <= b {
      MulMono(a, b, run);
    }
  }

  lemma OnePop(band: seq<HullPoint>, c: HullPoint, p: HullPoint)
    requires |band| >= 2 && SortedByDist(band) && Concave(band)
    requires band[|band| - 1].dist <= c.dist && band[0].dist < c.dist
    requires Rise(band[|band| - 2], c, band[|band| - 1]) <= 0.0
    requires UnderBand(band + [c], p, 0.0)
    ensures UnderBand(band[..|band| - 1] + [c], p, 0.0)
  {
    var n := |band|;
    var left := band[..n - 1] + [c];
    var k :| 0 <= k < n && EdgeCovers(band + [c], k, p, 0.0);
    if k < n - 2 {
      assert EdgeCovers(left, k, p, 0.0);
    } else {
      if n >= 3 && band[n - 2].dist == band[n - 1].dist {
        assert TurnsDown(band, n - 2);
        TieFalls(band[n - 3], band[n - 2], band[n - 1]);
      }
      PopKeeps(band[n - 2], band[n - 1], c, p);
      assert EdgeCovers(left, n - 2, p, 0.0);
    }
  }

  /** The pops lose no point under the band to c. */
  lemma {:induction false} PopsKeep(band: seq<HullPoint>, c: HullPoint, p: HullPoint)
    requires band != [] && SortedByDist(band) && Concave(band)
    requires band[|band| - 1].dist <= c.dist && band[0].dist < c.dist
    requires UnderBand(band + [c], p, 0.0)
    ensures UnderBand(Push(band, c), p, 0.0)
  {
    var n := |band|;
    if n >= 2 && Rise(band[n - 2], c, band[n - 1]) <= 0.0 {
      OnePop(band, c, p);
      PrefixConcave(band, n - 1);
      PopsKeep(band[..n - 1], c, p);
    }
  }

  // ---- the points at the first distance ----

  /** Points 0 to m are those at the first distance. */
  ghost predicate FirstTie(points: seq<HullPoint>, m: nat) {
    && m < |points|
    && (forall k :: 0 <= k <= m ==> points[k].dist == points[0].dist)
    && forall k :: m < k < |points| ==> points[k].dist > points[0].dist
  }

  /** A point at the first distance stands no higher than the first of them or
      the last of them. */
  predicate Reached(points: seq<HullPoint>, m: nat, p: HullPoint)
    requires m < |points|
  {
    p.dist == points[0].dist ==> p.height <= Max(points[0].height, points[m].height)
  }

  /** Of points at one distance the chain holds the first and the last. */
  lemma {:induction false} TieChain(points: seq<HullPoint>)
    requires points != [] && forall k :: 0 <= k < |points| ==> points[k].dist == points[0].dist
    ensures Chain(points) == if |points| == 1 then points else [points[0], points[|points| - 1]]
  {
    var n := |points|;
    if n > 1 {
      var before, c := points[..n - 1], points[n - 1];
      TieChain(before);
      TiePush(points[0], points[n - 2], c);
      assert n == 2 ==> before == [points[0]];
    }
  }

  lemma TiePush(a: HullPoint, b: HullPoint, c: HullPoint)
    requires a.dist == b.dist == c.dist
    ensures Push([a], c) == [a, c] && Push([a, b], c) == [a, c]
  {
    LevelRise(a, c, b);
    assert [a, b][..1] == [a];
  }

  lemma LevelRise(a: HullPoint, c: HullPoint, b: HullPoint)
    requires a.dist == b.dist == c.dist
    ensures Rise(a, c, b) == 0.0
  {}

  lemma EdgeEnds(a: HullPoint, b: HullPoint)
    requires a.dist <= b.dist
    ensures UnderEdge(a, b, a, 0.0) && UnderEdge(a, b, b, 0.0)
  {}

  /** Under a band already, or the new point itself: under the band pushed on. */
  lemma CoversNext(band: seq<HullPoint>, c: HullPoint, p: HullPoint)
    requires band != [] && SortedByDist(band) && Concave(band)
    requires band[|band| - 1].dist <= c.dist && band[0].dist < c.dist
    requires UnderBand(band, p, 0.0) || p == c || band == [p]
    ensures UnderBand(Push(band, c), p, 0.0)
  {
    if UnderBand(band, p, 0.0) {
      var e :| 0 <= e < |band| - 1 && EdgeCovers(band, e, p, 0.0);
      assert EdgeCovers(band + [c], e, p, 0.0);
    } else {
      EdgeEnds(band[|band| - 1], c);
      assert EdgeCovers(band + [c], |band| - 1, p, 0.0);
    }
    PopsKeep(band, c, p);
  }

  /** Every point the first distance lets through ends up under the chain. */
  lemma {:induction false} ChainCovers(points: seq<HullPoint>, m: nat, p: HullPoint)
    requires SortedByDist(points) && FirstTie(points, m)
    requires 1 < |points| && p in points && Reached(points, m, p)
    ensures UnderBand(Chain(points), p, 0.0)
  {
    if |points| == m + 1 {
      TieChain(points);
      TieCovers(points[0], points[m], p);
    } else {
      var before, c := points[..|points| - 1], points[|points| - 1];
      TieBefore(points, m);
      ChainConcave(before);
      ChainEnds(before);
      if p in before && |before| > 1 {
        ChainCovers(before, m, p);
      } else if |before| == 1 {
        TieChain(before);
      }
      CoversNext(Chain(before), c, p);
    }
  }

  lemma TieCovers(a: HullPoint, b: HullPoint, p: HullPoint)
    requires a.dist == b.dist == p.dist && p.height <= Max(a.height, b.height)
    ensures UnderBand([a, b], p, 0.0)
  {
    LevelRise(a, b, p);
    assert EdgeCovers([a, b], 0, p, 0.0);
  }

  lemma TieBefore(points: seq<HullPoint>, m: nat)
    requires FirstTie(points, m) && m + 1 < |points|
    ensures FirstTie(points[..|points| - 1], m) && points[|points| - 1].dist > points[0].dist
  {}

  lemma PushSplits(band: seq<HullPoint>, c: HullPoint, j: nat)
    requires j < |Push(band, c)|
    ensures Push(band, c)[j] == c || (j < |band| && Push(band, c)[j] == band[j])
  {}

  /** Past its first vertex the chain holds at most the last of the first tie. */
  lemma {:induction false} ChainAtFirst(points: seq<HullPoint>, m: nat, j: nat)
    requires FirstTie(points, m) && 0 < j < |Chain(points)|
    requires Chain(points)[j].dist == points[0].dist
    ensures Chain(points)[j] == points[m]
  {
    if |points| == m + 1 {
      TieChain(points);
    } else {
      var before, c := points[..|points| - 1], points[|points| - 1];
      TieBefore(points, m);
      PushSplits(Chain(before), c, j);
      ChainAtFirst(before, m, j);
    }
  }

  lemma EdgeAtStart(a: HullPoint, b: HullPoint, p: HullPoint)
    requires UnderEdge(a, b, p, 0.0) && p.dist == a.dist
    ensures p.height <= if b.dist == a.dist then Max(a.height, b.height) else a.height
  {
    if b.dist > a.dist {
      NotAbove(p.height - a.height, b.dist - a.dist);
    }
  }

  lemma ChainReaches(points: seq<HullPoint>, m: nat, p: HullPoint)
    requires SortedByDist(points) && FirstTie(points, m) && 1 < |points|
    requires UnderBand(Chain(points), p, 0.0)
    ensures Reached(points, m, p)
  {
    if p.dist == points[0].dist {
      ChainEnds(points);
      ChainConcave(points);
      forall j | 0 < j < |Chain(points)| && Chain(points)[j].dist == points[0].dist
        ensures Chain(points)[j] == points[m]
      {
        ChainAtFirst(points, m, j);
      }
      StartReaches(Chain(points), points[m], p);
    }
  }

  /** A band whose vertices at the first distance are its first and q. */
  lemma StartReaches(band: seq<HullPoint>, q: HullPoint, p: HullPoint)
    requires SortedByDist(band) && UnderBand(band, p, 0.0) && p.dist == band[0].dist
    requires forall j :: 0 < j < |band| && band[j].dist == band[0].dist ==> band[j] == q
    ensures p.height <= Max(band[0].height, q.height)
  {
    var e :| 0 <= e < |band| - 1 && EdgeCovers(band, e, p, 0.0);
    assert band[0].dist <= band[e].dist;
    EdgeAtStart(band[e], band[e + 1], p);
  }

  /** The chain stands over every input point exactly when no point at the first
      distance stands above both the first and the last point there. */
  lemma ChainCoversExactly(points: seq<HullPoint>, m: nat)
    requires SortedByDist(points) && FirstTie(points, m) && 1 < |points|
    ensures (forall p :: p in points ==> UnderBand(Chain(points), p, 0.0)) <==> (forall p :: p in points ==> Reached(points, m, p))
  {
    forall p | p in points
      ensures UnderBand(Chain(points), p, 0.0) <==> Reached(points, m, p)
    {
      if Reached(points, m, p) {
        ChainCovers(points, m, p);
      } else if UnderBand(Chain(points), p, 0.0) {
        ChainReaches(points, m, p);
      }
    }
  }

  // ---- a concave band is concave through any of its vertices ----

  lemma TwoTurns(ux: real, uy: real, vx: real, vy: real, wx: real, wy: real)
    requires ux >= 0.0 && vx >= 0.0 && wx >= 0.0
    requires uy * vx - ux * vy > 0.0 && vy * wx - vx * wy > 0.0
    ensures uy * wx - ux * wy >= 0.0
  {
    if vx == 0.0 {
      Opposed(ux, vy, wx);
    } else {
      NonNegMul(uy * vx - ux * vy, wx);
      NonNegMul(vy * wx - vx * wy, ux);
      assert (uy * wx - ux * wy) * vx == (uy * vx - ux * vy) * wx + (vy * wx - vx * wy) * ux;
      FactorSign(uy * wx - ux * wy, vx);
    }
  }

  lemma Opposed(ux: real, vy: real, wx: real)
    requires ux >= 0.0 && wx >= 0.0 && -(ux * vy) > 0.0
    ensures vy * wx <= 0.0
  {
    if vy > 0.0 {
      NonNegMul(ux, vy);
    }
    NonNegMul(-vy, wx);
  }

  lemma LiftOfSteps(ad: real, ah: real, cd: real, ch: real, bd: real, bh: real)
    ensures Lift(ad, ah, cd, ch, bd, bh) == (bh - ah) * (cd - bd) - (bd - ad) * (ch - bh)
  {}

  lemma WideTurns(a: HullPoint, b: HullPoint, c: HullPoint, d: HullPoint)
    requires a.dist <= b.dist <= c.dist <= d.dist
    requires Rise(a, c, b) > 0.0 && Rise(b, d, c) > 0.0
    ensures Rise(a, d, b) > 0.0 && Rise(a, d, c) > 0.0
  {
    WideLifts(a.dist, a.height, b.dist, b.height, c.dist, c.height, d.dist, d.height);
  }

  lemma WideLifts(ad: real, ah: real, bd: real, bh: real, cd: real, ch: real, dd: real, dh: real)
    requires ad <= bd <= cd <= dd
    requires Lift(ad, ah, cd, ch, bd, bh) > 0.0 && Lift(bd, bh, dd, dh, cd, ch) > 0.0
    ensures Lift(ad, ah, dd, dh, bd, bh) > 0.0 && Lift(ad, ah, dd, dh, cd, ch) > 0.0
  {
    LiftOfSteps(ad, ah, cd, ch, bd, bh);
    LiftOfSteps(bd, bh, dd, dh, cd, ch);
    LiftOfSteps(ad, ah, dd, dh, bd, bh);
    LiftOfSteps(ad, ah, dd, dh, cd, ch);
    TwoTurnsSum(bd - ad, bh - ah, cd - bd, ch - bh, dd - cd, dh - ch, cd - ad, ch - ah, dd - bd, dh - bh);
  }

  lemma TwoTurnsSum(ux: real, uy: real, vx: real, vy: real, wx: real, wy: real, sx: real, sy: real, tx: real, ty: real)
    requires ux >= 0.0 && vx >= 0.0 && wx >= 0.0 && sx == ux + vx && sy == uy + vy && tx == vx + wx && ty == vy + wy
    requires uy * vx - ux * vy > 0.0 && vy * wx - vx * wy > 0.0
    ensures uy * tx - ux * ty > 0.0
    ensures sy * wx - sx * wy > 0.0
  {
    TwoTurns(ux, uy, vx, vy, wx, wy);
    assert uy * tx - ux * ty == (uy * vx - ux * vy) + (uy * wx - ux * wy);
    assert sy * wx - sx * wy == (uy * wx - ux * wy) + (vy * wx - vx * wy);
  }

  /** Any three vertices of a strictly concave band turn down. */
  lemma {:induction false} AnyThreeTurn(band: seq<HullPoint>, i: nat, j: nat, k: nat)
    requires Concave(band) && SortedByDist(band) && i < j < k < |band|
    ensures Rise(band[i], band[k], band[j]) > 0.0
    decreases k - i
  {
    if k == i + 2 {
      assert TurnsDown(band, j);
    } else if j < k - 1 {
      AnyThreeTurn(band, i, j, k - 1);
      AnyThreeTurn(band, j, k - 1, k);
      WideTurns(band[i], band[j], band[k - 1], band[k]);
    } else {
      AnyThreeTurn(band, i, i + 1, j);
      AnyThreeTurn(band, i + 1, j, k);
      WideTurns(band[i], band[i + 1], band[j], band[k]);
    }
  }

  // ---- thinning ----

  /** The vertex strictly between lo and n standing highest above the chord of
      lo and hi, the first of equals. */
  function Highest(band: seq<HullPoint>, lo: nat, hi: nat, n: nat): (best: nat)
    requires lo + 1 < n <= hi < |band|
    ensures lo < best < n
    ensures forall k :: lo < k < n ==> Rise(band[lo], band[hi], band[k]) <= Rise(band[lo], band[hi], band[best])
  {
    if n == lo + 2 then lo + 1
    else
      var best := Highest(band, lo, hi, n - 1);
      if Rise(band[lo], band[hi], band[n - 1]) > Rise(band[lo], band[hi], band[best]) then n - 1 else best
  }

  predicate Clears(band: seq<HullPoint>, lo: nat, hi: nat, k: nat)
    requires lo < k < hi < |band|
  {
    Rise(band[lo], band[hi], band[k]) > HULL_COLLINEAR_TOLERANCE_M * (band[hi].dist - band[lo].dist)
  }

  /** The vertices from lo up to but not including hi that the thinning keeps. */
  function KeptFrom(band: seq<HullPoint>, lo: nat, hi: nat): (at: seq<nat>)
    requires lo < hi < |band|
    ensures |at| > 0 && at[0] == lo && at[|at| - 1] < hi
    ensures forall j, k :: 0 <= j < k < |at| ==> at[j] < at[k]
    decreases hi - lo
  {
    if hi - lo < 2 then [lo]
    else
      var best := Highest(band, lo, hi, hi);
      if Clears(band, lo, hi, best) then KeptFrom(band, lo, best) + KeptFrom(band, best, hi) else [lo]
  }

  /** The band resting on these vertices and on hi. */
  function Rested(band: seq<HullPoint>, at: seq<nat>, hi: nat): seq<HullPoint>
    requires hi < |band| && forall k :: 0 <= k < |at| ==> at[k] < |band|
  {
    seq(|at|, k requires 0 <= k < |at| => band[at[k]]) + [band[hi]]
  }

  /** thinUpperConvexHull. */
  function Thinned(band: seq<HullPoint>): seq<HullPoint> {
    if |band| <= 2 then band else Rested(band, KeptFrom(band, 0, |band| - 1), |band| - 1)
  }

  /** What lies under the segment u v lies as close under a chord as u and v do. */
  lemma SegmentWithin(a: HullPoint, c: HullPoint, u: HullPoint, v: HullPoint, p: HullPoint, slack: real)
    requires a.dist <= c.dist && UnderEdge(u, v, p, 0.0)
    requires Rise(a, c, u) <= slack && Rise(a, c, v) <= slack
    ensures Rise(a, c, p) <= slack
  {
    if u.dist < v.dist {
      Blend(a.dist, a.height, c.dist, c.height, u.dist, u.height, v.dist, v.height, p.dist, p.height);
      Combine(Rise(a, c, p), Rise(a, c, u), Rise(a, c, v), Rise(u, v, p), v.dist - p.dist, p.dist - u.dist, v.dist - u.dist, c.dist - a.dist, slack);
    } else if u.height <= v.height {
      HigherLifts(a.dist, a.height, c.dist, c.height, p.dist, p.height, v.height);
    } else {
      HigherLifts(a.dist, a.height, c.dist, c.height, p.dist, p.height, u.height);
    }
  }

  lemma HigherLifts(ad: real, ah: real, cd: real, ch: real, bd: real, low: real, high: real)
    requires ad <= cd && low <= high
    ensures Lift(ad, ah, cd, ch, bd, low) <= Lift(ad, ah, cd, ch, bd, high)
  {
    MulMono(low - ah, high - ah, cd - ad);
  }

  lemma Blend(ad: real, ah: real, cd: real, ch: real, ud: real, uh: real, vd: real, vh: real, pd: real, ph: real)
    ensures Lift(ad, ah, cd, ch, pd, ph) * (vd - ud) ==
      Lift(ad, ah, cd, ch, ud, uh) * (vd - pd) + Lift(ad, ah, cd, ch, vd, vh) * (pd - ud) + Lift(ud, uh, vd, vh, pd, ph) * (cd - ad)
  {}

  lemma Combine(x: real, y: real, z: real, w: real, s: real, t: real, whole: real, run: real, slack: real)
    requires s >= 0.0 && t >= 0.0 && whole == s + t && whole > 0.0 && run >= 0.0
    requires x * whole == y * s + z * t + w * run
    requires y <= slack && z <= slack && w <= 0.0
    ensures x <= slack
  {
    MulMono(y, slack, s);
    MulMono(z, slack, t);
    MulMono(w, 0.0, run);
    assert slack * s + slack * t == slack * whole;
    assert x * whole <= slack * whole;
    if x > slack {
      MulStrict(slack, x, whole);
    }
  }

  lemma ChordAtEnds(a: HullPoint, c: HullPoint)
    ensures Rise(a, c, a) == 0.0 && Rise(a, c, c) == 0.0
  {
    LiftOfSteps(a.dist, a.height, c.dist, c.height, c.dist, c.height);
  }

  lemma NotLevel(a: HullPoint, b: HullPoint, c: HullPoint)
    requires a.dist <= b.dist <= c.dist && Rise(a, c, b) > 0.0
    ensures a.dist < c.dist
  {}

  lemma RunPositive(band: seq<HullPoint>, lo: nat, hi: nat)
    requires Concave(band) && SortedByDist(band) && lo + 1 < hi < |band|
    ensures band[lo].dist < band[hi].dist
  {
    AnyThreeTurn(band, lo, lo + 1, hi);
    NotLevel(band[lo], band[lo + 1], band[hi]);
  }

  /** Vertex k stands no more than the tolerance above the chord of lo and hi. */
  predicate NearChord(band: seq<HullPoint>, lo: nat, hi: nat, k: nat)
    requires lo <= k <= hi < |band|
  {
    Rise(band[lo], band[hi], band[k]) <= HULL_COLLINEAR_TOLERANCE_M * (band[hi].dist - band[lo].dist)
  }

  lemma AllNear(band: seq<HullPoint>, lo: nat, hi: nat, k: nat)
    requires SortedByDist(band) && lo <= k <= hi < |band|
    requires hi - lo < 2 || !Clears(band, lo, hi, Highest(band, lo, hi, hi))
    ensures NearChord(band, lo, hi, k)
  {
    ChordAtEnds(band[lo], band[hi]);
  }

  /** A chord its vertices stay near covers every edge between. */
  lemma ChordCovers(band: seq<HullPoint>, lo: nat, hi: nat, k: nat, p: HullPoint)
    requires lo <= k < hi < |band| && EdgeCovers(band, k, p, 0.0)
    requires NearChord(band, lo, hi, k) && NearChord(band, lo, hi, k + 1)
    requires hi - lo >= 2 ==> band[lo].dist < band[hi].dist
    requires band[lo].dist <= band[k].dist && band[k + 1].dist <= band[hi].dist
    ensures UnderEdge(band[lo], band[hi], p, HULL_COLLINEAR_TOLERANCE_M)
  {
    if hi - lo >= 2 {
      NearCovers(band[lo], band[hi], band[k], band[k + 1], p);
    } else {
      LooserEdge(band[lo], band[hi], p);
    }
  }

  lemma LooserEdge(a: HullPoint, b: HullPoint, p: HullPoint)
    requires UnderEdge(a, b, p, 0.0)
    ensures UnderEdge(a, b, p, HULL_COLLINEAR_TOLERANCE_M)
  {}

  lemma NearCovers(a: HullPoint, c: HullPoint, u: HullPoint, v: HullPoint, p: HullPoint)
    requires a.dist < c.dist && a.dist <= u.dist && v.dist <= c.dist && UnderEdge(u, v, p, 0.0)
    requires Rise(a, c, u) <= HULL_COLLINEAR_TOLERANCE_M * (c.dist - a.dist)
    requires Rise(a, c, v) <= HULL_COLLINEAR_TOLERANCE_M * (c.dist - a.dist)
    ensures UnderEdge(a, c, p, HULL_COLLINEAR_TOLERANCE_M)
  {
    SegmentWithin(a, c, u, v, p, HULL_COLLINEAR_TOLERANCE_M * (c.dist - a.dist));
  }

  predicate Within(at: seq<nat>, n: nat) { forall k :: 0 <= k < |at| ==> at[k] < n }

  lemma RestedLeft(band: seq<HullPoint>, x: seq<nat>, y: seq<nat>, hi: nat)
    requires hi < |band| && Within(x, |band|) && Within(y, |band|) && |y| > 0
    ensures Rested(band, x + y, hi) == [] + Rested(band, x, y[0]) + Rested(band, y, hi)[1..]
  {}

  lemma RestedRight(band: seq<HullPoint>, x: seq<nat>, y: seq<nat>, hi: nat)
    requires hi < |band| && Within(x, |band|) && Within(y, |band|)
    ensures Rested(band, x + y, hi) == Rested(band, x, hi)[..|x|] + Rested(band, y, hi) + []
  {}

  lemma UnderLonger(front: seq<HullPoint>, band: seq<HullPoint>, back: seq<HullPoint>, p: HullPoint, tol: real)
    requires UnderBand(band, p, tol)
    ensures UnderBand(front + band + back, p, tol)
  {
    var k :| 0 <= k < |band| - 1 && EdgeCovers(band, k, p, tol);
    assert (front + band + back)[|front| + k] == band[k] && (front + band + back)[|front| + k + 1] == band[k + 1];
    assert EdgeCovers(front + band + back, |front| + k, p, tol);
  }

  /** What lies under one part of the kept band lies under all of it. */
  lemma UnderPart(band: seq<HullPoint>, x: seq<nat>, y: seq<nat>, hi: nat, p: HullPoint, tol: real)
    requires hi < |band| && Within(x, |band|) && Within(y, |band|) && |y| > 0
    requires UnderBand(Rested(band, x, y[0]), p, tol) || UnderBand(Rested(band, y, hi), p, tol)
    ensures UnderBand(Rested(band, x + y, hi), p, tol)
  {
    if UnderBand(Rested(band, x, y[0]), p, tol) {
      RestedLeft(band, x, y, hi);
      UnderLonger([], Rested(band, x, y[0]), Rested(band, y, hi)[1..], p, tol);
    } else {
      RestedRight(band, x, y, hi);
      UnderLonger(Rested(band, x, hi)[..|x|], Rested(band, y, hi), [], p, tol);
    }
  }

  /** What lies under an edge of the hull stands at most the tolerance above the
      band through the vertices kept. */
  lemma {:induction false} KeptCover(band: seq<HullPoint>, lo: nat, hi: nat, k: nat, p: HullPoint)
    requires Concave(band) && SortedByDist(band) && lo <= k < hi < |band| && EdgeCovers(band, k, p, 0.0)
    ensures UnderBand(Rested(band, KeptFrom(band, lo, hi), hi), p, HULL_COLLINEAR_TOLERANCE_M)
    decreases hi - lo
  {
    if hi - lo >= 2 && Clears(band, lo, hi, Highest(band, lo, hi, hi)) {
      var best := Highest(band, lo, hi, hi);
      if k < best {
        KeptCover(band, lo, best, k, p);
      } else {
        KeptCover(band, best, hi, k, p);
      }
      UnderPart(band, KeptFrom(band, lo, best), KeptFrom(band, best, hi), hi, p, HULL_COLLINEAR_TOLERANCE_M);
    } else {
      AllNear(band, lo, hi, k);
      AllNear(band, lo, hi, k + 1);
      if hi - lo >= 2 {
        RunPositive(band, lo, hi);
      }
      ChordCovers(band, lo, hi, k, p);
      OneEdge(band[lo], band[hi], p, HULL_COLLINEAR_TOLERANCE_M);
      assert Rested(band, [lo], hi) == [band[lo], band[hi]];
    }
  }

  lemma OneEdge(a: HullPoint, c: HullPoint, p: HullPoint, tol: real)
    requires UnderEdge(a, c, p, tol)
    ensures UnderBand([a, c], p, tol)
  {
    assert EdgeCovers([a, c], 0, p, tol);
  }

  /** Vertices picked in order from a strictly concave band form another. */
  lemma PickConcave(band: seq<HullPoint>, at: seq<nat>, r: seq<HullPoint>)
    requires Concave(band) && SortedByDist(band)
    requires |r| == |at| && Within(at, |band|) && forall k :: 0 <= k < |r| ==> r[k] == band[at[k]]
    requires forall j, k :: 0 <= j < k < |at| ==> at[j] < at[k]
    ensures Concave(r) && SortedByDist(r)
  {
    forall k | 0 < k < |r| - 1
      ensures TurnsDown(r, k)
    {
      AnyThreeTurn(band, at[k - 1], at[k], at[k + 1]);
    }
  }

  lemma Ascends(at: seq<nat>, n: nat)
    requires |at| > 0 && at[|at| - 1] < n && forall j, k :: 0 <= j < k < |at| ==> at[j] < at[k]
    ensures Within(at, n) && Within(at + [n], n + 1) && forall j, k :: 0 <= j < k < |at| + 1 ==> (at + [n])[j] < (at + [n])[k]
  {
    forall k | 0 <= k < |at|
      ensures at[k] < n
    {
      assert k < |at| - 1 ==> at[k] < at[|at| - 1];
    }
  }

  lemma ThinnedEnds(band: seq<HullPoint>)
    requires band != []
    ensures Thinned(band) != [] && Thinned(band)[0] == band[0] && Thinned(band)[|Thinned(band)| - 1] == band[|band| - 1]
  {}

  /** Thinning keeps a strictly concave band strictly concave. */
  lemma ThinnedConcave(band: seq<HullPoint>)
    requires Concave(band) && SortedByDist(band)
    ensures Concave(Thinned(band)) && SortedByDist(Thinned(band))
  {
    if |band| > 2 {
      RestedConcave(band, KeptFrom(band, 0, |band| - 1));
    }
  }

  lemma RestedConcave(band: seq<HullPoint>, at: seq<nat>)
    requires Concave(band) && SortedByDist(band)
    requires |at| > 0 && at[|at| - 1] < |band| - 1 && forall j, k :: 0 <= j < k < |at| ==> at[j] < at[k]
    ensures Within(at, |band|)
    ensures Concave(Rested(band, at, |band| - 1)) && SortedByDist(Rested(band, at, |band| - 1))
  {
    Ascends(at, |band| - 1);
    PickConcave(band, at + [|band| - 1], Rested(band, at, |band| - 1));
  }

  /** What the chain covers stands within the tolerance under the thinned band. */
  lemma BandCovers(points: seq<HullPoint>, m: nat, p: HullPoint)
    requires SortedByDist(points) && FirstTie(points, m) && 1 < |points| && p in points && Reached(points, m, p)
    ensures UnderBand(Rubber(points), p, HULL_COLLINEAR_TOLERANCE_M)
  {
    var band := Chain(points);
    ChainEnds(points);
    ChainConcave(points);
    ChainCovers(points, m, p);
    var k :| 0 <= k < |band| - 1 && EdgeCovers(band, k, p, 0.0);
    KeptCover(band, 0, |band| - 1, k, p);
    if |band| == 2 {
      assert Rested(band, [0], 1) == band;
    }
  }

  /** The band the diffraction edges are read off: UpperConvexHull's result. */
  function Rubber(points: seq<HullPoint>): seq<HullPoint> { Thinned(Chain(points)) }

  // ---- what the final band covers at the first distance ----

  /** How high the final band stands at the first distance: the last point there
      counts only when nothing lies beyond it, or when it clears the first by
      more than the tolerance and so survives the thinning. */
  function FirstHeight(points: seq<HullPoint>, m: nat): real
    requires m < |points|
  {
    if m == |points| - 1 || points[m].height > points[0].height + HULL_COLLINEAR_TOLERANCE_M
    then Max(points[0].height, points[m].height) else points[0].height
  }

  /** The band leaves its first distance with its first edge. */
  predicate LeavesAtOnce(band: seq<HullPoint>) { |band| >= 2 && band[1].dist > band[0].dist }

  /** The band stays at its first distance for one edge, and no more. */
  predicate LeavesNext(band: seq<HullPoint>) {
    |band| >= 2 && band[1].dist == band[0].dist && (|band| > 2 ==> band[2].dist > band[0].dist)
  }

  lemma UnderSteep(a: HullPoint, b: HullPoint, p: HullPoint, tol: real)
    requires p.dist == a.dist < b.dist
    ensures UnderEdge(a, b, p, tol) <==> p.height <= a.height + tol
  {
    SteepRise(a.dist, a.height, b.dist, b.height, p.height, b.dist - a.dist);
    Cancels(p.height - a.height, tol, b.dist - a.dist);
  }

  lemma SteepRise(ad: real, ah: real, bd: real, bh: real, ph: real, run: real)
    requires run == bd - ad
    ensures Lift(ad, ah, bd, bh, ad, ph) == (ph - ah) * run
  {}

  lemma Cancels(h: real, tol: real, run: real)
    requires run > 0.0
    ensures h * run <= tol * run <==> h <= tol
  {
    if h <= tol {
      MulMono(h, tol, run);
    } else {
      MulStrict(tol, h, run);
    }
  }

  lemma UnderVertical(a: HullPoint, b: HullPoint, p: HullPoint, tol: real)
    requires p.dist == a.dist == b.dist
    ensures UnderEdge(a, b, p, tol) <==> p.height <= Max(a.height, b.height) + tol
  {
    LevelRise(a, b, p);
  }

  lemma OnlyFirstEdge(band: seq<HullPoint>, p: HullPoint, tol: real)
    requires SortedByDist(band) && LeavesAtOnce(band) && p.dist == band[0].dist
    ensures UnderBand(band, p, tol) <==> p.height <= band[0].height + tol
  {
    UnderSteep(band[0], band[1], p, tol);
    assert EdgeCovers(band, 0, p, tol) <==> p.height <= band[0].height + tol;
    forall k | 0 < k < |band| - 1
      ensures !EdgeCovers(band, k, p, tol)
    {
      assert band[1].dist <= band[k].dist;
    }
  }

  lemma OnlyFirstEdges(band: seq<HullPoint>, p: HullPoint, tol: real)
    requires SortedByDist(band) && LeavesNext(band) && p.dist == band[0].dist
    ensures UnderBand(band, p, tol) <==> p.height <= Max(band[0].height, band[1].height) + tol
  {
    UnderVertical(band[0], band[1], p, tol);
    assert EdgeCovers(band, 0, p, tol) <==> p.height <= Max(band[0].height, band[1].height) + tol;
    if |band| > 2 {
      UnderSteep(band[1], band[2], p, tol);
    }
    forall k | 0 < k < |band| - 1
      ensures EdgeCovers(band, k, p, tol) ==> p.height <= Max(band[0].height, band[1].height) + tol
    {
      if k > 1 {
        assert band[2].dist <= band[k].dist;
      }
    }
  }

  // ---- where the chain leaves the first distance ----

  /** With points beyond the first distance, the chain stays there for one edge
      exactly when the last point there is higher than the first, and then that
      edge ends at it. */
  lemma ChainLeaves(points: seq<HullPoint>, m: nat)
    requires SortedByDist(points) && FirstTie(points, m) && m < |points| - 1
    ensures if points[m].height > points[0].height
            then LeavesNext(Chain(points)) && |Chain(points)| > 2 && Chain(points)[1] == points[m]
            else LeavesAtOnce(Chain(points))
  {
    var band := Chain(points);
    ChainEnds(points);
    ChainConcave(points);
    if band[1].dist == band[0].dist {
      StaysOneEdge(points, m);
    } else if points[m].height > points[0].height {
      assert points[m] in points;
      ChainCovers(points, m, points[m]);
      OnlyFirstEdge(band, points[m], 0.0);
      assert false;
    }
  }

  lemma StaysOneEdge(points: seq<HullPoint>, m: nat)
    requires SortedByDist(points) && FirstTie(points, m) && m < |points| - 1
    requires Concave(Chain(points)) && SortedByDist(Chain(points)) && |Chain(points)| > 1
    requires Chain(points)[0] == points[0] && Chain(points)[|Chain(points)| - 1] == points[|points| - 1]
    requires Chain(points)[1].dist == points[0].dist
    ensures LeavesNext(Chain(points)) && |Chain(points)| > 2 && Chain(points)[1] == points[m] && points[m].height > points[0].height
  {
    var band := Chain(points);
    ChainAtFirst(points, m, 1);
    assert |band| > 2 && TurnsDown(band, 1);
    if band[2].dist == band[0].dist {
      LevelRise(band[0], band[2], band[1]);
    } else {
      assert band[0].dist <= band[2].dist;
    }
    RisesAbove(band[0], band[2], band[1]);
  }

  lemma RisesAbove(a: HullPoint, c: HullPoint, b: HullPoint)
    requires b.dist == a.dist && a.dist <= c.dist && Rise(a, c, b) > 0.0
    ensures b.height > a.height
  {
    SteepRise(a.dist, a.height, c.dist, c.height, b.height, c.dist - a.dist);
    if b.height <= a.height {
      MulMono(b.height - a.height, 0.0, c.dist - a.dist);
    }
  }

  // ---- whether its last point there survives the thinning ----

  lemma ClearsStart(band: seq<HullPoint>, hi: nat)
    requires 1 < hi < |band| && band[1].dist == band[0].dist < band[hi].dist
    ensures Clears(band, 0, hi, 1) <==> band[1].height > band[0].height + HULL_COLLINEAR_TOLERANCE_M
  {
    SteepRise(band[0].dist, band[0].height, band[hi].dist, band[hi].height, band[1].height, band[hi].dist - band[0].dist);
    Cancels(band[1].height - band[0].height, HULL_COLLINEAR_TOLERANCE_M, band[hi].dist - band[0].dist);
  }

  /** A vertex straight above the first is kept exactly when it stands more than
      the tolerance over it. */
  lemma {:induction false} KeptAboveFirst(band: seq<HullPoint>, hi: nat)
    requires SortedByDist(band) && LeavesNext(band) && 1 < hi < |band|
    ensures var at := KeptFrom(band, 0, hi);
      (|at| > 1 && at[1] == 1) <==> band[1].height > band[0].height + HULL_COLLINEAR_TOLERANCE_M
    decreases hi
  {
    var best := Highest(band, 0, hi, hi);
    assert band[2].dist <= band[hi].dist;
    ClearsStart(band, hi);
    if Clears(band, 0, hi, best) && best > 1 {
      KeptAboveFirst(band, best);
    }
  }

  /** The thinned band leaves the first distance as the chain does, but for a
      vertex within the tolerance of the first. */
  lemma ThinnedLeaves(band: seq<HullPoint>)
    requires SortedByDist(band) && |band| > 2 && LeavesNext(band)
    ensures if band[1].height > band[0].height + HULL_COLLINEAR_TOLERANCE_M
            then LeavesNext(Thinned(band)) && Thinned(band)[1] == band[1]
            else LeavesAtOnce(Thinned(band))
  {
    KeptAboveFirst(band, |band| - 1);
    RestedLeaves(band, KeptFrom(band, 0, |band| - 1));
  }

  lemma RestedLeaves(band: seq<HullPoint>, at: seq<nat>)
    requires SortedByDist(band) && |band| > 2 && LeavesNext(band)
    requires |at| > 0 && at[0] == 0 && at[|at| - 1] < |band| - 1 && forall j, k :: 0 <= j < k < |at| ==> at[j] < at[k]
    ensures Within(at, |band|)
    ensures var r := Rested(band, at, |band| - 1);
      if |at| > 1 && at[1] == 1 then LeavesNext(r) && r[1] == band[1] else LeavesAtOnce(r)
  {
    Ascends(at, |band| - 1);
    forall k: nat | 1 < k < |band|
      ensures band[k].dist > band[0].dist
    {
      assert band[2].dist <= band[k].dist;
    }
    assert |at| > 1 ==> at[0] < at[1];
    assert |at| > 2 ==> at[1] < at[2];
  }

  lemma ThinnedLeavesAtOnce(band: seq<HullPoint>)
    requires SortedByDist(band) && LeavesAtOnce(band)
    ensures LeavesAtOnce(Thinned(band))
  {
    if |band| > 2 {
      var at := KeptFrom(band, 0, |band| - 1);
      if |at| > 1 {
        assert at[0] < at[1] && band[1].dist <= band[at[1]].dist;
      } else {
        assert band[1].dist <= band[|band| - 1].dist;
      }
    }
  }

  /** At the first distance the final band covers exactly what stands within the
      tolerance over its height there. */
  lemma CoversFirst(points: seq<HullPoint>, m: nat, p: HullPoint)
    requires SortedByDist(points) && FirstTie(points, m) && 1 < |points| && p.dist == points[0].dist
    ensures UnderBand(Rubber(points), p, HULL_COLLINEAR_TOLERANCE_M) <==> p.height <= FirstHeight(points, m) + HULL_COLLINEAR_TOLERANCE_M
  {
    var band := Chain(points);
    ChainEnds(points);
    ChainConcave(points);
    ThinnedConcave(band);
    ThinnedEnds(band);
    if m == |points| - 1 {
      TieChain(points);
      OnlyFirstEdges(Thinned(band), p, HULL_COLLINEAR_TOLERANCE_M);
    } else {
      ChainLeaves(points, m);
      if points[m].height > points[0].height {
        ThinnedLeaves(band);
      } else {
        ThinnedLeavesAtOnce(band);
      }
      if LeavesAtOnce(Thinned(band)) {
        OnlyFirstEdge(Thinned(band), p, HULL_COLLINEAR_TOLERANCE_M);
      } else {
        OnlyFirstEdges(Thinned(band), p, HULL_COLLINEAR_TOLERANCE_M);
      }
    }
  }

  /** Every point past the first distance lies within the tolerance under the
      final band, and so do all the others exactly when none of them stands
      higher over the band's height at the first distance. */
  lemma BandHoldsExactly(points: seq<HullPoint>, m: nat)
    requires SortedByDist(points) && FirstTie(points, m) && 1 < |points|
    ensures forall p :: p in points && p.dist > points[0].dist ==> UnderBand(Rubber(points), p, HULL_COLLINEAR_TOLERANCE_M)
    ensures (forall p :: p in points ==> UnderBand(Rubber(points), p, HULL_COLLINEAR_TOLERANCE_M))
       <==> (forall p :: p in points && p.dist == points[0].dist ==> p.height <= FirstHeight(points, m) + HULL_COLLINEAR_TOLERANCE_M)
  {
    forall p | p in points
      ensures UnderBand(Rubber(points), p, HULL_COLLINEAR_TOLERANCE_M)
         <==> (p.dist == points[0].dist ==> p.height <= FirstHeight(points, m) + HULL_COLLINEAR_TOLERANCE_M)
    {
      if p.dist == points[0].dist {
        CoversFirst(points, m, p);
      } else {
        BandCovers(points, m, p);
      }
    }
    assert forall k :: 0 <= k < |points| ==> points[0].dist <= points[k].dist;
  }

  /** Three points at one distance, the middle one highest: the band loses it. */
  lemma LostPoint(points: seq<HullPoint>)
    requires points == [HullPoint(0.0, 5.0, -1), HullPoint(0.0, 7.0, 0), HullPoint(0.0, 6.0, 1), HullPoint(1.0, 0.0, -1)]
    ensures SortedByDist(points) && !UnderBand(Chain(points), points[1], 0.0)
    ensures !UnderBand(Rubber(points), points[1], HULL_COLLINEAR_TOLERANCE_M)
  {
    assert FirstTie(points, 2) && !Reached(points, 2, points[1]);
    if UnderBand(Chain(points), points[1], 0.0) {
      ChainReaches(points, 2, points[1]);
    }
    CoversFirst(points, 2, points[1]);
  }
}
