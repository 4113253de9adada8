/** The hull's buffers: the chain pushed and popped, the vertices marked and
    compacted in place, and the edges read off the band. */
module HullBuffers {
  import opened Geometry
  import opened RubberBand

  /** How many vertices are left once those c covers are popped. */
  method PopFor(hull: array<HullPoint>, count: nat, c: HullPoint) returns (top: nat)
    requires count <= hull.Length
    ensures top <= count && hull[..top] == Popped(hull[..count], c)
  {
    top := count;
    while top >= 2 && Rise(hull[top - 2], c, hull[top - 1]) <= 0.0
      invariant top <= count && Popped(hull[..top], c) == Popped(hull[..count], c)
    {
      assert hull[..top][..top - 1] == hull[..top - 1];
      top := top - 1;
    }
  }

  lemma ChainNext(points: seq<HullPoint>, i: nat)
    requires i < |points|
    ensures Chain(points[..i + 1]) == Popped(Chain(points[..i]), points[i]) + [points[i]]
  {
    assert points[..i + 1][..i] == points[..i];
  }

  method PushOnto(hull: array<HullPoint>, count: nat, c: HullPoint) returns (top: nat)
    requires count < hull.Length
    modifies hull
    ensures top <= count + 1 && hull[..top] == Popped(old(hull[..count]), c) + [c]
  {
    top := PopFor(hull, count, c);
    ghost var kept := hull[..top];
    hull[top] := c;
    top := top + 1;
    assert hull[..top] == kept + [c];
  }

  /** appendUpperConvexHull's chain, pushed and popped in a buffer. */
  method ChainInto(points: seq<HullPoint>) returns (hull: array<HullPoint>, top: nat)
    ensures fresh(hull) && top <= hull.Length && hull[..top] == Chain(points)
  {
    hull := new HullPoint[|points|](_ => HullPoint(0.0, 0.0, 0));
    top := 0;
    for i := 0 to |points|
      invariant top <= i && hull[..top] == Chain(points[..i])
    {
      ChainNext(points, i);
      top := PushOnto(hull, top, points[i]);
    }
    assert points[..|points|] == points;
  }

  const DROPPED_HULL_INDEX: int := -0x8000_0000_0000_0000

  /** Vertices lo to hi of one band are those of the other, but for their marks. */
  ghost predicate SameShape(s: seq<HullPoint>, t: seq<HullPoint>, lo: nat, hi: nat) {
    |s| == |t| && hi < |s| && forall k :: lo <= k <= hi ==> s[k].dist == t[k].dist && s[k].height == t[k].height
  }

  lemma {:induction false} HighestShape(s: seq<HullPoint>, t: seq<HullPoint>, lo: nat, hi: nat, n: nat)
    requires lo + 1 < n <= hi && SameShape(s, t, lo, hi)
    ensures Highest(s, lo, hi, n) == Highest(t, lo, hi, n)
    decreases n
  {
    if n > lo + 2 {
      HighestShape(s, t, lo, hi, n - 1);
    }
  }

  /** What the thinning keeps does not depend on marks. */
  lemma {:induction false} KeptShape(s: seq<HullPoint>, t: seq<HullPoint>, lo: nat, hi: nat)
    requires lo < hi && SameShape(s, t, lo, hi)
    ensures KeptFrom(s, lo, hi) == KeptFrom(t, lo, hi)
    decreases hi - lo
  {
    if hi - lo >= 2 {
      HighestShape(s, t, lo, hi, hi);
      var best := Highest(s, lo, hi, hi);
      KeptShape(s, t, lo, best);
      KeptShape(s, t, best, hi);
    }
  }

  /** t is s with the vertices strictly between lo and hi that are not in at marked. */
  ghost predicate Marked(s: seq<HullPoint>, t: seq<HullPoint>, lo: nat, hi: nat, at: seq<nat>) {
    && |t| == |s|
    && forall k: nat :: k < |s| ==>
         t[k] == if lo < k < hi && k !in at then s[k].(index := DROPPED_HULL_INDEX) else s[k]
  }

  lemma MarkedTwice(s: seq<HullPoint>, m: seq<HullPoint>, t: seq<HullPoint>, lo: nat, best: nat, hi: nat)
    requires lo < best < hi < |s|
    requires Marked(s, m, lo, best, KeptFrom(s, lo, best)) && Marked(m, t, best, hi, KeptFrom(s, best, hi))
    ensures Marked(s, t, lo, hi, KeptFrom(s, lo, best) + KeptFrom(s, best, hi))
  {
    var x, y := KeptFrom(s, lo, best), KeptFrom(s, best, hi);
    KeptWithin(s, lo, best);
    KeptWithin(s, best, hi);
    assert y[0] == best;
    forall k: nat | k < |s|
      ensures t[k] == if lo < k < hi && k !in x + y then s[k].(index := DROPPED_HULL_INDEX) else s[k]
    {
      assert k in x + y <==> k in x || k in y;
    }
  }

  lemma KeptWithin(band: seq<HullPoint>, lo: nat, hi: nat)
    requires lo < hi < |band|
    ensures forall k :: k in KeptFrom(band, lo, hi) ==> lo <= k < hi
  {
    var at := KeptFrom(band, lo, hi);
    forall k | 0 <= k < |at|
      ensures lo <= at[k] < hi
    {
      assert 0 < k ==> at[0] < at[k];
      assert k < |at| - 1 ==> at[k] < at[|at| - 1];
    }
  }

  /** The highest vertex between lo and hi, the first of equals. */
  method FindHighest(hull: array<HullPoint>, lo: nat, hi: nat) returns (best: nat)
    requires lo + 1 < hi < hull.Length
    ensures best == Highest(hull[..], lo, hi, hi)
  {
    best := lo + 1;
    for k := lo + 2 to hi
      invariant best == Highest(hull[..], lo, hi, k)
    {
      if Rise(hull[lo], hull[hi], hull[k]) > Rise(hull[lo], hull[hi], hull[best]) {
        best := k;
      }
    }
  }

  /** markDroppedHullVertices. */
  method MarkDropped(hull: array<HullPoint>, lo: nat, hi: nat)
    requires lo < hi < hull.Length
    modifies hull
    ensures Marked(old(hull[..]), hull[..], lo, hi, KeptFrom(old(hull[..]), lo, hi))
    decreases hi - lo
  {
    ghost var s := hull[..];
    if hi - lo < 2 { return; }
    var best := FindHighest(hull, lo, hi);
    if Rise(hull[lo], hull[hi], hull[best]) > HULL_COLLINEAR_TOLERANCE_M * (hull[hi].dist - hull[lo].dist) {
      MarkDropped(hull, lo, best);
      ghost var m := hull[..];
      KeptShape(s, m, best, hi);
      MarkDropped(hull, best, hi);
      MarkedTwice(s, m, hull[..], lo, best, hi);
    } else {
      for k := lo + 1 to hi
        invariant Marked(s, hull[..], lo, k, [lo])
      {
        hull[k] := hull[k].(index := DROPPED_HULL_INDEX);
      }
    }
  }

  function Surviving(s: seq<HullPoint>): seq<HullPoint> {
    if s == [] then []
    else if s[|s| - 1].index != DROPPED_HULL_INDEX then Surviving(s[..|s| - 1]) + [s[|s| - 1]]
    else Surviving(s[..|s| - 1])
  }

  /** Moves the unmarked vertices to the front. */
  method Compact(hull: array<HullPoint>, count: nat) returns (kept: nat)
    requires count <= hull.Length
    modifies hull
    ensures kept <= count && hull[..kept] == Surviving(old(hull[..count]))
  {
    ghost var s := hull[..count];
    kept := 0;
    for k := 0 to count
      invariant kept <= k && hull[..kept] == Surviving(s[..k])
      invariant forall j :: k <= j < count ==> hull[j] == s[j]
    {
      assert s[..k + 1][..k] == s[..k];
      if hull[k].index != DROPPED_HULL_INDEX {
        ghost var before := hull[..kept];
        hull[kept] := hull[k];
        kept := kept + 1;
        assert hull[..kept] == before + [s[k]];
      }
    }
    assert s[..count] == s;
  }

  lemma {:induction false} HighestPrefix(s: seq<HullPoint>, m: nat, lo: nat, hi: nat, n: nat)
    requires lo + 1 < n <= hi < m <= |s|
    ensures Highest(s[..m], lo, hi, n) == Highest(s, lo, hi, n)
    decreases n
  {
    if n > lo + 2 {
      HighestPrefix(s, m, lo, hi, n - 1);
    }
  }

  lemma {:induction false} KeptPrefix(s: seq<HullPoint>, m: nat, lo: nat, hi: nat)
    requires lo < hi < m <= |s|
    ensures KeptFrom(s[..m], lo, hi) == KeptFrom(s, lo, hi)
    decreases hi - lo
  {
    if hi - lo >= 2 {
      HighestPrefix(s, m, lo, hi, hi);
      var best := Highest(s, lo, hi, hi);
      KeptPrefix(s, m, lo, best);
      KeptPrefix(s, m, best, hi);
    }
  }

  predicate Unmarked(s: seq<HullPoint>) { forall k :: 0 <= k < |s| ==> s[k].index != DROPPED_HULL_INDEX }

  function Pick(s: seq<HullPoint>, at: seq<nat>): seq<HullPoint>
    requires Within(at, |s|)
  {
    seq(|at|, k requires 0 <= k < |at| => s[at[k]])
  }

  predicate Rising(at: seq<nat>) { forall j, k :: 0 <= j < k < |at| ==> at[j] < at[k] }

  /** t is s with the vertices not picked marked. */
  predicate MarksRest(s: seq<HullPoint>, t: seq<HullPoint>, at: seq<nat>) {
    |t| == |s| && forall k :: 0 <= k < |s| ==> t[k] == if k in at then s[k] else s[k].(index := DROPPED_HULL_INDEX)
  }

  lemma RisingLast(at: seq<nat>, n: nat)
    requires Rising(at) && Within(at, n + 1)
    ensures n in at ==> at[|at| - 1] == n && Within(at[..|at| - 1], n)
    ensures n !in at ==> Within(at, n)
  {
    if n in at {
      var i :| 0 <= i < |at| && at[i] == n;
      assert at[i] <= at[|at| - 1];
    }
  }

  lemma MarksPrefix(s: seq<HullPoint>, t: seq<HullPoint>, at: seq<nat>, rest: seq<nat>)
    requires s != [] && MarksRest(s, t, at)
    requires forall k: nat :: k < |s| - 1 ==> (k in rest <==> k in at)
    ensures MarksRest(s[..|s| - 1], t[..|s| - 1], rest)
  {}

  lemma PickSnoc(s: seq<HullPoint>, rest: seq<nat>, n: nat)
    requires n == |s| - 1 && Within(rest, n)
    ensures Pick(s, rest + [n]) == Pick(s[..n], rest) + [s[n]]
    ensures Pick(s, rest) == Pick(s[..n], rest)
  {}

  lemma PickedStep(s: seq<HullPoint>, t: seq<HullPoint>, at: seq<nat>, rest: seq<nat>, n: nat)
    requires n == |s| - 1 == |t| - 1 && Unmarked(s) && Within(rest, n)
    requires (at == rest + [n] && t[n] == s[n]) || (at == rest && t[n].index == DROPPED_HULL_INDEX)
    requires Surviving(t[..n]) == Pick(s[..n], rest)
    ensures Within(at, |s|) && Surviving(t) == Pick(s, at)
  {
    PickSnoc(s, rest, n);
  }

  /** What survives of a marked band is what was picked. */
  lemma {:induction false} SurvivingPicked(s: seq<HullPoint>, t: seq<HullPoint>, at: seq<nat>)
    requires Unmarked(s) && Within(at, |s|) && Rising(at) && MarksRest(s, t, at)
    ensures Surviving(t) == Pick(s, at)
    decreases |s|
  {
    if s != [] {
      var n := |s| - 1;
      RisingLast(at, n);
      var rest := if n in at then at[..|at| - 1] else at;
      assert n in at ==> at == rest + [n];
      MarksPrefix(s, t, at, rest);
      SurvivingPicked(s[..n], t[..n], rest);
      PickedStep(s, t, at, rest, n);
    }
  }

  lemma MarkedSurvive(s: seq<HullPoint>, t: seq<HullPoint>)
    requires |s| > 2 && Unmarked(s) && Marked(s, t, 0, |s| - 1, KeptFrom(s, 0, |s| - 1))
    ensures Surviving(t) == Thinned(s)
  {
    var at, n := KeptFrom(s, 0, |s| - 1), |s| - 1;
    Ascends(at, n);
    assert at[0] == 0;
    assert MarksRest(s, t, at + [n]);
    SurvivingPicked(s, t, at + [n]);
    assert Pick(s, at + [n]) == Rested(s, at, n);
  }

  /** What survives of a buffer whose first n vertices were marked. */
  lemma PrefixSurvives(s: seq<HullPoint>, t: seq<HullPoint>, n: nat)
    requires 2 < n <= |s| && Unmarked(s[..n]) && Marked(s, t, 0, n - 1, KeptFrom(s, 0, n - 1))
    ensures Surviving(t[..n]) == Thinned(s[..n])
  {
    KeptPrefix(s, n, 0, n - 1);
    MarkedSurvive(s[..n], t[..n]);
  }

  /** thinUpperConvexHull, in place. */
  method Thin(hull: array<HullPoint>, count: nat) returns (kept: nat)
    requires count <= hull.Length && Unmarked(hull[..count])
    modifies hull
    ensures kept <= count && hull[..kept] == Thinned(old(hull[..count]))
  {
    if count <= 2 { return count; }
    ghost var s := hull[..];
    assert hull[..count] == s[..count];
    MarkDropped(hull, 0, count - 1);
    PrefixSurvives(s, hull[..], count);
    assert hull[..count] == hull[..][..count];
    kept := Compact(hull, count);
  }

  // ---- the selected edges ----

  datatype ScreeningPoint = ScreeningPoint(distFromSource: real, topHeight: real)

  /** The cross-section: source, candidates, receiver. */
  function Section(sourceHeight: real, receiverHeight: real, total: real, candidates: seq<ScreeningPoint>): seq<HullPoint> {
    [HullPoint(0.0, sourceHeight, -1)]
    + seq(|candidates|, i requires 0 <= i < |candidates| => HullPoint(candidates[i].distFromSource, candidates[i].topHeight, i))
    + [HullPoint(total, receiverHeight, -1)]
  }

  /** The indices a band carries, without the bookends'. */
  function Indices(band: seq<HullPoint>): seq<int> {
    if band == [] then []
    else
      var last := band[|band| - 1].index;
      if last < 0 then Indices(band[..|band| - 1]) else Indices(band[..|band| - 1]) + [last]
  }

  ghost predicate IndicesAscend(band: seq<HullPoint>) {
    forall j, k :: 0 <= j < k < |band| && band[j].index >= 0 && band[k].index >= 0 ==> band[j].index < band[k].index
  }

  /** Every vertex of r is one of s. */
  ghost predicate Among(r: seq<HullPoint>, s: seq<HullPoint>) { forall k :: 0 <= k < |r| ==> r[k] in s }

  lemma PushAscends(band: seq<HullPoint>, c: HullPoint)
    requires IndicesAscend(band)
    requires forall k :: 0 <= k < |band| && band[k].index >= 0 && c.index >= 0 ==> band[k].index < c.index
    ensures IndicesAscend(Push(band, c))
  {
    var kept := Popped(band, c);
    forall j, k | 0 <= j < k < |kept| + 1 && (kept + [c])[j].index >= 0 && (kept + [c])[k].index >= 0
      ensures (kept + [c])[j].index < (kept + [c])[k].index
    {
      assert kept[j] == band[j];
      assert k < |kept| ==> kept[k] == band[k];
    }
  }

  lemma {:induction false} ChainAmong(points: seq<HullPoint>)
    ensures Among(Chain(points), points)
  {
    if points != [] {
      var before, c := points[..|points| - 1], points[|points| - 1];
      ChainAmong(before);
      forall k | 0 <= k < |Push(Chain(before), c)|
        ensures Push(Chain(before), c)[k] in points
      {
        PushSplits(Chain(before), c, k);
        assert forall q :: q in before ==> q in points;
      }
    }
  }

  lemma {:induction false} ChainAscends(points: seq<HullPoint>)
    requires IndicesAscend(points)
    ensures IndicesAscend(Chain(points))
  {
    if points != [] {
      var n := |points| - 1;
      ChainAscends(points[..n]);
      ChainAmong(points[..n]);
      forall k | 0 <= k < |Chain(points[..n])| && Chain(points[..n])[k].index >= 0 && points[n].index >= 0
        ensures Chain(points[..n])[k].index < points[n].index
      {
        var i :| 0 <= i < n && points[..n][i] == Chain(points[..n])[k];
        assert points[i].index < points[n].index;
      }
      PushAscends(Chain(points[..n]), points[n]);
    }
  }

  lemma PickAscends(band: seq<HullPoint>, at: seq<nat>, r: seq<HullPoint>)
    requires Within(at, |band|) && Rising(at) && r == Pick(band, at) && IndicesAscend(band)
    ensures IndicesAscend(r) && Among(r, band)
  {}

  lemma ThinnedAscends(band: seq<HullPoint>)
    requires IndicesAscend(band)
    ensures IndicesAscend(Thinned(band)) && Among(Thinned(band), band)
  {
    if |band| > 2 {
      RestedAscends(band, KeptFrom(band, 0, |band| - 1));
    }
  }

  lemma RestedAscends(band: seq<HullPoint>, at: seq<nat>)
    requires IndicesAscend(band) && |at| > 0 && Rising(at) && at[|at| - 1] < |band| - 1
    ensures Within(at, |band|)
    ensures IndicesAscend(Rested(band, at, |band| - 1)) && Among(Rested(band, at, |band| - 1), band)
  {
    Ascends(at, |band| - 1);
    PickAscends(band, at + [|band| - 1], Rested(band, at, |band| - 1));
  }

  lemma {:induction false} IndicesHeld(band: seq<HullPoint>)
    ensures forall x :: x in Indices(band) ==> x >= 0 && exists k :: 0 <= k < |band| && band[k].index == x
    ensures forall k :: 0 <= k < |band| && band[k].index >= 0 ==> band[k].index in Indices(band)
  {
    if band != [] {
      IndicesHeld(band[..|band| - 1]);
      assert forall k :: 0 <= k < |band| - 1 ==> band[..|band| - 1][k] == band[k];
    }
  }

  lemma {:induction false} IndicesRise(band: seq<HullPoint>)
    requires IndicesAscend(band)
    ensures forall j, k :: 0 <= j < k < |Indices(band)| ==> Indices(band)[j] < Indices(band)[k]
  {
    if band != [] {
      var before, last := band[..|band| - 1], band[|band| - 1];
      IndicesRise(before);
      IndicesHeld(before);
      forall j | 0 <= j < |Indices(before)| && last.index >= 0
        ensures Indices(before)[j] < last.index
      {
        assert Indices(before)[j] in Indices(before);
        var k :| 0 <= k < |before| && before[k].index == Indices(before)[j];
        assert band[k].index < last.index;
      }
    }
  }

  lemma SectionAscends(sourceHeight: real, receiverHeight: real, total: real, candidates: seq<ScreeningPoint>)
    ensures var points := Section(sourceHeight, receiverHeight, total, candidates);
      IndicesAscend(points) && forall k :: 0 <= k < |points| ==> -1 <= points[k].index < |candidates|
  {}

  /** The edges selected are candidates, each once, in order from the source. */
  lemma EdgesRise(sourceHeight: real, receiverHeight: real, total: real, candidates: seq<ScreeningPoint>)
    ensures var edges := Indices(Rubber(Section(sourceHeight, receiverHeight, total, candidates)));
      && (forall j, k :: 0 <= j < k < |edges| ==> edges[j] < edges[k])
      && forall x :: x in edges ==> 0 <= x < |candidates|
  {
    var points := Section(sourceHeight, receiverHeight, total, candidates);
    SectionAscends(sourceHeight, receiverHeight, total, candidates);
    RubberRises(points, |candidates|);
  }

  lemma RubberRises(points: seq<HullPoint>, n: nat)
    requires IndicesAscend(points) && forall k :: 0 <= k < |points| ==> points[k].index < n
    ensures var edges := Indices(Rubber(points));
      && (forall j, k :: 0 <= j < k < |edges| ==> edges[j] < edges[k])
      && forall x :: x in edges ==> 0 <= x < n
  {
    ChainAscends(points);
    ChainAmong(points);
    ThinnedAscends(Chain(points));
    IndicesRise(Rubber(points));
    IndicesHeld(Rubber(points));
  }

  /** How many candidates, from the first, stand at the source's distance. */
  function AtSource(candidates: seq<ScreeningPoint>): (n: nat)
    ensures n <= |candidates| && forall i :: 0 <= i < n ==> candidates[i].distFromSource == 0.0
    ensures n < |candidates| ==> candidates[n].distFromSource != 0.0
  {
    if candidates == [] || candidates[0].distFromSource != 0.0 then 0 else 1 + AtSource(candidates[1..])
  }

  /** How high the band stands at the source: the last candidate there counts
      only when it clears the source by more than the tolerance. */
  function BandAtSource(sourceHeight: real, receiverHeight: real, total: real, candidates: seq<ScreeningPoint>): real {
    var n := AtSource(candidates);
    if total == 0.0 then Max(sourceHeight, receiverHeight)
    else if n > 0 && candidates[n - 1].topHeight > sourceHeight + HULL_COLLINEAR_TOLERANCE_M then candidates[n - 1].topHeight
    else sourceHeight
  }

  lemma SectionTie(sourceHeight: real, receiverHeight: real, total: real, candidates: seq<ScreeningPoint>) returns (m: nat)
    requires SortedByDist(Section(sourceHeight, receiverHeight, total, candidates))
    ensures FirstTie(Section(sourceHeight, receiverHeight, total, candidates), m)
    ensures FirstHeight(Section(sourceHeight, receiverHeight, total, candidates), m) == BandAtSource(sourceHeight, receiverHeight, total, candidates)
  {
    var points := Section(sourceHeight, receiverHeight, total, candidates);
    var n := AtSource(candidates);
    assert points[0].dist == 0.0 && points[|points| - 1].dist == total;
    assert points[0].dist <= points[|points| - 1].dist;
    if total == 0.0 {
      m := |points| - 1;
      assert forall k :: 0 <= k < |points| ==> points[0].dist <= points[k].dist <= points[|points| - 1].dist;
    } else {
      m := n;
      forall k | m < k < |points|
        ensures points[k].dist > 0.0
      {
        if n < |candidates| {
          assert points[n + 1].dist == candidates[n].distFromSource;
          assert points[0].dist <= points[n + 1].dist <= points[k].dist;
        }
      }
      assert m > 0 ==> points[m] == HullPoint(candidates[n - 1].distFromSource, candidates[n - 1].topHeight, n - 1);
    }
  }

  /** Every point of the section lies within the tolerance under the band the
      edges are read off exactly when no candidate at the source stands higher
      over the band there. */
  lemma EdgesHold(sourceHeight: real, receiverHeight: real, total: real, candidates: seq<ScreeningPoint>)
    requires SortedByDist(Section(sourceHeight, receiverHeight, total, candidates))
    ensures var points := Section(sourceHeight, receiverHeight, total, candidates);
      var limit := BandAtSource(sourceHeight, receiverHeight, total, candidates) + HULL_COLLINEAR_TOLERANCE_M;
      (forall p :: p in points ==> UnderBand(Rubber(points), p, HULL_COLLINEAR_TOLERANCE_M))
      <==> (forall i :: 0 <= i < |candidates| && candidates[i].distFromSource == 0.0 ==> candidates[i].topHeight <= limit)
  {
    var points := Section(sourceHeight, receiverHeight, total, candidates);
    var limit := BandAtSource(sourceHeight, receiverHeight, total, candidates) + HULL_COLLINEAR_TOLERANCE_M;
    var m := SectionTie(sourceHeight, receiverHeight, total, candidates);
    BandHoldsExactly(points, m);
    SectionBelow(sourceHeight, receiverHeight, total, candidates, limit);
  }

  /** The bookends aside, the points of the section at the source are candidates. */
  lemma SectionBelow(sourceHeight: real, receiverHeight: real, total: real, candidates: seq<ScreeningPoint>, limit: real)
    requires limit >= sourceHeight && (total == 0.0 ==> limit >= receiverHeight)
    ensures var points := Section(sourceHeight, receiverHeight, total, candidates);
      (forall p :: p in points && p.dist == points[0].dist ==> p.height <= limit)
      <==> (forall i :: 0 <= i < |candidates| && candidates[i].distFromSource == 0.0 ==> candidates[i].topHeight <= limit)
  {
    var points := Section(sourceHeight, receiverHeight, total, candidates);
    forall i | 0 <= i < |candidates|
      ensures points[i + 1] in points && points[i + 1] == HullPoint(candidates[i].distFromSource, candidates[i].topHeight, i)
    {}
    if forall i :: 0 <= i < |candidates| && candidates[i].distFromSource == 0.0 ==> candidates[i].topHeight <= limit {
      forall p | p in points && p.dist == points[0].dist
        ensures p.height <= limit
      {
        var k :| 0 <= k < |points| && points[k] == p;
        if 0 < k < |points| - 1 {
          assert p == HullPoint(candidates[k - 1].distFromSource, candidates[k - 1].topHeight, k - 1);
        }
      }
    }
  }

  lemma VertexUnder(band: seq<HullPoint>, k: nat)
    requires SortedByDist(band) && 1 < |band| && k < |band|
    ensures UnderBand(band, band[k], HULL_COLLINEAR_TOLERANCE_M)
  {
    var e := if k == |band| - 1 then k - 1 else k;
    EdgeEnds(band[e], band[e + 1]);
    LooserEdge(band[e], band[e + 1], band[k]);
    assert EdgeCovers(band, e, band[k], HULL_COLLINEAR_TOLERANCE_M);
  }

  /** An index read off the band is a point's that the band does not pass under. */
  lemma SelectedUnder(points: seq<HullPoint>, x: int) returns (p: HullPoint)
    requires SortedByDist(points) && 1 < |points| && IndicesAscend(points) && x in Indices(Rubber(points))
    ensures p in points && p.index == x && UnderBand(Rubber(points), p, HULL_COLLINEAR_TOLERANCE_M)
  {
    var band := Rubber(points);
    ChainEnds(points);
    ChainConcave(points);
    ThinnedConcave(Chain(points));
    RubberAmong(points);
    IndicesHeld(band);
    var k :| 0 <= k < |band| && band[k].index == x;
    p := band[k];
    VertexUnder(band, k);
  }

  lemma RubberAmong(points: seq<HullPoint>)
    requires 1 < |points| && IndicesAscend(points)
    ensures 1 < |Rubber(points)| && forall k :: 0 <= k < |Rubber(points)| ==> Rubber(points)[k] in points
  {
    ChainEnds(points);
    ChainAscends(points);
    ChainAmong(points);
    ThinnedAscends(Chain(points));
  }

  /** Two obstructing candidates at the source, the first the higher: it is not
      selected, and the band passes under it. */
  lemma LostEdge(candidates: seq<ScreeningPoint>)
    requires candidates == [ScreeningPoint(0.0, 7.0), ScreeningPoint(0.0, 6.0)]
    ensures var points := Section(5.0, 0.0, 1.0, candidates);
      SortedByDist(points) && !UnderBand(Rubber(points), points[1], HULL_COLLINEAR_TOLERANCE_M) && 0 !in Indices(Rubber(points))
  {
    var points := Section(5.0, 0.0, 1.0, candidates);
    assert points == [HullPoint(0.0, 5.0, -1), HullPoint(0.0, 7.0, 0), HullPoint(0.0, 6.0, 1), HullPoint(1.0, 0.0, -1)];
    LostPoint(points);
    SectionAscends(5.0, 0.0, 1.0, candidates);
    if 0 in Indices(Rubber(points)) {
      var p := SelectedUnder(points, 0);
    }
  }

  // ---- the band the edges span ----

  /** The band from the source over these candidates to the receiver. */
  function BandOver(sourceHeight: real, receiverHeight: real, total: real, candidates: seq<ScreeningPoint>, edges: seq<int>): seq<HullPoint>
    requires forall k :: 0 <= k < |edges| ==> 0 <= edges[k] < |candidates|
  {
    [HullPoint(0.0, sourceHeight, -1)]
    + seq(|edges|, k requires 0 <= k < |edges| => HullPoint(candidates[edges[k]].distFromSource, candidates[edges[k]].topHeight, edges[k]))
    + [HullPoint(total, receiverHeight, -1)]
  }

  /** Every vertex past the first is one of the later points. */
  lemma {:induction false} ChainLater(points: seq<HullPoint>)
    requires points != []
    ensures Chain(points)[0] == points[0]
    ensures forall k :: 0 < k < |Chain(points)| ==> Chain(points)[k] in points[1..]
  {
    var n := |points| - 1;
    if n == 0 {
      assert Chain(points) == points;
    } else {
      var before, c := points[..n], points[n];
      ChainLater(before);
      assert points[1..] == before[1..] + [c];
      forall k | 0 < k < |Push(Chain(before), c)|
        ensures Push(Chain(before), c)[k] in points[1..]
      {
        PushSplits(Chain(before), c, k);
      }
    }
  }

  /** The vertices between the ends are points between the ends. */
  lemma ChainInner(points: seq<HullPoint>)
    requires |points| >= 2
    ensures var band := Chain(points);
      && |band| >= 2 && band[0] == points[0] && band[|band| - 1] == points[|points| - 1]
      && forall k :: 0 < k < |band| - 1 ==> band[k] in points[1..|points| - 1]
  {
    var n := |points| - 1;
    var before := points[..n];
    ChainLater(before);
    assert before[1..] == points[1..n];
    forall k | 0 < k < |Chain(points)| - 1
      ensures Chain(points)[k] in points[1..n]
    {
      assert Chain(points)[k] == Popped(Chain(before), points[n])[k] == Chain(before)[k];
    }
  }

  /** So they stay when the band is thinned. */
  lemma RubberInner(points: seq<HullPoint>)
    requires |points| >= 2
    ensures var band := Rubber(points);
      && |band| >= 2 && band[0] == points[0] && band[|band| - 1] == points[|points| - 1]
      && forall k :: 0 < k < |band| - 1 ==> band[k] in points[1..|points| - 1]
  {
    var chain := Chain(points);
    ChainInner(points);
    if |chain| > 2 {
      var at := KeptFrom(chain, 0, |chain| - 1);
      Ascends(at, |chain| - 1);
      forall k | 0 < k < |at|
        ensures chain[at[k]] in points[1..|points| - 1]
      {
        assert at[0] < at[k];
      }
    }
  }

  /** The indices of a band between two bookends are its inner vertices'. */
  lemma {:induction false} IndicesUpto(band: seq<HullPoint>, n: nat)
    requires 1 <= n <= |band| && band[0].index < 0 && forall k :: 0 < k < n ==> band[k].index >= 0
    ensures |Indices(band[..n])| == n - 1 && forall k :: 0 < k < n ==> Indices(band[..n])[k - 1] == band[k].index
  {
    assert band[..n][..n - 1] == band[..n - 1];
    if n > 1 {
      IndicesUpto(band, n - 1);
    }
  }

  lemma IndicesInner(band: seq<HullPoint>)
    requires |band| >= 2 && band[0].index < 0 && band[|band| - 1].index < 0 && forall k :: 0 < k < |band| - 1 ==> band[k].index >= 0
    ensures |Indices(band)| == |band| - 2 && forall k :: 0 < k < |band| - 1 ==> Indices(band)[k - 1] == band[k].index
  {
    IndicesUpto(band, |band| - 1);
  }

  lemma InnerIsCandidate(sourceHeight: real, receiverHeight: real, total: real, candidates: seq<ScreeningPoint>, p: HullPoint)
    requires p in Section(sourceHeight, receiverHeight, total, candidates)[1..|candidates| + 1]
    ensures 0 <= p.index < |candidates| && p == HullPoint(candidates[p.index].distFromSource, candidates[p.index].topHeight, p.index)
  {
    var s := Section(sourceHeight, receiverHeight, total, candidates);
    var k :| 0 <= k < |candidates| && s[1..|candidates| + 1][k] == p;
    assert s[k + 1] == HullPoint(candidates[k].distFromSource, candidates[k].topHeight, k);
  }

  /** The selected edges, with the source and the receiver, are the whole band:
      it turns strictly down at each of them. */
  lemma EdgesSpanBand(sourceHeight: real, receiverHeight: real, total: real, candidates: seq<ScreeningPoint>)
    ensures var points := Section(sourceHeight, receiverHeight, total, candidates);
      var edges := Indices(Rubber(points));
      && (forall k :: 0 <= k < |edges| ==> 0 <= edges[k] < |candidates|)
      && Rubber(points) == BandOver(sourceHeight, receiverHeight, total, candidates, edges)
  {
    var points := Section(sourceHeight, receiverHeight, total, candidates);
    var band := Rubber(points);
    RubberInner(points);
    forall k | 0 < k < |band| - 1
      ensures 0 <= band[k].index < |candidates|
      ensures band[k] == HullPoint(candidates[band[k].index].distFromSource, candidates[band[k].index].topHeight, band[k].index)
    {
      InnerIsCandidate(sourceHeight, receiverHeight, total, candidates, band[k]);
    }
    IndicesInner(band);
    var edges := Indices(band);
    forall k | 0 <= k < |edges|
      ensures 0 <= edges[k] < |candidates|
    {
      assert edges[k] == band[k + 1].index;
    }
    assert forall k :: 0 <= k < |edges| ==> edges[k] == band[k + 1].index;
  }

  /** The candidates come in order of distance, between source and receiver. */
  predicate InOrder(total: real, candidates: seq<ScreeningPoint>) {
    && total >= 0.0 && (forall i :: 0 <= i < |candidates| ==> 0.0 <= candidates[i].distFromSource <= total)
    && forall i, j :: 0 <= i < j < |candidates| ==> candidates[i].distFromSource <= candidates[j].distFromSource
  }

  /** The edges are candidates, each once in order, and each stands strictly over
      the line between its neighbours, source and receiver counted. */
  ghost predicate RestsOn(sourceHeight: real, receiverHeight: real, total: real, candidates: seq<ScreeningPoint>, edges: seq<int>) {
    && (forall k :: 0 <= k < |edges| ==> 0 <= edges[k] < |candidates|)
    && (forall j, k :: 0 <= j < k < |edges| ==> edges[j] < edges[k])
    && Concave(BandOver(sourceHeight, receiverHeight, total, candidates, edges))
  }

  lemma EdgesRestOn(sourceHeight: real, receiverHeight: real, total: real, candidates: seq<ScreeningPoint>)
    requires InOrder(total, candidates)
    ensures RestsOn(sourceHeight, receiverHeight, total, candidates, Indices(Rubber(Section(sourceHeight, receiverHeight, total, candidates))))
  {
    var points := Section(sourceHeight, receiverHeight, total, candidates);
    assert SortedByDist(points);
    EdgesRise(sourceHeight, receiverHeight, total, candidates);
    EdgesSpanBand(sourceHeight, receiverHeight, total, candidates);
    ChainEnds(points);
    ChainConcave(points);
    ThinnedConcave(Chain(points));
  }

  method AppendIndices(dst: seq<int>, hull: array<HullPoint>, count: nat) returns (r: seq<int>)
    requires count <= hull.Length
    ensures r == dst + Indices(hull[..count])
  {
    r := dst;
    for k := 0 to count
      invariant r == dst + Indices(hull[..k])
    {
      assert hull[..k + 1][..k] == hull[..k];
      if hull[k].index >= 0 {
        r := r + [hull[k].index];
      }
    }
  }

  /** AppendDiffractionEdges. */
  method AppendDiffractionEdges(dst: seq<int>, sourceHeight: real, receiverHeight: real, total: real, candidates: seq<ScreeningPoint>)
    returns (r: seq<int>)
    ensures r == dst + if candidates == [] then [] else Indices(Rubber(Section(sourceHeight, receiverHeight, total, candidates)))
    ensures candidates != [] && InOrder(total, candidates) ==> RestsOn(sourceHeight, receiverHeight, total, candidates, r[|dst|..])
  {
    if |candidates| == 0 { return dst; }
    var points := Section(sourceHeight, receiverHeight, total, candidates);
    SectionAscends(sourceHeight, receiverHeight, total, candidates);
    var hull, top := ChainInto(points);
    ChainAmong(points);
    var kept := Thin(hull, top);
    r := AppendIndices(dst, hull, kept);
    if InOrder(total, candidates) {
      EdgesRestOn(sourceHeight, receiverHeight, total, candidates);
    }
  }
}
