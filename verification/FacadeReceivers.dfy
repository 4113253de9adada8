/** Facade receivers: where a set's receivers stand, and that the list generated
    does not depend on the order of the buildings or of their ids. */
module FacadeReceivers {
  import opened Geometry
  import opened CanonicalRings
  import opened CanonicalFootprints
  import opened FootprintMask
  import opened Sequences
  import opened Options

  const MAX_FACADE_RECEIVERS := 100000
  const STOREY_HEIGHT_FALLBACK_M: real := 3.0
  const FACADE_PROBE_OFFSET_M: real := 0.1

  datatype HeightSource = Measured | FromLevels | Assumed | Unknown

  /** A window as the building gives it. */
  datatype Opening = Opening(id: nat, part: int, ring: int, edge: int, u: real, width: real, z: real, height: real)

  /** A window as placed: its centre along the edge, how far out and how high its
      rule puts the point, and the storey it is on. */
  datatype Window = Window(u: real, offset: real, height: real, storey: int)

  /** Windows by part, ring and edge of the canonical footprint, in order along it. */
  type Windows = map<(nat, nat, nat), seq<Window>>

  datatype Building = Building(id: nat, polygons: seq<Part>, height: real, levels: int, source: HeightSource, groundFloor: real, openings: seq<Opening>)

  /** A placement rule that is geometric: its offset, and whether it places only at windows. */
  datatype Rule = Rule(offset: real, windowsOnly: bool)

  datatype ReceiverSet = ReceiverSet(buildingIds: seq<nat>, rule: Option<Rule>, spacing: real, courtyard: bool) {

    /** Validate. */
    predicate Valid() {
      && buildingIds != [] && (forall i, j :: 0 <= i < j < |buildingIds| ==> buildingIds[i] != buildingIds[j])
      && rule.Some? && spacing > 0.0
    }
  }

  /** Functions taken as given: FacadePoint, the length of an edge,
      DistancePointToSegment's test, math.Sqrt, canonicalFootprint, and
      buildingWindows with the windows' placement, which may refuse. */
  datatype World = World(point: (Point, Point, real, real) -> Point, length: (Point, Point) -> real, near: Near,
                         squareRoot: real -> real, form: seq<Part> -> Option<seq<Part>>,
                         windows: (Rule, Building, seq<Part>) -> Option<Windows>)

  // ---- storeys ----

  function Slabs(count: nat, groundFloor: real, s: real): seq<real> {
    seq(count, n => groundFloor + (n + 1) as real * s)
  }

  /** storeyHeights: the ceiling slab of each storey. */
  function StoreyHeights(b: Building): (z: Option<seq<real>>)
    ensures z.Some? ==> 1 <= |z.value| <= MAX_FACADE_RECEIVERS
  {
    if b.height <= 0.0 || b.levels < 0 || b.levels > MAX_FACADE_RECEIVERS || b.source == Unknown then None
    else if b.levels == 0 then
      var fit := (b.height / STOREY_HEIGHT_FALLBACK_M).Floor;
      if fit > MAX_FACADE_RECEIVERS then None
      else Some(Slabs(if fit >= 1 then fit else 1, b.groundFloor, STOREY_HEIGHT_FALLBACK_M))
    else Some(Slabs(b.levels, b.groundFloor, if b.source == Measured then b.height / b.levels as real else STOREY_HEIGHT_FALLBACK_M))
  }

  lemma SlabNext(n: nat, s: real)
    ensures (n + 2) as real * s == (n + 1) as real * s + s
  {
    assert (n + 2) as real == (n + 1) as real + 1.0;
    Distributes((n + 1) as real, 1.0, s);
  }

  lemma Distributes(a: real, b: real, s: real)
    ensures (a + b) * s == a * s + b * s
  {}

  lemma FitWhole(height: real, fit: int)
    requires fit == (height / STOREY_HEIGHT_FALLBACK_M).Floor
    ensures fit as real * STOREY_HEIGHT_FALLBACK_M <= height < (fit + 1) as real * STOREY_HEIGHT_FALLBACK_M
  {
    assert fit as real <= height / STOREY_HEIGHT_FALLBACK_M < (fit + 1) as real;
  }

  lemma SlabsEven(z: seq<real>, groundFloor: real, s: real)
    requires z == Slabs(|z|, groundFloor, s) && z != []
    ensures z[0] == groundFloor + s && z[|z| - 1] == groundFloor + Times(|z| as real, s)
    ensures forall n :: 0 <= n < |z| - 1 ==> z[n + 1] == z[n] + s
  {
    forall n | 0 <= n < |z| - 1
      ensures z[n + 1] == z[n] + s
    {
      SlabNext(n, s);
    }
  }

  /** How many storeys, and how high each is. */
  lemma StoreysAre(b: Building, z: seq<real>) returns (s: real)
    requires StoreyHeights(b) == Some(z)
    ensures z != [] && z == Slabs(|z|, b.groundFloor, s)
    ensures b.levels > 0 ==> |z| == b.levels
    ensures if b.levels > 0 && b.source == Measured then s == b.height / b.levels as real else s == STOREY_HEIGHT_FALLBACK_M
    ensures b.levels == 0 ==> |z| == 1 || |z| as real * STOREY_HEIGHT_FALLBACK_M <= b.height
    ensures b.levels == 0 ==> b.height < (|z| + 1) as real * STOREY_HEIGHT_FALLBACK_M
  {
    s := if b.levels > 0 && b.source == Measured then b.height / b.levels as real else STOREY_HEIGHT_FALLBACK_M;
    FitWhole(b.height, (b.height / STOREY_HEIGHT_FALLBACK_M).Floor);
  }

  /** The slabs stand one storey height apart, from the ground floor up. A
      measured building's last one is its roof; without a storey count there are
      as many fallback storeys as fit, and at least one. */
  lemma SlabsStand(b: Building, z: seq<real>)
    requires StoreyHeights(b) == Some(z)
    ensures z[0] > b.groundFloor && forall n :: 0 <= n < |z| - 1 ==> z[n + 1] - z[n] == z[0] - b.groundFloor
    ensures b.levels > 0 ==> |z| == b.levels
    ensures b.levels > 0 && b.source == Measured ==> z[|z| - 1] == b.groundFloor + b.height
    ensures b.levels == 0 || b.source != Measured ==> z[0] == b.groundFloor + 3.0
    ensures b.levels == 0 ==> |z| == 1 || |z| as real * STOREY_HEIGHT_FALLBACK_M <= b.height
    ensures b.levels == 0 ==> b.height < (|z| + 1) as real * STOREY_HEIGHT_FALLBACK_M
  {
    var s := StoreysAre(b, z);
    SlabsEven(z, b.groundFloor, s);
    if b.levels > 0 && b.source == Measured {
      Shares(b.levels as real, b.height, s);
    }
  }

  lemma Shares(n: real, h: real, s: real)
    requires n > 0.0 && h > 0.0 && s == h / n
    ensures s > 0.0 && Times(n, s) == h
  {
    Quotients(n, h);
    DivCompare(h, 0.0, n);
  }

  lemma Quotients(n: real, h: real)
    requires n > 0.0
    ensures n * (h / n) == h
  {}

  // ---- stations ----

  /** How many equal parts an edge is split into. */
  function StationCount(length: real, spacing: real): int
    requires spacing > 0.0
  {
    var q := length / spacing;
    var n := if q == q.Floor as real then q.Floor else q.Floor + 1;
    if n >= 1 then n else 1
  }

  function Station(length: real, n: nat, k: nat): real
    requires n > 0
  {
    (k as real + 0.5) * length / n as real
  }

  function Stations(length: real, n: nat): seq<real> {
    seq(n, k requires 0 <= k < n => Station(length, n, k))
  }

  /** Each station stands within its edge, off its corners, and its part of the
      edge is no longer than the spacing. */
  lemma StationWithin(length: real, spacing: real, k: nat)
    requires length > 0.0 && spacing > 0.0 && k < StationCount(length, spacing)
    ensures 0.0 < Station(length, StationCount(length, spacing), k) < length
    ensures length <= spacing * StationCount(length, spacing) as real
  {
    var n := StationCount(length, spacing);
    FractionWithin(k as real + 0.5, length, n as real);
    DivCompare(length, n as real, spacing);
  }

  lemma FractionWithin(part: real, length: real, n: real)
    requires 0.0 < part < n && length > 0.0
    ensures 0.0 < part * length / n < length
  {
    MulStrict(part, n, length);
    PositiveTimes(part, length);
    DivCompare(part * length, 0.0, n);
    DivCompare(part * length, length, n);
  }

  // ---- placing ----

  /** What a receiver's id spells. */
  datatype Key = Key(building: nat, part: nat, ring: nat, edge: nat, station: nat, storey: int) {

    predicate Before(o: Key) {
      building < o.building || (building == o.building && (part < o.part || (part == o.part && (ring < o.ring || (ring == o.ring &&
      (edge < o.edge || (edge == o.edge && (station < o.station || (station == o.station && storey < o.storey)))))))))
    }
  }

  /** What a key's id spells, part by part. */
  function Spelled(k: Key): seq<int> { [k.building, k.part, k.ring, k.edge, k.station, k.storey] }

  predicate FirstLess(s: seq<int>, t: seq<int>, i: nat)
    requires i < |s| == |t|
  {
    s[i] < t[i] && forall j :: 0 <= j < i ==> s[j] == t[j]
  }

  /** One key comes before another when the first part in which they differ is less. */
  lemma BeforeIsSpelled(a: Key, b: Key)
    ensures a.Before(b) <==> exists i: nat :: i < 6 && FirstLess(Spelled(a), Spelled(b), i)
  {
    var s, t := Spelled(a), Spelled(b);
    if a.Before(b) {
      var i: nat := if s[0] != t[0] then 0 else if s[1] != t[1] then 1 else if s[2] != t[2] then 2
                    else if s[3] != t[3] then 3 else if s[4] != t[4] then 4 else 5;
      assert FirstLess(s, t, i);
    }
    if i: nat :| i < 6 && FirstLess(s, t, i) {
      assert i > 0 ==> s[0] == t[0];
      assert i > 1 ==> s[1] == t[1];
      assert i > 2 ==> s[2] == t[2];
      assert i > 3 ==> s[3] == t[3];
      assert i > 4 ==> s[4] == t[4];
    }
  }

  /** A receiver, and the point its station is probed at. */
  datatype Placed = Placed(key: Key, point: Point, u: real, height: real, probe: Point)

  datatype Edge = Edge(part: nat, ring: nat, edge: nat, from: Point, to: Point)

  function AtStation(w: World, rule: Rule, b: Building, e: Edge, z: seq<real>, stations: seq<real>, i: nat): Placed
    requires |z| > 0 && i < |stations| * |z|
  {
    StationOf(i, |stations|, |z|);
    var station, storey := i / |z|, i % |z|;
    Placed(Key(b.id, e.part, e.ring, e.edge, station, storey), w.point(e.from, e.to, stations[station], rule.offset),
           stations[station], z[storey], w.point(e.from, e.to, stations[station], FACADE_PROBE_OFFSET_M))
  }

  lemma StationOf(i: nat, n: nat, m: nat)
    requires m > 0 && i < n * m
    ensures i / m < n
  {
    if i / m >= n {
      MulAtLeast(i / m, n, m);
    }
  }

  lemma MulAtLeast(a: nat, b: nat, c: nat)
    requires a >= b
    ensures a * c >= b * c
  {}

  function AtWindow(w: World, b: Building, e: Edge, window: Window, station: nat): Placed {
    Placed(Key(b.id, e.part, e.ring, e.edge, station, window.storey), w.point(e.from, e.to, window.u, window.offset),
           window.u, window.height, w.point(e.from, e.to, window.u, FACADE_PROBE_OFFSET_M))
  }

  function WindowsAt(windows: Windows, e: Edge): seq<Window> {
    if (e.part, e.ring, e.edge) in windows then windows[(e.part, e.ring, e.edge)] else []
  }

  /** The receivers of one edge: one per window if it has any, and otherwise one
      per station and storey, unless the rule places only at windows. */
  function EdgeItems(w: World, rule: Rule, spacing: real, b: Building, at: Windows, z: seq<real>, e: Edge): seq<Placed>
    requires |z| > 0 && spacing > 0.0
  {
    var windows := WindowsAt(at, e);
    if windows != [] then seq(|windows|, i requires 0 <= i < |windows| => AtWindow(w, b, e, windows[i], i))
    else if rule.windowsOnly then []
    else
      var stations := Stations(w.length(e.from, e.to), StationCount(w.length(e.from, e.to), spacing));
      seq(|stations| * |z|, i requires 0 <= i < |stations| * |z| => AtStation(w, rule, b, e, z, stations, i))
  }

  /** The edges of a canonical footprint that receivers are placed on, in order. */
  function RingEdges(ring: Ring, p: nat, r: nat): seq<Edge> {
    seq(|ring|, e requires 0 <= e < |ring| => Edge(p, r, e, ring[e], ring[(e + 1) % |ring|]))
  }

  function PartEdges(part: Part, p: nat, courtyard: bool, n: nat): seq<Edge>
    requires n <= |part|
  {
    if n == 0 then [] else PartEdges(part, p, courtyard, n - 1) + if n - 1 > 0 && !courtyard then [] else RingEdges(part[n - 1], p, n - 1)
  }

  function FootprintEdges(parts: seq<Part>, courtyard: bool, n: nat): seq<Edge>
    requires n <= |parts|
  {
    if n == 0 then [] else FootprintEdges(parts, courtyard, n - 1) + PartEdges(parts[n - 1], n - 1, courtyard, |parts[n - 1]|)
  }

  function PerEdge(w: World, rule: Rule, spacing: real, b: Building, at: Windows, z: seq<real>): Edge -> seq<Placed>
    requires |z| > 0 && spacing > 0.0
  {
    e => EdgeItems(w, rule, spacing, b, at, z, e)
  }

  /** What the first n edges give, in order. */
  function Joined(per: Edge -> seq<Placed>, edges: seq<Edge>, n: nat): seq<Placed>
    requires n <= |edges|
  {
    if n == 0 then [] else Joined(per, edges, n - 1) + per(edges[n - 1])
  }

  // ---- keys rise ----

  ghost predicate Rising(s: seq<Placed>) {
    forall i, j :: 0 <= i < j < |s| ==> s[i].key.Before(s[j].key)
  }

  predicate EdgeBefore(a: Edge, b: Edge) {
    a.part < b.part || (a.part == b.part && (a.ring < b.ring || (a.ring == b.ring && a.edge < b.edge)))
  }

  ghost predicate EdgesRise(s: seq<Edge>) {
    forall i, j :: 0 <= i < j < |s| ==> EdgeBefore(s[i], s[j])
  }

  predicate OnEdge(p: Placed, b: Building, e: Edge) {
    p.key.building == b.id && p.key.part == e.part && p.key.ring == e.ring && p.key.edge == e.edge
  }

  lemma DivRises(i: nat, j: nat, m: nat)
    requires m > 0 && i < j
    ensures i / m < j / m || (i / m == j / m && i % m < j % m)
  {
    DivLe(i, j, m);
  }

  lemma DivLe(i: nat, j: nat, m: nat)
    requires m > 0 && i <= j
    ensures i / m <= j / m
  {
    QuotientLe(i / m, i % m, j / m, j % m, m);
  }

  lemma QuotientLe(p: nat, r: nat, q: nat, s: nat, m: nat)
    requires r < m && s < m && p * m + r <= q * m + s
    ensures p <= q
  {
    if p >= q + 1 {
      MulAtLeast(p, q + 1, m);
    }
  }

  lemma EdgeItemsRise(w: World, rule: Rule, spacing: real, b: Building, at: Windows, z: seq<real>, e: Edge)
    requires |z| > 0 && spacing > 0.0
    ensures Rising(EdgeItems(w, rule, spacing, b, at, z, e))
    ensures forall i :: 0 <= i < |EdgeItems(w, rule, spacing, b, at, z, e)| ==> OnEdge(EdgeItems(w, rule, spacing, b, at, z, e)[i], b, e)
  {
    var s := EdgeItems(w, rule, spacing, b, at, z, e);
    forall i, j | 0 <= i < j < |s|
      ensures s[i].key.Before(s[j].key)
    {
      if WindowsAt(at, e) == [] {
        DivRises(i, j, |z|);
      }
    }
  }

  /** An item on one of the first n of these edges. */
  ghost predicate OnSome(p: Placed, b: Building, edges: seq<Edge>, n: nat)
    requires n <= |edges|
  {
    exists k :: 0 <= k < n && OnEdge(p, b, edges[k])
  }

  ghost predicate AllOnSome(s: seq<Placed>, b: Building, edges: seq<Edge>, n: nat)
    requires n <= |edges|
  {
    forall i :: 0 <= i < |s| ==> OnSome(s[i], b, edges, n)
  }

  lemma RisingJoin(a: seq<Placed>, c: seq<Placed>, b: Building, edges: seq<Edge>, n: nat)
    requires n < |edges| && EdgesRise(edges) && Rising(a) && Rising(c) && AllOnSome(a, b, edges, n)
    requires forall i :: 0 <= i < |c| ==> OnEdge(c[i], b, edges[n])
    ensures Rising(a + c) && AllOnSome(a + c, b, edges, n + 1)
  {
    forall i, j | 0 <= i < |a| && 0 <= j < |c|
      ensures a[i].key.Before(c[j].key)
    {
      assert OnSome(a[i], b, edges, n);
      var k :| 0 <= k < n && OnEdge(a[i], b, edges[k]);
    }
    forall i | 0 <= i < |a + c|
      ensures OnSome((a + c)[i], b, edges, n + 1)
    {
      if i < |a| {
        assert OnSome(a[i], b, edges, n);
        var k :| 0 <= k < n && OnEdge(a[i], b, edges[k]);
      } else {
        assert OnEdge(c[i - |a|], b, edges[n]);
      }
    }
  }

  /** A building's receivers come in the order their keys spell. */
  lemma {:induction false} JoinedRise(per: Edge -> seq<Placed>, b: Building, edges: seq<Edge>, n: nat)
    requires EdgesRise(edges) && n <= |edges|
    requires forall k :: 0 <= k < n ==> Rising(per(edges[k])) && forall i :: 0 <= i < |per(edges[k])| ==> OnEdge(per(edges[k])[i], b, edges[k])
    ensures Rising(Joined(per, edges, n)) && AllOnSome(Joined(per, edges, n), b, edges, n)
    decreases n
  {
    if n > 0 {
      JoinedRise(per, b, edges, n - 1);
      RisingJoin(Joined(per, edges, n - 1), per(edges[n - 1]), b, edges, n - 1);
    }
  }

  lemma EdgesJoin(a: seq<Edge>, c: seq<Edge>)
    requires EdgesRise(a) && EdgesRise(c)
    requires forall i, j :: 0 <= i < |a| && 0 <= j < |c| ==> EdgeBefore(a[i], c[j])
    ensures EdgesRise(a + c)
  {}

  lemma {:induction false} PartEdgesRise(part: Part, p: nat, courtyard: bool, n: nat)
    requires n <= |part|
    ensures EdgesRise(PartEdges(part, p, courtyard, n))
    ensures forall i :: 0 <= i < |PartEdges(part, p, courtyard, n)| ==> PartEdges(part, p, courtyard, n)[i].part == p && PartEdges(part, p, courtyard, n)[i].ring < n
    decreases n
  {
    if n > 0 {
      PartEdgesRise(part, p, courtyard, n - 1);
      EdgesJoin(PartEdges(part, p, courtyard, n - 1), if n - 1 > 0 && !courtyard then [] else RingEdges(part[n - 1], p, n - 1));
    }
  }

  lemma {:induction false} FootprintEdgesRise(parts: seq<Part>, courtyard: bool, n: nat)
    requires n <= |parts|
    ensures EdgesRise(FootprintEdges(parts, courtyard, n))
    ensures forall i :: 0 <= i < |FootprintEdges(parts, courtyard, n)| ==> FootprintEdges(parts, courtyard, n)[i].part < n
    decreases n
  {
    if n > 0 {
      FootprintEdgesRise(parts, courtyard, n - 1);
      PartEdgesRise(parts[n - 1], n - 1, courtyard, |parts[n - 1]|);
      EdgesJoin(FootprintEdges(parts, courtyard, n - 1), PartEdges(parts[n - 1], n - 1, courtyard, |parts[n - 1]|));
    }
  }

  // ---- what is generated ----

  predicate Placeable(w: World, chosen: ReceiverSet, b: Building) {
    chosen.Valid() && w.form(b.polygons).Some? && StoreyHeights(b).Some? && WindowsOf(w, chosen, b).Some?
  }

  /** buildingWindows, on the canonical footprint. */
  function WindowsOf(w: World, chosen: ReceiverSet, b: Building): Option<Windows>
    requires chosen.Valid() && w.form(b.polygons).Some?
  {
    w.windows(chosen.rule.value, Bare(b), w.form(b.polygons).value)
  }

  function EdgesOf(w: World, chosen: ReceiverSet, b: Building): seq<Edge>
    requires w.form(b.polygons).Some?
  {
    FootprintEdges(w.form(b.polygons).value, chosen.courtyard, |w.form(b.polygons).value|)
  }

  /** The building without its footprint as written. */
  function Bare(b: Building): Building { b.(polygons := []) }

  /** One building's receivers. */
  function BuildingItems(w: World, chosen: ReceiverSet, b: Building): seq<Placed>
    requires Placeable(w, chosen, b)
  {
    Joined(PerEdge(w, chosen.rule.value, chosen.spacing, Bare(b), WindowsOf(w, chosen, b).value, StoreyHeights(b).value), EdgesOf(w, chosen, b), |EdgesOf(w, chosen, b)|)
  }

  function CloseRing(ring: Ring): Ring { if ring == [] then [] else ring + [ring[0]] }

  function CloseRings(part: Part): Part { seq(|part|, i requires 0 <= i < |part| => CloseRing(part[i])) }

  /** f is a part of some building's canonical footprint, closed again. */
  ghost predicate IsFootprint(w: World, buildings: seq<Building>, f: Part) {
    exists b :: b in buildings && PartOfBuilding(w, b, f)
  }

  ghost predicate PartOfBuilding(w: World, b: Building, f: Part) {
    w.form(b.polygons).Some? && exists k :: 0 <= k < |w.form(b.polygons).value| && CloseRings(w.form(b.polygons).value[k]) == f
  }

  ghost predicate Masked(w: World, buildings: seq<Building>, p: Point) {
    exists f :: IsFootprint(w, buildings, f) && Interior(p, f, w.near)
  }

  /** x is placed on a building with one of these ids. */
  ghost predicate PlacedOn(w: World, chosen: ReceiverSet, buildings: seq<Building>, ids: seq<nat>, x: Placed) {
    exists b :: b in buildings && b.id in ids && FromBuilding(w, chosen, b, x)
  }

  predicate FromBuilding(w: World, chosen: ReceiverSet, b: Building, x: Placed) {
    Placeable(w, chosen, b) && x in BuildingItems(w, chosen, b)
  }

  /** A receiver of the set: placed on a selected building, its probe in none. */
  ghost predicate Belongs(w: World, chosen: ReceiverSet, buildings: seq<Building>, x: Placed) {
    PlacedOn(w, chosen, buildings, chosen.buildingIds, x) && !Masked(w, buildings, x.probe)
  }

  // ---- where each receiver stands ----

  /** n parts of this spacing reach along the whole length. */
  predicate Reaches(n: nat, length: real, spacing: real) { length <= n as real * spacing }

  /** n is the least count, at least 1, of equal parts no longer than the spacing. */
  ghost predicate LeastCount(n: nat, length: real, spacing: real) {
    n >= 1 && Reaches(n, length, spacing) && forall m: nat :: 1 <= m < n ==> !Reaches(m, length, spacing)
  }

  lemma CeilingIs(q: real, n: int)
    requires n == if q == q.Floor as real then q.Floor else q.Floor + 1
    ensures q <= n as real && (n - 1) as real < q
  {}

  lemma StationCountLeast(length: real, spacing: real)
    requires spacing > 0.0
    ensures LeastCount(StationCount(length, spacing), length, spacing)
  {
    var q, n := length / spacing, StationCount(length, spacing);
    CeilingIs(q, if q == q.Floor as real then q.Floor else q.Floor + 1);
    DivCompare(length, n as real, spacing);
    forall m: nat | 1 <= m < n
      ensures !Reaches(m, length, spacing)
    {
      assert m as real <= (n - 1) as real < q;
      DivCompare(length, m as real, spacing);
    }
  }

  /** The key names an edge of the canonical footprint: courtyard rings on request. */
  predicate NamesEdge(parts: seq<Part>, courtyard: bool, k: Key) {
    && k.part < |parts| && k.ring < |parts[k.part]| && (k.ring == 0 || courtyard)
    && k.edge < |parts[k.part][k.ring]|
  }

  /** One receiver a window, in order along the edge, each probed 0.1 m out. */
  ghost predicate StandsAtWindow(w: World, windows: seq<Window>, from: Point, to: Point, x: Placed) {
    && x.key.station < |windows|
    && var v := windows[x.key.station];
       && x.key.storey == v.storey && x.u == v.u && x.height == v.height
       && x.point == w.point(from, to, v.u, v.offset) && x.probe == w.point(from, to, v.u, 0.1)
  }

  /** One receiver a station and storey: n stations, each in the middle of its
      part, out by the rule's offset, each probed 0.1 m out. */
  ghost predicate StandsAtStation(w: World, offset: real, spacing: real, z: seq<real>, from: Point, to: Point, x: Placed, n: nat) {
    LeastCount(n, w.length(from, to), spacing) && AtOne(w, offset, z, from, to, x, n, w.length(from, to))
  }

  predicate AtOne(w: World, offset: real, z: seq<real>, from: Point, to: Point, x: Placed, n: nat, length: real)
    requires n >= 1
  {
    && x.key.station < n && 0 <= x.key.storey < |z| && x.height == z[x.key.storey]
    && x.u == (x.key.station as real + 0.5) * length / n as real
    && x.point == w.point(from, to, x.u, offset) && x.probe == w.point(from, to, x.u, 0.1)
  }

  ghost predicate StandsOn(w: World, rule: Rule, spacing: real, at: Windows, z: seq<real>, from: Point, to: Point, x: Placed) {
    var index := (x.key.part, x.key.ring, x.key.edge);
    if index in at && at[index] != [] then StandsAtWindow(w, at[index], from, to, x)
    else !rule.windowsOnly && exists n :: StandsAtStation(w, rule.offset, spacing, z, from, to, x, n)
  }

  /** x stands on this building as the set places receivers. */
  ghost predicate Stands(w: World, chosen: ReceiverSet, b: Building, x: Placed) {
    && Placeable(w, chosen, b) && x.key.building == b.id
    && NamesEdge(w.form(b.polygons).value, chosen.courtyard, x.key)
    && var ring := w.form(b.polygons).value[x.key.part][x.key.ring];
       StandsOn(w, chosen.rule.value, chosen.spacing, WindowsOf(w, chosen, b).value, StoreyHeights(b).value,
                ring[x.key.edge], Next(ring, x.key.edge), x)
  }

  ghost predicate IsEdge(parts: seq<Part>, courtyard: bool, n: nat, e: Edge) {
    && e.part < n <= |parts| && e.ring < |parts[e.part]| && (e.ring == 0 || courtyard)
    && e.edge < |parts[e.part][e.ring]| && e == RingEdges(parts[e.part][e.ring], e.part, e.ring)[e.edge]
  }

  lemma NextVertex(edge: nat, n: nat)
    requires edge < n
    ensures (edge + 1) % n == if edge == n - 1 then 0 else edge + 1
  {}

  lemma EdgeAndKey(parts: seq<Part>, courtyard: bool, k: Key, e: Edge)
    requires k.part == e.part && k.ring == e.ring && k.edge == e.edge
    ensures IsEdge(parts, courtyard, |parts|, e) <==>
            NamesEdge(parts, courtyard, k) && e.from == parts[k.part][k.ring][k.edge] && e.to == Next(parts[k.part][k.ring], k.edge)
  {
    if NamesEdge(parts, courtyard, k) {
      NextVertex(k.edge, |parts[k.part][k.ring]|);
    }
  }

  lemma RingEdgesHave(ring: Ring, p: nat, r: nat, e: Edge)
    ensures e in RingEdges(ring, p, r) <==> e.part == p && e.ring == r && e.edge < |ring| && e == RingEdges(ring, p, r)[e.edge]
  {}

  lemma {:induction false} PartEdgesHave(part: Part, p: nat, courtyard: bool, n: nat, e: Edge)
    requires n <= |part|
    ensures e in PartEdges(part, p, courtyard, n) <==>
            && e.part == p && e.ring < n && (e.ring == 0 || courtyard)
            && e.edge < |part[e.ring]| && e == RingEdges(part[e.ring], p, e.ring)[e.edge]
    decreases n
  {
    if n > 0 {
      PartEdgesHave(part, p, courtyard, n - 1, e);
      RingEdgesHave(part[n - 1], p, n - 1, e);
    }
  }

  lemma {:induction false} FootprintEdgesHave(parts: seq<Part>, courtyard: bool, n: nat, e: Edge)
    requires n <= |parts|
    ensures e in FootprintEdges(parts, courtyard, n) <==> IsEdge(parts, courtyard, n, e)
    decreases n
  {
    if n > 0 {
      FootprintEdgesHave(parts, courtyard, n - 1, e);
      PartEdgesHave(parts[n - 1], n - 1, courtyard, |parts[n - 1]|, e);
    }
  }

  lemma {:induction false} JoinedHas(per: Edge -> seq<Placed>, edges: seq<Edge>, n: nat, x: Placed)
    requires n <= |edges|
    ensures x in Joined(per, edges, n) <==> exists k :: 0 <= k < n && x in per(edges[k])
    decreases n
  {
    if n > 0 {
      JoinedHas(per, edges, n - 1, x);
    }
  }

  lemma DivBack(station: nat, storey: nat, n: nat, m: nat)
    requires station < n && storey < m
    ensures station * m + storey < n * m
    ensures (station * m + storey) / m == station && (station * m + storey) % m == storey
  {
    MulAtLeast(n, station + 1, m);
    assert (station + 1) * m == station * m + m;
    QuotientIs(station, storey, m);
  }

  lemma QuotientIs(q: nat, r: nat, m: nat)
    requires r < m
    ensures (q * m + r) / m == q && (q * m + r) % m == r
  {
    var i := q * m + r;
    QuotientLe(q, r, i / m, i % m, m);
    QuotientLe(i / m, i % m, q, r, m);
  }

  lemma LeastIsOne(n: nat, m: nat, length: real, spacing: real)
    requires LeastCount(n, length, spacing) && LeastCount(m, length, spacing)
    ensures n == m
  {}

  /** The receiver at a station and storey of an edge. */
  lemma AtStationStands(w: World, rule: Rule, b: Building, z: seq<real>, e: Edge, length: real, n: nat, i: nat)
    requires |z| > 0 && n >= 1 && i < n * |z|
    ensures var x := AtStation(w, rule, b, e, z, Stations(length, n), i);
            OnEdge(x, b, e) && AtOne(w, rule.offset, z, e.from, e.to, x, n, length)
  {
    StationOf(i, n, |z|);
  }

  lemma StationStandsAt(w: World, rule: Rule, b: Building, z: seq<real>, e: Edge, length: real, n: nat, x: Placed) returns (i: nat)
    requires |z| > 0 && n >= 1 && OnEdge(x, b, e) && AtOne(w, rule.offset, z, e.from, e.to, x, n, length)
    ensures i < n * |z| && x == AtStation(w, rule, b, e, z, Stations(length, n), i)
  {
    i := x.key.station * |z| + x.key.storey;
    DivBack(x.key.station, x.key.storey, n, |z|);
    IsAtStation(w, rule, b, z, e, length, n, x, i);
  }

  lemma IsAtStation(w: World, rule: Rule, b: Building, z: seq<real>, e: Edge, length: real, n: nat, x: Placed, i: nat)
    requires |z| > 0 && n >= 1 && OnEdge(x, b, e) && AtOne(w, rule.offset, z, e.from, e.to, x, n, length)
    requires i < n * |z| && i / |z| == x.key.station && i % |z| == x.key.storey
    ensures x == AtStation(w, rule, b, e, z, Stations(length, n), i)
  {
    assert x.u == Station(length, n, x.key.station) == Stations(length, n)[x.key.station];
    assert x.key == Key(b.id, e.part, e.ring, e.edge, i / |z|, i % |z|);
  }

  lemma StationItemsStand(w: World, rule: Rule, spacing: real, b: Building, at: Windows, z: seq<real>, e: Edge, x: Placed)
    requires |z| > 0 && spacing > 0.0 && WindowsAt(at, e) == [] && !rule.windowsOnly
    ensures x in EdgeItems(w, rule, spacing, b, at, z, e) <==>
            OnEdge(x, b, e) && exists n :: StandsAtStation(w, rule.offset, spacing, z, e.from, e.to, x, n)
  {
    var s, length := EdgeItems(w, rule, spacing, b, at, z, e), w.length(e.from, e.to);
    var n := StationCount(length, spacing);
    StationCountLeast(length, spacing);
    if x in s {
      var i :| 0 <= i < |s| && s[i] == x;
      AtStationStands(w, rule, b, z, e, length, n, i);
      assert StandsAtStation(w, rule.offset, spacing, z, e.from, e.to, x, n);
    }
    if m :| OnEdge(x, b, e) && StandsAtStation(w, rule.offset, spacing, z, e.from, e.to, x, m) {
      LeastIsOne(m, n, length, spacing);
      var i := StationStandsAt(w, rule, b, z, e, length, n, x);
      assert s[i] == x;
    }
  }

  /** What an edge gives is what stands on it. */
  lemma EdgeItemsStand(w: World, rule: Rule, spacing: real, b: Building, at: Windows, z: seq<real>, e: Edge, x: Placed)
    requires |z| > 0 && spacing > 0.0
    ensures x in EdgeItems(w, rule, spacing, b, at, z, e) <==>
            OnEdge(x, b, e) && StandsOn(w, rule, spacing, at, z, e.from, e.to, x)
  {
    if WindowsAt(at, e) != [] {
      var s := EdgeItems(w, rule, spacing, b, at, z, e);
      if OnEdge(x, b, e) && StandsAtWindow(w, WindowsAt(at, e), e.from, e.to, x) {
        assert s[x.key.station] == x;
      }
    } else if !rule.windowsOnly {
      StationItemsStand(w, rule, spacing, b, at, z, e, x);
    }
  }

  /** A building's receivers are exactly those that stand on it. */
  lemma ItemsStand(w: World, chosen: ReceiverSet, b: Building, x: Placed)
    ensures FromBuilding(w, chosen, b, x) <==> Stands(w, chosen, b, x)
  {
    if Placeable(w, chosen, b) {
      var parts, edges := w.form(b.polygons).value, EdgesOf(w, chosen, b);
      var rule, at, z := chosen.rule.value, WindowsOf(w, chosen, b).value, StoreyHeights(b).value;
      JoinedHas(PerEdge(w, rule, chosen.spacing, Bare(b), at, z), edges, |edges|, x);
      if FromBuilding(w, chosen, b, x) {
        var k :| 0 <= k < |edges| && x in EdgeItems(w, rule, chosen.spacing, Bare(b), at, z, edges[k]);
        EdgeItemsStand(w, rule, chosen.spacing, Bare(b), at, z, edges[k], x);
        FootprintEdgesHave(parts, chosen.courtyard, |parts|, edges[k]);
        EdgeAndKey(parts, chosen.courtyard, x.key, edges[k]);
      }
      if Stands(w, chosen, b, x) {
        var ring := parts[x.key.part][x.key.ring];
        var e := Edge(x.key.part, x.key.ring, x.key.edge, ring[x.key.edge], Next(ring, x.key.edge));
        EdgeAndKey(parts, chosen.courtyard, x.key, e);
        FootprintEdgesHave(parts, chosen.courtyard, |parts|, e);
        EdgeItemsStand(w, rule, chosen.spacing, Bare(b), at, z, e, x);
        var k :| 0 <= k < |edges| && edges[k] == e;
      }
    }
  }

  lemma AllItemsStand(w: World, chosen: ReceiverSet, b: Building)
    requires Placeable(w, chosen, b)
    ensures forall x :: x in BuildingItems(w, chosen, b) <==> Stands(w, chosen, b, x)
  {
    forall x
      ensures x in BuildingItems(w, chosen, b) <==> Stands(w, chosen, b, x)
    {
      ItemsStand(w, chosen, b, x);
    }
  }

  /** f is the part with every ring's first vertex repeated at its end. */
  ghost predicate ClosedFrom(part: Part, f: Part) {
    && |f| == |part|
    && forall i :: 0 <= i < |part| ==> f[i] == part[i] + if |part[i]| > 0 then [part[i][0]] else []
  }

  /** p lies strictly inside a part of some building's canonical footprint. */
  ghost predicate WithinSome(w: World, buildings: seq<Building>, p: Point) {
    exists b, k, f ::
      && b in buildings && w.form(b.polygons).Some? && 0 <= k < |w.form(b.polygons).value|
      && ClosedFrom(w.form(b.polygons).value[k], f) && Interior(p, f, w.near)
  }

  lemma ClosedFromIs(part: Part, f: Part)
    ensures ClosedFrom(part, f) <==> f == CloseRings(part)
  {}

  lemma MaskedIsWithin(w: World, buildings: seq<Building>, p: Point)
    ensures Masked(w, buildings, p) <==> WithinSome(w, buildings, p)
  {
    if Masked(w, buildings, p) {
      var f :| IsFootprint(w, buildings, f) && Interior(p, f, w.near);
      var b :| b in buildings && PartOfBuilding(w, b, f);
      var k :| 0 <= k < |w.form(b.polygons).value| && CloseRings(w.form(b.polygons).value[k]) == f;
      ClosedFromIs(w.form(b.polygons).value[k], f);
    }
    if WithinSome(w, buildings, p) {
      var b, k, f :| b in buildings && w.form(b.polygons).Some? && 0 <= k < |w.form(b.polygons).value|
        && ClosedFrom(w.form(b.polygons).value[k], f) && Interior(p, f, w.near);
      ClosedFromIs(w.form(b.polygons).value[k], f);
      assert PartOfBuilding(w, b, f);
      assert IsFootprint(w, buildings, f);
    }
  }

  /** x stands on a selected building and its probe strictly inside none. */
  ghost predicate StandsFree(w: World, chosen: ReceiverSet, buildings: seq<Building>, x: Placed) {
    && (exists b :: b in buildings && b.id in chosen.buildingIds && Stands(w, chosen, b, x))
    && !WithinSome(w, buildings, x.probe)
  }

  /** The set's receivers are exactly those that stand free. */
  lemma BelongsStands(w: World, chosen: ReceiverSet, buildings: seq<Building>, x: Placed)
    ensures Belongs(w, chosen, buildings, x) <==> StandsFree(w, chosen, buildings, x)
  {
    MaskedIsWithin(w, buildings, x.probe);
    if PlacedOn(w, chosen, buildings, chosen.buildingIds, x) {
      var b :| b in buildings && b.id in chosen.buildingIds && FromBuilding(w, chosen, b, x);
      ItemsStand(w, chosen, b, x);
    }
    if b :| b in buildings && b.id in chosen.buildingIds && Stands(w, chosen, b, x) {
      ItemsStand(w, chosen, b, x);
    }
  }

  // ---- the steps ----

  /** place: one building's receivers after those already placed, up to the cap. */
  method Place(w: World, chosen: ReceiverSet, b: Building, before: seq<Placed>) returns (r: seq<Placed>, ok: bool)
    requires chosen.Valid() && w.form(b.polygons).Some? && |before| <= MAX_FACADE_RECEIVERS
    ensures ok <==> Placeable(w, chosen, b) && |before| + |BuildingItems(w, chosen, b)| <= MAX_FACADE_RECEIVERS
    ensures ok ==> r == before + BuildingItems(w, chosen, b)
    ensures ok ==> forall x :: x in r[|before|..] <==> Stands(w, chosen, b, x)
  {
    r, ok := before, false;
    var storeys := StoreyHeights(b);
    if storeys.None? { return; }
    var windows := WindowsOf(w, chosen, b);
    if windows.None? { return; }
    r, ok := PlaceOnEdges(w, chosen.rule.value, chosen.spacing, Bare(b), windows.value, storeys.value, EdgesOf(w, chosen, b), before);
    AllItemsStand(w, chosen, b);
  }

  /** Its loop over the footprint's edges. */
  method PlaceOnEdges(w: World, rule: Rule, spacing: real, b: Building, at: Windows, z: seq<real>, edges: seq<Edge>, before: seq<Placed>)
    returns (r: seq<Placed>, ok: bool)
    requires |z| > 0 && spacing > 0.0 && |before| <= MAX_FACADE_RECEIVERS
    ensures ok <==> |before| + |Joined(PerEdge(w, rule, spacing, b, at, z), edges, |edges|)| <= MAX_FACADE_RECEIVERS
    ensures ok ==> r == before + Joined(PerEdge(w, rule, spacing, b, at, z), edges, |edges|)
  {
    r, ok := before, false;
    ghost var per := PerEdge(w, rule, spacing, b, at, z);
    for k := 0 to |edges|
      invariant r == before + Joined(per, edges, k) && |r| <= MAX_FACADE_RECEIVERS
    {
      PlaceNext(per, edges, k, before, r);
      var room := Room(w, rule, spacing, b, at, z, edges[k], |r|);
      if !room { return; }
      r := r + EdgeItems(w, rule, spacing, b, at, z, edges[k]);
    }
    ok := true;
  }

  /** Placing the next edge's receivers, and that none fit if those do not. */
  lemma PlaceNext(per: Edge -> seq<Placed>, edges: seq<Edge>, k: nat, before: seq<Placed>, r: seq<Placed>)
    requires k < |edges| && r == before + Joined(per, edges, k)
    ensures r + per(edges[k]) == before + Joined(per, edges, k + 1)
    ensures |r| + |per(edges[k])| <= |before| + |Joined(per, edges, |edges|)|
  {
    JoinAgain(before, Joined(per, edges, k), per(edges[k]));
    JoinedGrow(per, edges, k + 1, |edges|);
  }

  lemma JoinAgain<T>(a: seq<T>, b: seq<T>, c: seq<T>)
    ensures a + b + c == a + (b + c)
  {}

  lemma {:induction false} JoinedGrow(per: Edge -> seq<Placed>, edges: seq<Edge>, k: nat, n: nat)
    requires k <= n <= |edges|
    ensures |Joined(per, edges, k)| <= |Joined(per, edges, n)|
    decreases n
  {
    if k < n {
      JoinedGrow(per, edges, k, n - 1);
    }
  }

  /** Whether the cap has room for an edge's receivers, checked on the counts
      before anything is placed. */
  method Room(w: World, rule: Rule, spacing: real, b: Building, at: Windows, z: seq<real>, e: Edge, placed: nat) returns (room: bool)
    requires |z| > 0 && spacing > 0.0 && placed <= MAX_FACADE_RECEIVERS
    ensures room <==> placed + |EdgeItems(w, rule, spacing, b, at, z, e)| <= MAX_FACADE_RECEIVERS
  {
    var windows := WindowsAt(at, e);
    if |windows| > 0 {
      room := placed + |windows| <= MAX_FACADE_RECEIVERS;
    } else if rule.windowsOnly {
      room := true;
    } else {
      var count := StationCount(w.length(e.from, e.to), spacing);
      var limit := (MAX_FACADE_RECEIVERS - placed) / |z|;
      LimitIs(count, |z|, MAX_FACADE_RECEIVERS - placed);
      room := count <= limit;
    }
  }

  lemma LimitIs(count: nat, m: nat, left: nat)
    requires m > 0
    ensures count <= left / m <==> count * m <= left
  {
    if count <= left / m {
      MulAtLeast(left / m, count, m);
    } else {
      MulAtLeast(count, left / m + 1, m);
      assert (left / m + 1) * m == left / m * m + m;
    }
  }

  /** slices.SortFunc by key. */
  method SortReceivers(s: seq<Placed>) returns (r: seq<Placed>)
    requires DistinctKeys(s)
    ensures Rising(r) && forall x :: x in r <==> x in s
    ensures |r| == |s|
  {
    r := [];
    for i := 0 to |s|
      invariant Rising(r) && |r| == i && forall x :: x in r <==> x in s[..i]
    {
      assert s[..i + 1] == s[..i] + [s[i]];
      forall j | 0 <= j < |r|
        ensures r[j].key != s[i].key
      {
        assert r[j] in s[..i];
      }
      r := InsertReceiver(r, s[i]);
    }
    assert s[..|s|] == s;
  }

  predicate DistinctKeys(s: seq<Placed>) { forall i, j :: 0 <= i < j < |s| ==> s[i].key != s[j].key }

  method InsertReceiver(s: seq<Placed>, p: Placed) returns (r: seq<Placed>)
    requires Rising(s) && forall j :: 0 <= j < |s| ==> s[j].key != p.key
    ensures Rising(r) && |r| == |s| + 1 && forall x :: x in r <==> x in s || x == p
  {
    var at := 0;
    while at < |s| && s[at].key.Before(p.key)
      invariant at <= |s| && forall i :: 0 <= i < at ==> s[i].key.Before(p.key)
    {
      at := at + 1;
    }
    r := s[..at] + [p] + s[at..];
    assert s == s[..at] + s[at..];
    forall i | at <= i < |s|
      ensures p.key.Before(s[i].key)
    {
      assert at < i ==> s[at].key.Before(s[i].key);
    }
  }

  lemma RisingDistinct(s: seq<Placed>)
    requires Rising(s)
    ensures DistinctKeys(s)
  {}

  // ---- one list ----

  lemma {:induction false} SameMembers(a: seq<Placed>, b: seq<Placed>)
    requires Rising(a) && Rising(b) && forall x :: x in a <==> x in b
    ensures a == b
    decreases |a|
  {
    if a == [] {
      Nothing(b);
    } else {
      NotNothing(a, b);
      LastIs(a, b);
      var front, other := a[..|a| - 1], b[..|b| - 1];
      forall x
        ensures x in front <==> x in other
      {
        Front(a, x);
        Front(b, x);
      }
      SameMembers(front, other);
      assert a == front + [a[|a| - 1]] && b == other + [b[|b| - 1]];
    }
  }

  lemma Nothing(s: seq<Placed>)
    ensures s == [] || exists x :: x in s
  {
    if s != [] {
      assert s[0] in s;
    }
  }

  lemma NotNothing(a: seq<Placed>, b: seq<Placed>)
    requires a != [] && forall x :: x in a ==> x in b
    ensures b != []
  {
    assert a[0] in b;
  }

  lemma Front(s: seq<Placed>, x: Placed)
    requires Rising(s) && s != []
    ensures x in s[..|s| - 1] <==> x in s && x != s[|s| - 1]
  {
    assert s == s[..|s| - 1] + [s[|s| - 1]];
  }

  lemma LastIs(a: seq<Placed>, b: seq<Placed>)
    requires Rising(a) && Rising(b) && a != [] && b != [] && forall x :: x in a <==> x in b
    ensures a[|a| - 1] == b[|b| - 1]
  {
    assert a[|a| - 1] in b && b[|b| - 1] in a;
    var i :| 0 <= i < |b| && b[i] == a[|a| - 1];
    var j :| 0 <= j < |a| && a[j] == b[|b| - 1];
  }

  // ---- Generate ----

  /** canonicalBuildings: the closed parts of every building, unless a building
      is given twice or a footprint has no canonical form. */
  method CanonicalBuildings(w: World, buildings: seq<Building>) returns (footprints: seq<Part>, ok: bool)
    ensures ok <==> UniqueIds(buildings) && forall b :: b in buildings ==> w.form(b.polygons).Some?
    ensures ok ==> forall f :: f in footprints <==> IsFootprint(w, buildings, f)
  {
    footprints, ok := [], false;
    for i := 0 to |buildings|
      invariant UniqueIds(buildings[..i]) && forall k :: 0 <= k < i ==> w.form(buildings[k].polygons).Some?
      invariant forall f :: f in footprints <==> IsFootprint(w, buildings[..i], f)
    {
      var b := buildings[i];
      assert buildings[..i + 1] == buildings[..i] + [b];
      if j :| 0 <= j < i && buildings[j].id == b.id {
        return;
      }
      if w.form(b.polygons).None? { return; }
      var closed := ClosedParts(w.form(b.polygons).value);
      footprints := footprints + closed;
      forall f
        ensures f in footprints <==> IsFootprint(w, buildings[..i + 1], f)
      {
        MoreFootprints(w, buildings[..i], b, f);
      }
    }
    assert buildings[..|buildings|] == buildings;
    ok := true;
  }

  lemma MoreFootprints(w: World, buildings: seq<Building>, b: Building, f: Part)
    ensures IsFootprint(w, buildings + [b], f) <==> IsFootprint(w, buildings, f) || PartOfBuilding(w, b, f)
  {
    if IsFootprint(w, buildings, f) {
      var c :| c in buildings && PartOfBuilding(w, c, f);
      assert c in buildings + [b];
    }
    if PartOfBuilding(w, b, f) {
      assert b in buildings + [b];
    }
  }

  method ClosedParts(parts: seq<Part>) returns (closed: seq<Part>)
    ensures forall f :: f in closed <==> exists k :: 0 <= k < |parts| && CloseRings(parts[k]) == f
  {
    closed := [];
    for k := 0 to |parts|
      invariant |closed| == k && forall j :: 0 <= j < k ==> closed[j] == CloseRings(parts[j])
    {
      closed := closed + [CloseRings(parts[k])];
    }
  }

  predicate UniqueIds(buildings: seq<Building>) {
    forall i, j :: 0 <= i < j < |buildings| ==> buildings[i].id != buildings[j].id
  }

  method FindBuilding(buildings: seq<Building>, id: nat) returns (at: nat, ok: bool)
    ensures ok ==> at < |buildings| && buildings[at].id == id
    ensures !ok ==> forall b :: b in buildings ==> b.id != id
  {
    at, ok := 0, false;
    while at < |buildings|
      invariant at <= |buildings| && forall j :: 0 <= j < at ==> buildings[j].id != id
    {
      if buildings[at].id == id {
        ok := true;
        return;
      }
      at := at + 1;
    }
  }

  /** What has been placed on the buildings with these ids, every key once. */
  ghost predicate PlacedAll(w: World, chosen: ReceiverSet, buildings: seq<Building>, ids: seq<nat>, s: seq<Placed>) {
    DistinctKeys(s) && forall x :: x in s <==> PlacedOn(w, chosen, buildings, ids, x)
  }

  /** Every one of these ids names a building that receivers can be placed on. */
  ghost predicate AllPlaceable(w: World, chosen: ReceiverSet, buildings: seq<Building>, ids: seq<nat>) {
    forall id :: id in ids ==> Named(w, chosen, buildings, id)
  }

  ghost predicate Named(w: World, chosen: ReceiverSet, buildings: seq<Building>, id: nat) {
    exists b :: b in buildings && b.id == id && Placeable(w, chosen, b)
  }

  /** The set's receivers, masked ones counted, fit under the cap. */
  ghost predicate Fits(w: World, chosen: ReceiverSet, buildings: seq<Building>) {
    exists s :: PlacedAll(w, chosen, buildings, chosen.buildingIds, s) && |s| <= MAX_FACADE_RECEIVERS
  }

  ghost predicate Accepts(w: World, chosen: ReceiverSet, buildings: seq<Building>) {
    && chosen.Valid() && UniqueIds(buildings) && (forall b :: b in buildings ==> w.form(b.polygons).Some?)
    && AllPlaceable(w, chosen, buildings, chosen.buildingIds) && Fits(w, chosen, buildings)
  }

  datatype Outcome = Generated(receivers: seq<Placed>) | Refused

  /** What Generate promises: an answer exactly when the set can be served, and
      then the set's receivers, each key once, in the order keys spell. */
  ghost predicate Answer(w: World, chosen: ReceiverSet, buildings: seq<Building>, r: Outcome) {
    && (r.Generated? <==> Accepts(w, chosen, buildings))
    && (r.Generated? ==> Rising(r.receivers) && forall x :: x in r.receivers <==> Belongs(w, chosen, buildings, x))
  }

  lemma ItemsOfBuilding(w: World, chosen: ReceiverSet, b: Building)
    requires Placeable(w, chosen, b)
    ensures DistinctKeys(BuildingItems(w, chosen, b))
    ensures forall x :: x in BuildingItems(w, chosen, b) ==> x.key.building == b.id
  {
    FootprintEdgesRise(w.form(b.polygons).value, chosen.courtyard, |w.form(b.polygons).value|);
    var edges := EdgesOf(w, chosen, b);
    forall k | 0 <= k < |edges|
      ensures Rising(PerEdge(w, chosen.rule.value, chosen.spacing, Bare(b), WindowsOf(w, chosen, b).value, StoreyHeights(b).value)(edges[k]))
    {
      EdgeItemsRise(w, chosen.rule.value, chosen.spacing, Bare(b), WindowsOf(w, chosen, b).value, StoreyHeights(b).value, edges[k]);
    }
    JoinedRise(PerEdge(w, chosen.rule.value, chosen.spacing, Bare(b), WindowsOf(w, chosen, b).value, StoreyHeights(b).value), Bare(b), edges, |edges|);
    RisingDistinct(BuildingItems(w, chosen, b));
    forall x | x in BuildingItems(w, chosen, b)
      ensures x.key.building == b.id
    {
      var i :| 0 <= i < |BuildingItems(w, chosen, b)| && BuildingItems(w, chosen, b)[i] == x;
      assert OnSome(x, Bare(b), EdgesOf(w, chosen, b), |EdgesOf(w, chosen, b)|);
    }
  }

  lemma SameBuilding(buildings: seq<Building>, b: Building, c: Building)
    requires UniqueIds(buildings) && b in buildings && c in buildings && b.id == c.id
    ensures b == c
  {
    var i :| 0 <= i < |buildings| && buildings[i] == b;
    var j :| 0 <= j < |buildings| && buildings[j] == c;
  }

  lemma OneMoreId(ids: seq<nat>, n: nat, id: nat)
    requires n < |ids|
    ensures id in ids[..n + 1] <==> id in ids[..n] || id == ids[n]
  {
    assert ids[..n + 1] == ids[..n] + [ids[n]];
  }

  lemma PlacedMore(w: World, chosen: ReceiverSet, buildings: seq<Building>, n: nat, b: Building, x: Placed)
    requires UniqueIds(buildings) && n < |chosen.buildingIds| && b in buildings && b.id == chosen.buildingIds[n]
    ensures PlacedOn(w, chosen, buildings, chosen.buildingIds[..n + 1], x)
            <==> PlacedOn(w, chosen, buildings, chosen.buildingIds[..n], x) || FromBuilding(w, chosen, b, x)
  {
    var ids := chosen.buildingIds;
    OneMoreId(ids, n, b.id);
    if PlacedOn(w, chosen, buildings, ids[..n + 1], x) {
      var c :| c in buildings && c.id in ids[..n + 1] && FromBuilding(w, chosen, c, x);
      OneMoreId(ids, n, c.id);
      if c.id == b.id {
        SameBuilding(buildings, b, c);
      }
    }
    if PlacedOn(w, chosen, buildings, ids[..n], x) {
      var c :| c in buildings && c.id in ids[..n] && FromBuilding(w, chosen, c, x);
      OneMoreId(ids, n, c.id);
    }
  }

  lemma PlacedElsewhere(w: World, chosen: ReceiverSet, buildings: seq<Building>, n: nat, x: Placed)
    requires chosen.Valid() && n < |chosen.buildingIds| && PlacedOn(w, chosen, buildings, chosen.buildingIds[..n], x)
    ensures x.key.building != chosen.buildingIds[n]
  {
    var c :| c in buildings && c.id in chosen.buildingIds[..n] && FromBuilding(w, chosen, c, x);
    ItemsOfBuilding(w, chosen, c);
  }

  lemma DistinctJoin(s: seq<Placed>, t: seq<Placed>, id: nat)
    requires DistinctKeys(s) && DistinctKeys(t)
    requires forall x :: x in s ==> x.key.building != id
    requires forall x :: x in t ==> x.key.building == id
    ensures DistinctKeys(s + t)
  {
    forall i, j | 0 <= i < |s| && 0 <= j < |t|
      ensures s[i].key != t[j].key
    {
      assert s[i] in s && t[j] in t;
    }
  }

  lemma PlacedAllMore(w: World, chosen: ReceiverSet, buildings: seq<Building>, s: seq<Placed>, n: nat, b: Building)
    requires chosen.Valid() && UniqueIds(buildings) && n < |chosen.buildingIds| && b in buildings
    requires b.id == chosen.buildingIds[n] && Placeable(w, chosen, b)
    requires PlacedAll(w, chosen, buildings, chosen.buildingIds[..n], s)
    ensures PlacedAll(w, chosen, buildings, chosen.buildingIds[..n + 1], s + BuildingItems(w, chosen, b))
  {
    var t := BuildingItems(w, chosen, b);
    ItemsOfBuilding(w, chosen, b);
    forall x | x in s
      ensures x.key.building != b.id
    {
      PlacedElsewhere(w, chosen, buildings, n, x);
    }
    DistinctJoin(s, t, b.id);
    forall x
      ensures x in s + t <==> PlacedOn(w, chosen, buildings, chosen.buildingIds[..n + 1], x)
    {
      PlacedMore(w, chosen, buildings, n, b, x);
    }
  }

  // ---- the cap counts each receiver once ----

  lemma {:induction false} NoMoreThan<T>(t: seq<T>, s: seq<T>)
    requires (forall i, j :: 0 <= i < j < |t| ==> t[i] != t[j]) && forall x :: x in t ==> x in s
    ensures |t| <= |s|
    decreases |t|
  {
    if t != [] {
      var x := t[|t| - 1];
      var front := t[..|t| - 1];
      assert x in t;
      var k :| 0 <= k < |s| && s[k] == x;
      var rest := s[..k] + s[k + 1..];
      forall y | y in front
        ensures y in rest
      {
        var i :| 0 <= i < |front| && front[i] == y;
        assert t[i] == y && y in s;
        var m :| 0 <= m < |s| && s[m] == y;
        assert m < k ==> rest[m] == y;
        assert m > k ==> rest[m - 1] == y;
      }
      NoMoreThan(front, rest);
    }
  }

  /** Once the receivers placed so far pass the cap, the set does not fit. */
  lemma TooMany(w: World, chosen: ReceiverSet, buildings: seq<Building>, s: seq<Placed>, n: nat)
    requires n <= |chosen.buildingIds| && PlacedAll(w, chosen, buildings, chosen.buildingIds[..n], s) && |s| > MAX_FACADE_RECEIVERS
    ensures !Fits(w, chosen, buildings)
  {
    if Fits(w, chosen, buildings) {
      var all :| PlacedAll(w, chosen, buildings, chosen.buildingIds, all) && |all| <= MAX_FACADE_RECEIVERS;
      forall x | x in s
        ensures x in all
      {
        var c :| c in buildings && c.id in chosen.buildingIds[..n] && FromBuilding(w, chosen, c, x);
        assert c.id in chosen.buildingIds;
      }
      NoMoreThan(s, all);
    }
  }

  /** Generate. */
  method Generate(w: World, chosen: ReceiverSet, buildings: seq<Building>) returns (r: Outcome)
    ensures Answer(w, chosen, buildings, r)
    ensures r.Generated? ==> |r.receivers| <= MAX_FACADE_RECEIVERS
    ensures r.Generated? ==> forall x :: x in r.receivers <==> StandsFree(w, chosen, buildings, x)
  {
    if !chosen.Valid() { return Refused; }
    var footprints, canonical := CanonicalBuildings(w, buildings);
    if !canonical { return Refused; }
    var placed, ok := PlaceAll(w, chosen, buildings);
    if !ok { return Refused; }
    var kept := Unmasked(w, placed, footprints);
    var sorted := SortReceivers(kept);
    forall x
      ensures x in sorted <==> Belongs(w, chosen, buildings, x)
    {
      MaskIs(w, buildings, footprints, x.probe);
    }
    r := Generated(sorted);
    forall x
      ensures Belongs(w, chosen, buildings, x) <==> StandsFree(w, chosen, buildings, x)
    {
      BelongsStands(w, chosen, buildings, x);
    }
  }

  /** Generate's loop over the selected ids. */
  method PlaceAll(w: World, chosen: ReceiverSet, buildings: seq<Building>) returns (placed: seq<Placed>, ok: bool)
    requires chosen.Valid() && UniqueIds(buildings) && forall b :: b in buildings ==> w.form(b.polygons).Some?
    ensures ok <==> AllPlaceable(w, chosen, buildings, chosen.buildingIds) && Fits(w, chosen, buildings)
    ensures ok ==> PlacedAll(w, chosen, buildings, chosen.buildingIds, placed) && |placed| <= MAX_FACADE_RECEIVERS
  {
    placed, ok := [], false;
    for n := 0 to |chosen.buildingIds|
      invariant PlacedAll(w, chosen, buildings, chosen.buildingIds[..n], placed) && |placed| <= MAX_FACADE_RECEIVERS
      invariant AllPlaceable(w, chosen, buildings, chosen.buildingIds[..n])
    {
      var id := chosen.buildingIds[n];
      var at, found := FindBuilding(buildings, id);
      if !found {
        assert !Named(w, chosen, buildings, id);
        return;
      }
      var b := buildings[at];
      ghost var before := placed;
      var room;
      placed, room := Place(w, chosen, b, placed);
      if Placeable(w, chosen, b) {
        PlacedAllMore(w, chosen, buildings, before, n, b);
      }
      if !room {
        Stopped(w, chosen, buildings, before, n, b);
        return;
      }
      NamedMore(w, chosen, buildings, n, b);
    }
    assert chosen.buildingIds[..|chosen.buildingIds|] == chosen.buildingIds;
    ok := true;
  }

  lemma NamedMore(w: World, chosen: ReceiverSet, buildings: seq<Building>, n: nat, b: Building)
    requires n < |chosen.buildingIds| && b in buildings && b.id == chosen.buildingIds[n] && Placeable(w, chosen, b)
    requires AllPlaceable(w, chosen, buildings, chosen.buildingIds[..n])
    ensures AllPlaceable(w, chosen, buildings, chosen.buildingIds[..n + 1])
  {
    forall id | id in chosen.buildingIds[..n + 1]
      ensures Named(w, chosen, buildings, id)
    {
      OneMoreId(chosen.buildingIds, n, id);
    }
  }

  lemma Stopped(w: World, chosen: ReceiverSet, buildings: seq<Building>, before: seq<Placed>, n: nat, b: Building)
    requires UniqueIds(buildings) && n < |chosen.buildingIds| && b in buildings && b.id == chosen.buildingIds[n]
    requires Placeable(w, chosen, b) ==> |before| + |BuildingItems(w, chosen, b)| > MAX_FACADE_RECEIVERS
    requires Placeable(w, chosen, b) ==> PlacedAll(w, chosen, buildings, chosen.buildingIds[..n + 1], before + BuildingItems(w, chosen, b))
    ensures !(AllPlaceable(w, chosen, buildings, chosen.buildingIds) && Fits(w, chosen, buildings))
  {
    if Placeable(w, chosen, b) {
      TooMany(w, chosen, buildings, before + BuildingItems(w, chosen, b), n + 1);
    } else if Named(w, chosen, buildings, b.id) {
      var c :| c in buildings && c.id == b.id && Placeable(w, chosen, c);
      SameBuilding(buildings, b, c);
    }
  }

  lemma MaskIs(w: World, buildings: seq<Building>, footprints: seq<Part>, p: Point)
    requires forall f :: f in footprints <==> IsFootprint(w, buildings, f)
    ensures InAny(p, footprints, w.near) <==> Masked(w, buildings, p)
  {}

  /** The receivers whose probe lies in no footprint, in their order. */
  method Unmasked(w: World, placed: seq<Placed>, footprints: seq<Part>) returns (kept: seq<Placed>)
    requires DistinctKeys(placed)
    ensures DistinctKeys(kept) && |kept| <= |placed|
    ensures forall x :: x in kept <==> x in placed && !InAny(x.probe, footprints, w.near)
  {
    var probes := seq(|placed|, i requires 0 <= i < |placed| => placed[i].probe);
    var masked := MaskPointsInFootprints(probes, footprints, w.near, w.squareRoot);
    kept := [];
    for i := 0 to |placed|
      invariant |kept| <= i && DistinctKeys(kept)
      invariant forall x :: x in kept <==> x in placed[..i] && !InAny(x.probe, footprints, w.near)
    {
      assert placed[..i + 1] == placed[..i] + [placed[i]];
      if !masked[i] {
        forall j | 0 <= j < |kept|
          ensures kept[j].key != placed[i].key
        {
          assert kept[j] in placed[..i];
        }
        kept := kept + [placed[i]];
      }
    }
    assert placed[..|placed|] == placed;
  }

  // ---- order does not show ----

  /** What Generate reads of a building: its canonical footprint, and the rest. */
  datatype Read = Read(form: Option<seq<Part>>, rest: Building)

  function AsRead(w: World, b: Building): Read { Read(w.form(b.polygons), Bare(b)) }

  function AllRead(w: World, s: seq<Building>): seq<Read> {
    seq(|s|, i requires 0 <= i < |s| => AsRead(w, s[i]))
  }

  /** The same selection in any order, and buildings that are read alike, in any order. */
  ghost predicate ReadSame(w: World, a: ReceiverSet, b: ReceiverSet, first: seq<Building>, second: seq<Building>) {
    && a.rule == b.rule && a.spacing == b.spacing && a.courtyard == b.courtyard
    && multiset(a.buildingIds) == multiset(b.buildingIds) && multiset(AllRead(w, first)) == multiset(AllRead(w, second))
  }

  lemma SwappedInput(w: World, a: ReceiverSet, b: ReceiverSet, first: seq<Building>, second: seq<Building>)
    requires ReadSame(w, a, b, first, second)
    ensures ReadSame(w, b, a, second, first)
  {}

  ghost predicate Distinct<T>(s: seq<T>) { forall i, j :: 0 <= i < j < |s| ==> s[i] != s[j] }

  lemma {:induction false} DistinctOnce<T>(s: seq<T>, x: T)
    requires Distinct(s)
    ensures multiset(s)[x] <= 1
    decreases |s|
  {
    if s != [] {
      var front := s[..|s| - 1];
      assert s == front + [s[|s| - 1]];
      DistinctOnce(front, x);
      assert forall i :: 0 <= i < |front| ==> front[i] == s[i] && s[i] != s[|s| - 1];
      assert s[|s| - 1] !in front;
    }
  }

  lemma TwiceCounted<T>(s: seq<T>, i: nat, j: nat)
    requires i < j < |s| && s[i] == s[j]
    ensures multiset(s)[s[i]] >= 2
  {
    assert s == s[..j] + s[j..];
    assert s[..j][i] == s[i] && s[j..][0] == s[j];
    assert s[i] in s[..j] && s[j] in s[j..];
  }

  lemma DistinctPermutes<T>(s: seq<T>, t: seq<T>)
    requires Distinct(s) && multiset(s) == multiset(t)
    ensures Distinct(t)
  {
    forall i, j | 0 <= i < j < |t|
      ensures t[i] != t[j]
    {
      if t[i] == t[j] {
        TwiceCounted(t, i, j);
        DistinctOnce(s, t[i]);
      }
    }
  }

  function IdOf(r: Read): nat { r.rest.id }

  lemma UniquePermutes(w: World, first: seq<Building>, second: seq<Building>)
    requires UniqueIds(first) && multiset(AllRead(w, first)) == multiset(AllRead(w, second))
    ensures UniqueIds(second)
  {
    var f, g := Mapped(IdOf, AllRead(w, first)), Mapped(IdOf, AllRead(w, second));
    MappedPermutes(IdOf, AllRead(w, first), AllRead(w, second));
    DistinctPermutes(f, g);
    forall i, j | 0 <= i < j < |second|
      ensures second[i].id != second[j].id
    {
      assert g[i] != g[j];
    }
  }

  lemma SameIds(a: seq<nat>, b: seq<nat>, id: nat)
    requires multiset(a) == multiset(b)
    ensures id in a <==> id in b
  {
    assert id in a <==> id in multiset(a);
    assert id in b <==> id in multiset(b);
  }

  /** Each building has a counterpart that is read alike. */
  lemma Counterpart(w: World, first: seq<Building>, second: seq<Building>, b: Building) returns (c: Building)
    requires multiset(AllRead(w, first)) == multiset(AllRead(w, second)) && b in first
    ensures c in second && AsRead(w, c) == AsRead(w, b)
  {
    var i :| 0 <= i < |first| && first[i] == b;
    assert AllRead(w, first)[i] == AsRead(w, b);
    assert AsRead(w, b) in multiset(AllRead(w, first));
    assert AsRead(w, b) in AllRead(w, second);
    var j :| 0 <= j < |second| && AllRead(w, second)[j] == AsRead(w, b);
    c := second[j];
  }

  lemma ReadAlike(w: World, a: ReceiverSet, b: ReceiverSet, first: seq<Building>, second: seq<Building>, x: Building, y: Building)
    requires ReadSame(w, a, b, first, second) && b.Valid() && AsRead(w, x) == AsRead(w, y) && Placeable(w, a, x)
    ensures y.id == x.id && Placeable(w, b, y) && BuildingItems(w, b, y) == BuildingItems(w, a, x)
  {
    assert Bare(x).height == Bare(y).height && Bare(x).levels == Bare(y).levels && Bare(x).source == Bare(y).source;
    assert Bare(x).groundFloor == Bare(y).groundFloor && Bare(x).id == Bare(y).id;
    assert StoreyHeights(x) == StoreyHeights(y);
  }

  lemma SamePlaced(w: World, a: ReceiverSet, b: ReceiverSet, first: seq<Building>, second: seq<Building>, x: Placed)
    requires ReadSame(w, a, b, first, second) && b.Valid() && PlacedOn(w, a, first, a.buildingIds, x)
    ensures PlacedOn(w, b, second, b.buildingIds, x)
  {
    var c :| c in first && c.id in a.buildingIds && FromBuilding(w, a, c, x);
    var d := Counterpart(w, first, second, c);
    ReadAlike(w, a, b, first, second, c, d);
    SameIds(a.buildingIds, b.buildingIds, c.id);
    assert FromBuilding(w, b, d, x);
  }

  lemma SameMask(w: World, first: seq<Building>, second: seq<Building>, p: Point)
    requires multiset(AllRead(w, first)) == multiset(AllRead(w, second)) && Masked(w, first, p)
    ensures Masked(w, second, p)
  {
    var f :| IsFootprint(w, first, f) && Interior(p, f, w.near);
    var c :| c in first && PartOfBuilding(w, c, f);
    var d := Counterpart(w, first, second, c);
    assert PartOfBuilding(w, d, f);
    assert IsFootprint(w, second, f);
  }

  lemma SameNamed(w: World, a: ReceiverSet, b: ReceiverSet, first: seq<Building>, second: seq<Building>, id: nat)
    requires ReadSame(w, a, b, first, second) && b.Valid() && Named(w, a, first, id)
    ensures Named(w, b, second, id)
  {
    var c :| c in first && c.id == id && Placeable(w, a, c);
    var d := Counterpart(w, first, second, c);
    ReadAlike(w, a, b, first, second, c, d);
  }

  lemma SameValid(w: World, a: ReceiverSet, b: ReceiverSet, first: seq<Building>, second: seq<Building>)
    requires ReadSame(w, a, b, first, second) && a.Valid()
    ensures b.Valid()
  {
    DistinctPermutes(a.buildingIds, b.buildingIds);
    assert |multiset(a.buildingIds)| == |a.buildingIds|;
    assert |multiset(b.buildingIds)| == |b.buildingIds|;
  }

  lemma SameFits(w: World, a: ReceiverSet, b: ReceiverSet, first: seq<Building>, second: seq<Building>)
    requires ReadSame(w, a, b, first, second) && a.Valid() && b.Valid() && Fits(w, a, first)
    ensures Fits(w, b, second)
  {
    SwappedInput(w, a, b, first, second);
    var s :| PlacedAll(w, a, first, a.buildingIds, s) && |s| <= MAX_FACADE_RECEIVERS;
    forall x
      ensures x in s <==> PlacedOn(w, b, second, b.buildingIds, x)
    {
      if PlacedOn(w, a, first, a.buildingIds, x) {
        SamePlaced(w, a, b, first, second, x);
      }
      if PlacedOn(w, b, second, b.buildingIds, x) {
        SamePlaced(w, b, a, second, first, x);
      }
    }
    assert PlacedAll(w, b, second, b.buildingIds, s);
  }

  lemma SameAccepts(w: World, a: ReceiverSet, b: ReceiverSet, first: seq<Building>, second: seq<Building>)
    requires ReadSame(w, a, b, first, second) && Accepts(w, a, first)
    ensures Accepts(w, b, second)
  {
    SwappedInput(w, a, b, first, second);
    SameValid(w, a, b, first, second);
    UniquePermutes(w, first, second);
    SameFits(w, a, b, first, second);
    forall d | d in second
      ensures w.form(d.polygons).Some?
    {
      var c := Counterpart(w, second, first, d);
      assert AsRead(w, c).form == AsRead(w, d).form;
    }
    forall id | id in b.buildingIds
      ensures Named(w, b, second, id)
    {
      SameIds(a.buildingIds, b.buildingIds, id);
      SameNamed(w, a, b, first, second, id);
    }
  }

  lemma SameBelongs(w: World, a: ReceiverSet, b: ReceiverSet, first: seq<Building>, second: seq<Building>, x: Placed)
    requires ReadSame(w, a, b, first, second) && b.Valid() && Belongs(w, a, first, x)
    ensures Belongs(w, b, second, x)
  {
    SamePlaced(w, a, b, first, second, x);
    if Masked(w, second, x.probe) {
      SameMask(w, second, first, x.probe);
    }
  }

  lemma ReadSameAnswers(w: World, a: ReceiverSet, b: ReceiverSet, first: seq<Building>, second: seq<Building>, r: Outcome, s: Outcome)
    requires ReadSame(w, a, b, first, second) && Answer(w, a, first, r) && Answer(w, b, second, s)
    ensures r == s
  {
    SwappedInput(w, a, b, first, second);
    if Accepts(w, a, first) {
      SameAccepts(w, a, b, first, second);
      forall x
        ensures x in r.receivers <==> x in s.receivers
      {
        if Belongs(w, a, first, x) {
          SameBelongs(w, a, b, first, second, x);
        }
        if Belongs(w, b, second, x) {
          SameBelongs(w, b, a, second, first, x);
        }
      }
      SameMembers(r.receivers, s.receivers);
    } else if Accepts(w, b, second) {
      SameAccepts(w, b, a, second, first);
      assert false;
    }
  }

  // ---- however a footprint is written ----

  /** w's forms are canonicalFootprint's: one it may answer, or its refusal. */
  ghost predicate Canonicalises(w: World) {
    forall polygons :: FormIsRight(w, polygons)
  }

  ghost predicate FormIsRight(w: World, polygons: seq<Part>) {
    && (w.form(polygons).Some? <==> Accepted(polygons))
    && (w.form(polygons).Some? ==> FootprintForm(polygons, w.form(polygons).value))
  }

  /** The building's footprint has one form, however it is written. */
  ghost predicate Settled(b: Building) { AllSteady(b.polygons) && ExteriorsTell(b.polygons) }

  /** The same building, its footprint's rings written otherwise and its holes and
      parts in any order. */
  ghost predicate SameBuildingWritten(x: Building, y: Building) {
    Bare(x) == Bare(y) && exists at :: SameFootprint(x.polygons, y.polygons, at)
  }

  /** Building i of second is building at[i] of first, written otherwise. */
  ghost predicate SameBuildings(first: seq<Building>, second: seq<Building>, at: seq<nat>) {
    && |first| == |second| == |at| && IsOrder(at, |at|)
    && forall i :: 0 <= i < |at| ==> at[i] < |at| && SameBuildingWritten(first[at[i]], second[i])
  }

  lemma WrittenReadsAlike(w: World, x: Building, y: Building)
    requires Canonicalises(w) && Settled(x) && SameBuildingWritten(x, y)
    ensures AsRead(w, x) == AsRead(w, y)
  {
    var at :| SameFootprint(x.polygons, y.polygons, at);
    WritingDoesNotMatter(x.polygons, y.polygons, at);
    assert FormIsRight(w, x.polygons) && FormIsRight(w, y.polygons);
  }

  lemma WrittenReads(w: World, first: seq<Building>, second: seq<Building>, at: seq<nat>)
    requires Canonicalises(w) && SameBuildings(first, second, at) && forall b :: b in first ==> Settled(b)
    ensures multiset(AllRead(w, first)) == multiset(AllRead(w, second))
  {
    forall i | 0 <= i < |at|
      ensures AllRead(w, second)[i] == AllRead(w, first)[at[i]]
    {
      WrittenReadsAlike(w, first[at[i]], second[i]);
    }
    Permutes(AllRead(w, first), AllRead(w, second), at);
  }

  /** The outcome does not depend on the order of the buildings or of their ids,
      nor, where each footprint has one form, on how the footprints are written. */
  lemma OrderDoesNotShow(w: World, a: ReceiverSet, b: ReceiverSet, first: seq<Building>, second: seq<Building>, at: seq<nat>, r: Outcome, s: Outcome)
    requires Canonicalises(w) && SameBuildings(first, second, at) && forall x :: x in first ==> Settled(x)
    requires a.rule == b.rule && a.spacing == b.spacing && a.courtyard == b.courtyard && multiset(a.buildingIds) == multiset(b.buildingIds)
    requires Answer(w, a, first, r) && Answer(w, b, second, s)
    ensures r == s
  {
    WrittenReads(w, first, second, at);
    ReadSameAnswers(w, a, b, first, second, r, s);
  }
}
