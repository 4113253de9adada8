/** The canonical form of a ring: the same for every way of writing it down. */
module CanonicalRings {
  import opened Geometry

  datatype Result = Ok(ring: seq<Point>) | TooFew | NoArea

  type Ring = seq<Point>

  predicate Less(p: Point, q: Point) { p.x < q.x || (p.x == q.x && p.y < q.y) }

  // ---- the canonical form ----

  /** The ring without repeated vertices. */
  function Deduped(ring: Ring): (d: Ring)
    ensures ring != [] ==> d != [] && d[0] == ring[0] && d[|d| - 1] == ring[|ring| - 1]
    ensures |d| <= |ring|
  {
    if ring == [] then []
    else
      var n := |ring| - 1;
      var d := Deduped(ring[..n]);
      if d != [] && d[|d| - 1] == ring[n] then d else d + [ring[n]]
  }

  function Trimmed(d: Ring): Ring {
    if |d| > 1 && d[|d| - 1] == d[0] then Trimmed(d[..|d| - 1]) else d
  }

  /** The vertices once each, without the closing one. */
  function Open(ring: Ring): Ring { Trimmed(Deduped(ring)) }

  function Term(p: Point, q: Point): real { p.x * q.y - q.x * p.y }

  function Shoelace(path: Ring): real {
    if |path| < 2 then 0.0 else Shoelace(path[..|path| - 1]) + Term(path[|path| - 2], path[|path| - 1])
  }

  /** signedRingArea of the closed ring. */
  function Area(open: Ring): real
    requires open != []
  {
    0.5 * Shoelace(open + [open[0]])
  }

  function Reversed(s: Ring): (r: Ring)
    ensures |r| == |s|
    ensures s != [] ==> r[0] == s[|s| - 1] && r[|s| - 1] == s[0]
  {
    if s == [] then [] else [s[|s| - 1]] + Reversed(s[..|s| - 1])
  }

  /** The first of the smallest vertices among the first n. */
  function SmallestUpto(s: Ring, n: nat): (k: nat)
    requires 0 < n <= |s|
    ensures k < n
    ensures forall j :: 0 <= j < n ==> !Less(s[j], s[k])
    ensures forall j :: 0 <= j < k ==> Less(s[k], s[j])
  {
    if n == 1 then 0
    else
      var k := SmallestUpto(s, n - 1);
      if Less(s[n - 1], s[k]) then n - 1 else k
  }

  function Smallest(s: Ring): (k: nat)
    requires s != []
    ensures k < |s|
  {
    SmallestUpto(s, |s|)
  }

  function Rotated(s: Ring, k: nat): Ring
    requires k <= |s|
  {
    s[k..] + s[..k]
  }

  function Oriented(open: Ring, exterior: bool): Ring
    requires open != []
  {
    if (Area(open) > 0.0) != exterior then Reversed(open) else open
  }

  function FromSmallest(s: Ring): Ring
    requires s != []
  {
    Rotated(s, Smallest(s))
  }

  /** canonicalRing. */
  function Canonical(ring: Ring, exterior: bool): Result {
    var open := Open(ring);
    if |open| < 3 then TooFew
    else if Area(open) == 0.0 then NoArea
    else Ok(FromSmallest(Oriented(open, exterior)))
  }

  /** canonicalRing as the source computes it, trimming and reversing in place. */
  method CanonicalRing(ring: Ring, exterior: bool) returns (r: Result)
    ensures r == Canonical(ring, exterior)
  {
    var open: Ring := [];
    for i := 0 to |ring|
      invariant open == Deduped(ring[..i])
    {
      assert ring[..i + 1][..i] == ring[..i];
      if |open| == 0 || open[|open| - 1] != ring[i] {
        open := open + [ring[i]];
      }
    }
    assert ring[..|ring|] == ring;
    while |open| > 1 && open[|open| - 1] == open[0]
      invariant Trimmed(open) == Open(ring)
    {
      open := open[..|open| - 1];
    }
    if |open| < 3 { return TooFew; }
    var area := Area(open);
    if area == 0.0 { return NoArea; }
    if (area > 0.0) != exterior {
      open := Reversed(open);
    }
    var start := 0;
    for i := 1 to |open|
      invariant start == SmallestUpto(open, i)
    {
      if Less(open[i], open[start]) {
        start := i;
      }
    }
    return Ok(open[start..] + open[..start]);
  }

  // ---- area ----

  lemma {:induction false} ShoelaceCons(p: Point, s: Ring)
    requires s != []
    ensures Shoelace([p] + s) == Term(p, s[0]) + Shoelace(s)
  {
    var n := |s| - 1;
    assert ([p] + s)[..n + 1] == [p] + s[..n];
    if n > 0 {
      ShoelaceCons(p, s[..n]);
    }
  }

  lemma TermFlips(p: Point, q: Point)
    ensures Term(p, q) == -Term(q, p)
  {}

  lemma {:induction false} ShoelaceReversed(s: Ring)
    ensures Shoelace(Reversed(s)) == -Shoelace(s)
  {
    if |s| > 1 {
      var rest, last := s[..|s| - 1], s[|s| - 1];
      ShoelaceReversed(rest);
      ShoelaceCons(last, Reversed(rest));
      TermFlips(last, rest[|rest| - 1]);
    }
  }

  /** One vertex moved from the front to the back. */
  function Turned(s: Ring): Ring
    requires s != []
  {
    s[1..] + [s[0]]
  }

  /** The area does not depend on where the ring starts. */
  lemma AreaTurned(s: Ring)
    requires s != []
    ensures Area(Turned(s)) == Area(s)
  {
    var p, t := s[0], s[1..];
    var closed := t + [p];
    if t == [] {
      assert Turned(s) == s;
    } else {
      assert s + [p] == [p] + closed;
      ShoelaceCons(p, closed);
      ShoelaceSnoc(closed, t[0]);
    }
  }

  lemma ShoelaceSnoc(s: Ring, p: Point)
    requires s != []
    ensures Shoelace(s + [p]) == Shoelace(s) + Term(s[|s| - 1], p)
  {
    assert (s + [p])[..|s|] == s;
  }

  lemma {:induction false} ReversedCons(p: Point, s: Ring)
    ensures Reversed([p] + s) == Reversed(s) + [p]
  {
    if s != [] {
      var n := |s| - 1;
      assert ([p] + s)[..n + 1] == [p] + s[..n];
      ReversedCons(p, s[..n]);
      assert Reversed([p] + s) == [s[n]] + (Reversed(s[..n]) + [p]);
    }
  }

  /** Reversing the ring negates its area. */
  lemma AreaReversed(s: Ring)
    requires s != []
    ensures Area(Reversed(s)) == -Area(s)
  {
    var last := s[|s| - 1];
    ReversedCons(last, s);
    assert Reversed(s) + [Reversed(s)[0]] == Reversed([last] + s);
    ShoelaceReversed([last] + s);
    ShoelaceCons(last, s);
    ShoelaceSnoc(s, s[0]);
  }

  lemma {:induction false} ReversedTwice(s: Ring)
    ensures Reversed(Reversed(s)) == s
  {
    if s != [] {
      var n := |s| - 1;
      ReversedTwice(s[..n]);
      ReversedCons(s[n], Reversed(s[..n]));
    }
  }

  lemma {:induction false} ReversedSnoc(s: Ring, p: Point)
    ensures Reversed(s + [p]) == [p] + Reversed(s)
  {
    assert (s + [p])[..|s|] == s;
  }

  // ---- starting anywhere ----

  predicate SmallestAt(s: Ring, i: nat)
    requires i < |s|
  {
    forall j :: 0 <= j < |s| ==> !Less(s[j], s[i])
  }

  /** The ring reads alike from each of its smallest vertices. */
  ghost predicate ReadsAlike(s: Ring) {
    forall i, j :: 0 <= i < |s| && 0 <= j < |s| && SmallestAt(s, i) && SmallestAt(s, j) ==> Rotated(s, i) == Rotated(s, j)
  }

  function Around(n: nat, i: nat, j: nat): (k: nat)
    requires i < n && j < n
    ensures k < n
  {
    if i + j < n then i + j else i + j - n
  }

  lemma RotatedTwice(s: Ring, i: nat, j: nat)
    requires i < |s| && j < |s|
    ensures Rotated(Rotated(s, i), j) == Rotated(s, Around(|s|, i, j))
  {}

  lemma RotatedAt(s: Ring, k: nat, j: nat)
    requires k < |s| && j < |s|
    ensures Rotated(s, k)[j] == s[Around(|s|, k, j)]
  {}

  lemma SmallestRotated(s: Ring, k: nat, i: nat)
    requires k < |s| && i < |s| && SmallestAt(Rotated(s, k), i)
    ensures SmallestAt(s, Around(|s|, k, i))
  {
    RotatedAt(s, k, i);
    forall j | 0 <= j < |s|
      ensures !Less(s[j], s[Around(|s|, k, i)])
    {
      RotatedAt(s, k, if j >= k then j - k else j + |s| - k);
    }
  }

  lemma SmallestStarts(s: Ring, i: nat)
    requires i < |s| && SmallestAt(s, i)
    ensures FromSmallest(Rotated(s, i)) == Rotated(s, i)
  {
    var r := Rotated(s, i);
    forall j | 0 <= j < |r|
      ensures !Less(r[j], r[0])
    {
      RotatedAt(s, i, j);
    }
    assert Smallest(r) == 0;
    assert Rotated(r, 0) == r;
  }

  /** A ring that reads alike still does when it starts elsewhere, and its
      smallest vertex gives the same ring. */
  lemma RotatedAlike(s: Ring, k: nat)
    requires k < |s| && ReadsAlike(s)
    ensures ReadsAlike(Rotated(s, k)) && FromSmallest(Rotated(s, k)) == FromSmallest(s)
  {
    var r := Rotated(s, k);
    forall i | 0 <= i < |r| && SmallestAt(r, i)
      ensures Rotated(r, i) == FromSmallest(s)
    {
      SmallestRotated(s, k, i);
      RotatedTwice(s, k, i);
      assert SmallestAt(s, Smallest(s));
    }
    assert SmallestAt(r, Smallest(r));
  }

  lemma TurnedIsRotated(s: Ring)
    requires s != []
    ensures Turned(s) == Rotated(s, if |s| == 1 then 0 else 1)
    ensures s == Rotated(Turned(s), |s| - 1)
  {}

  /** Starting one vertex later decides neither whether a ring reads alike nor,
      when it does, what it gives. */
  lemma TurnedAlike(s: Ring)
    requires s != []
    ensures ReadsAlike(Turned(s)) <==> ReadsAlike(s)
    ensures ReadsAlike(s) ==> FromSmallest(Turned(s)) == FromSmallest(s)
  {
    TurnedIsRotated(s);
    if ReadsAlike(s) {
      RotatedAlike(s, if |s| == 1 then 0 else 1);
    }
    if ReadsAlike(Turned(s)) {
      RotatedAlike(Turned(s), |s| - 1);
    }
  }

  // ---- the same ring, written otherwise ----

  /** No vertex repeats the one before it, nor the first the last. */
  predicate Clean(s: Ring) {
    && (forall i :: 0 < i < |s| ==> s[i] != s[i - 1])
    && (|s| > 1 ==> s[|s| - 1] != s[0])
  }

  predicate Stepping(s: Ring) { forall i :: 0 < i < |s| ==> s[i] != s[i - 1] }

  lemma {:induction false} DedupedSteps(ring: Ring)
    ensures Stepping(Deduped(ring))
  {
    if ring != [] {
      DedupedSteps(ring[..|ring| - 1]);
    }
  }

  /** Of a stepping ring at most its last vertex is trimmed. */
  lemma TrimOne(d: Ring)
    requires Stepping(d)
    ensures Trimmed(d) == if |d| > 1 && d[|d| - 1] == d[0] then d[..|d| - 1] else d
    ensures Clean(Trimmed(d))
  {
    if |d| > 1 && d[|d| - 1] == d[0] {
      assert d[|d| - 1] != d[|d| - 2];
    }
  }

  lemma {:induction false} StepsUnchanged(s: Ring)
    requires Stepping(s)
    ensures Deduped(s) == s
  {
    if s != [] {
      StepsUnchanged(s[..|s| - 1]);
    }
  }

  lemma OpenClean(ring: Ring)
    ensures Clean(Open(ring))
  {
    DedupedSteps(ring);
    TrimOne(Deduped(ring));
  }

  lemma CleanOpen(s: Ring)
    requires Clean(s)
    ensures Open(s) == s
  {
    StepsUnchanged(s);
    TrimOne(s);
  }

  lemma {:induction false} DedupedCons(p: Point, s: Ring)
    ensures Deduped([p] + s) == if s != [] && s[0] == p then Deduped(s) else [p] + Deduped(s)
  {
    if s != [] {
      var n := |s| - 1;
      assert ([p] + s)[..n + 1] == [p] + s[..n];
      DedupedCons(p, s[..n]);
    }
  }

  lemma DedupedSnoc(s: Ring, p: Point)
    ensures Deduped(s + [p]) == if s != [] && s[|s| - 1] == p then Deduped(s) else Deduped(s) + [p]
  {
    assert (s + [p])[..|s|] == s;
  }

  /** Repeating a vertex, or closing the ring, changes nothing. */
  lemma {:induction false} RepeatOpen(a: Ring, p: Point, b: Ring)
    ensures Deduped(a + [p, p] + b) == Deduped(a + [p] + b)
    decreases |b|
  {
    if b == [] {
      assert a + [p, p] + b == (a + [p]) + [p] && a + [p] + b == a + [p];
      DedupedSnoc(a + [p], p);
    } else {
      var n := |b| - 1;
      RepeatOpen(a, p, b[..n]);
      assert a + [p, p] + b == (a + [p, p] + b[..n]) + [b[n]];
      assert a + [p] + b == (a + [p] + b[..n]) + [b[n]];
      DedupedSnoc(a + [p, p] + b[..n], b[n]);
      DedupedSnoc(a + [p] + b[..n], b[n]);
    }
  }

  lemma CloseOpen(ring: Ring)
    requires ring != []
    ensures Open(ring + [ring[0]]) == Open(ring)
  {
    DedupedSnoc(ring, ring[0]);
    DedupedSteps(ring);
    var d := Deduped(ring);
    if ring[|ring| - 1] != ring[0] {
      assert (d + [ring[0]])[..|d|] == d;
    }
  }

  /** Starting one vertex later leaves the open ring when that vertex repeats the
      first, and turns it otherwise. */
  lemma TurnOpen(ring: Ring)
    requires |ring| > 1
    ensures Open(ring) != []
    ensures Open(Turned(ring)) == if ring[1] == ring[0] then Open(ring) else Turned(Open(ring))
  {
    var p, rest := ring[0], ring[1..];
    assert ring == [p] + rest;
    DedupedCons(p, rest);
    DedupedSnoc(rest, p);
    DedupedSteps(rest);
    TurnDeduped(p, Deduped(rest), rest[0] == p, rest[|rest| - 1] == p);
  }

  /** The same of the deduplicated rest of a ring after its first vertex p. */
  lemma TurnDeduped(p: Point, d: Ring, starts: bool, ends: bool)
    requires d != [] && Stepping(d) && (starts <==> d[0] == p) && (ends <==> d[|d| - 1] == p)
    ensures var before := Trimmed(if starts then d else [p] + d);
            var after := Trimmed(if ends then d else d + [p]);
            before != [] && after == if starts then before else Turned(before)
  {
    if starts {
      TrimOne(d);
      if !ends {
        TrimLast(d, p);
      }
    } else if ends {
      TurnEnds(p, d);
    } else {
      TrimOne([p] + d);
      TrimOne(d + [p]);
      assert Turned([p] + d) == d + [p];
    }
  }

  lemma TrimLast(d: Ring, p: Point)
    requires d != [] && Stepping(d) && d[0] == p && d[|d| - 1] != p
    ensures Trimmed(d + [p]) == Trimmed(d)
  {
    TrimOne(d);
    TrimOne(d + [p]);
    assert (d + [p])[..|d|] == d;
  }

  lemma TurnEnds(p: Point, d: Ring)
    requires d != [] && Stepping(d) && d[0] != p && d[|d| - 1] == p
    ensures Trimmed([p] + d) != [] && Trimmed(d) == Turned(Trimmed([p] + d))
  {
    TrimOne(d);
    TrimOne([p] + d);
    assert ([p] + d)[..|d|] == [p] + d[..|d| - 1];
    assert Turned([p] + d[..|d| - 1]) == d[..|d| - 1] + [p];
  }

  lemma {:induction false} ReverseDeduped(ring: Ring)
    ensures Deduped(Reversed(ring)) == Reversed(Deduped(ring))
  {
    if ring != [] {
      var n := |ring| - 1;
      ReverseDeduped(ring[..n]);
      DedupedCons(ring[n], Reversed(ring[..n]));
      var d := Deduped(ring[..n]);
      if n > 0 && ring[n - 1] != ring[n] {
        ReversedSnoc(d, ring[n]);
      }
    }
  }

  /** Reversing the ring reverses the open one, up to a turn. */
  lemma ReverseOpen(ring: Ring)
    ensures Open(Reversed(ring)) == Reversed(Open(ring))
         || (Open(Reversed(ring)) != [] && Turned(Open(Reversed(ring))) == Reversed(Open(ring)))
  {
    var d := Deduped(ring);
    ReverseDeduped(ring);
    DedupedSteps(ring);
    DedupedSteps(Reversed(ring));
    TrimOne(d);
    TrimOne(Reversed(d));
    if |d| > 1 && d[|d| - 1] == d[0] {
      ReverseClosed(d, d[0], d[1..|d| - 1]);
    }
  }

  lemma ReverseClosed(d: Ring, p: Point, m: Ring)
    requires d == [p] + m + [p]
    ensures Turned(Reversed(d)[..|d| - 1]) == Reversed(d[..|d| - 1])
  {
    ReversedSnoc([p] + m, p);
    ReversedCons(p, m);
    assert d == ([p] + m) + [p] && d[..|d| - 1] == [p] + m;
    assert Reversed(d)[..|d| - 1] == [p] + Reversed(m);
    assert Turned([p] + Reversed(m)) == Reversed(m) + [p];
  }

  // ---- one canonical form ----

  /** The canonical form of an open ring. */
  function Form(open: Ring, exterior: bool): Result {
    if |open| < 3 then TooFew
    else if Area(open) == 0.0 then NoArea
    else Ok(FromSmallest(Oriented(open, exterior)))
  }

  /** An open ring that is refused, or reads alike from each of its smallest
      vertices once it is oriented. */
  ghost predicate Steady(open: Ring, exterior: bool) {
    |open| < 3 || Area(open) == 0.0 || ReadsAlike(Oriented(open, exterior))
  }

  lemma {:induction false} ReversedAt(s: Ring, k: nat)
    requires k < |s|
    ensures Reversed(s)[k] == s[|s| - 1 - k]
  {
    if k > 0 {
      ReversedAt(s[..|s| - 1], k - 1);
    }
  }

  /** A turn before a reversal is a turn back after it. */
  lemma TurnedReversed(s: Ring)
    requires s != []
    ensures Turned(Reversed(Turned(s))) == Reversed(s)
  {
    var p, t := s[0], s[1..];
    assert s == [p] + t;
    ReversedSnoc(t, p);
    ReversedCons(p, t);
    assert Turned([p] + Reversed(t)) == Reversed(t) + [p];
  }

  lemma FormTurned(s: Ring, exterior: bool)
    requires s != []
    ensures Steady(Turned(s), exterior) <==> Steady(s, exterior)
    ensures Steady(s, exterior) ==> Form(Turned(s), exterior) == Form(s, exterior)
  {
    AreaTurned(s);
    if (Area(s) > 0.0) != exterior {
      TurnedReversed(s);
      TurnedAlike(Reversed(Turned(s)));
    } else {
      TurnedAlike(s);
    }
  }

  lemma FormReversed(s: Ring, exterior: bool)
    ensures Steady(Reversed(s), exterior) <==> Steady(s, exterior)
    ensures Form(Reversed(s), exterior) == Form(s, exterior)
  {
    if s != [] {
      AreaReversed(s);
      ReversedTwice(s);
    }
  }

  /** Ways of writing a ring differently. */
  datatype Edit = Start(later: nat) | Reverse | Close | Repeat(at: nat)

  function StartedLater(ring: Ring, k: nat): Ring
    decreases k
  {
    if k == 0 || ring == [] then ring else StartedLater(Turned(ring), k - 1)
  }

  function Rewritten(ring: Ring, e: Edit): Ring {
    match e
    case Start(k) => StartedLater(ring, k)
    case Reverse => Reversed(ring)
    case Close => if ring == [] then [] else ring + [ring[0]]
    case Repeat(i) => if i < |ring| then ring[..i] + [ring[i], ring[i]] + ring[i + 1..] else ring
  }

  lemma TurnKeeps(ring: Ring, exterior: bool)
    requires ring != [] && Steady(Open(ring), exterior)
    ensures Steady(Open(Turned(ring)), exterior) && Canonical(Turned(ring), exterior) == Canonical(ring, exterior)
  {
    if |ring| == 1 {
      assert Turned(ring) == ring;
    } else {
      TurnOpen(ring);
      FormTurned(Open(ring), exterior);
    }
  }

  lemma {:induction false} StartKeeps(ring: Ring, k: nat, exterior: bool)
    requires Steady(Open(ring), exterior)
    ensures Steady(Open(StartedLater(ring, k)), exterior) && Canonical(StartedLater(ring, k), exterior) == Canonical(ring, exterior)
    decreases k
  {
    if k > 0 && ring != [] {
      TurnKeeps(ring, exterior);
      StartKeeps(Turned(ring), k - 1, exterior);
    }
  }

  lemma ReverseKeeps(ring: Ring, exterior: bool)
    requires Steady(Open(ring), exterior)
    ensures Steady(Open(Reversed(ring)), exterior) && Canonical(Reversed(ring), exterior) == Canonical(ring, exterior)
  {
    var s := Open(Reversed(ring));
    ReverseOpen(ring);
    FormReversed(Open(ring), exterior);
    if s != Reversed(Open(ring)) {
      FormTurned(s, exterior);
    }
  }

  /** Starting elsewhere, going the other way, closing the ring or repeating a
      vertex gives the same canonical ring. */
  lemma EditKeeps(ring: Ring, e: Edit, exterior: bool)
    requires Steady(Open(ring), exterior)
    ensures Steady(Open(Rewritten(ring, e)), exterior) && Canonical(Rewritten(ring, e), exterior) == Canonical(ring, exterior)
  {
    match e
    case Start(k) => StartKeeps(ring, k, exterior);
    case Reverse => ReverseKeeps(ring, exterior);
    case Close => SameOpen(ring, Rewritten(ring, Close), exterior);
    case Repeat(i) => SameOpen(ring, Rewritten(ring, Repeat(i)), exterior);
  }

  lemma SameOpen(ring: Ring, other: Ring, exterior: bool)
    requires other == Rewritten(ring, Close) || exists i: nat :: other == Rewritten(ring, Repeat(i))
    ensures Open(other) == Open(ring) && Canonical(other, exterior) == Canonical(ring, exterior)
  {
    if other == Rewritten(ring, Close) {
      if ring != [] {
        CloseOpen(ring);
      }
    } else {
      var i: nat :| other == Rewritten(ring, Repeat(i));
      if i < |ring| {
        RepeatAt(ring, i);
      }
    }
  }

  lemma RepeatAt(ring: Ring, i: nat)
    requires i < |ring|
    ensures Open(ring[..i] + [ring[i], ring[i]] + ring[i + 1..]) == Open(ring)
  {
    RepeatOpen(ring[..i], ring[i], ring[i + 1..]);
    assert ring == ring[..i] + [ring[i]] + ring[i + 1..];
  }

  function AllRewritten(ring: Ring, edits: seq<Edit>): Ring {
    if edits == [] then ring else Rewritten(AllRewritten(ring, edits[..|edits| - 1]), edits[|edits| - 1])
  }

  /** However a steady ring is written, its canonical form is one. */
  lemma {:induction false} SteadyKeeps(ring: Ring, edits: seq<Edit>, exterior: bool)
    requires Steady(Open(ring), exterior)
    ensures Steady(Open(AllRewritten(ring, edits)), exterior) && Canonical(AllRewritten(ring, edits), exterior) == Canonical(ring, exterior)
  {
    if edits != [] {
      SteadyKeeps(ring, edits[..|edits| - 1], exterior);
      EditKeeps(AllRewritten(ring, edits[..|edits| - 1]), edits[|edits| - 1], exterior);
    }
  }

  // ---- every start is met ----

  lemma StartedIsRotated(ring: Ring, k: nat)
    requires k < |ring|
    ensures StartedLater(ring, k) == Rotated(ring, k)
  {
    StartedFrom(ring, 0, k);
    assert Rotated(ring, 0) == ring;
  }

  lemma {:induction false} StartedFrom(ring: Ring, i: nat, k: nat)
    requires i + k < |ring|
    ensures StartedLater(Rotated(ring, i), k) == Rotated(ring, i + k)
    decreases k
  {
    if k > 0 {
      assert Turned(Rotated(ring, i)) == Rotated(ring, i + 1);
      StartedFrom(ring, i + 1, k - 1);
    }
  }

  lemma {:induction false} DedupedGrows(ring: Ring, k: nat)
    requires k <= |ring|
    ensures |Deduped(ring[..k])| <= |Deduped(ring)|
    decreases |ring|
  {
    if k < |ring| {
      DedupedGrows(ring[..|ring| - 1], k);
      assert ring[..|ring| - 1][..k] == ring[..k];
    } else {
      assert ring[..k] == ring;
    }
  }

  /** How many vertices of the open ring come before vertex k of the ring. */
  function Passed(ring: Ring, k: nat): nat
    requires k < |ring|
  {
    |Deduped(ring[..k + 1])| - 1
  }

  lemma PassedNext(ring: Ring, k: nat)
    requires 0 < k < |ring|
    ensures Passed(ring, k) == if ring[k] == ring[k - 1] then Passed(ring, k - 1) else Passed(ring, k - 1) + 1
  {
    assert ring[..k + 1] == ring[..k] + [ring[k]];
    DedupedSnoc(ring[..k], ring[k]);
  }

  lemma PassedWithin(ring: Ring, k: nat)
    requires k < |ring|
    ensures Passed(ring, k) <= |Open(ring)|
  {
    DedupedGrows(ring, k + 1);
    DedupedSteps(ring);
    TrimOne(Deduped(ring));
  }

  lemma TurnedNext(s: Ring, c: nat)
    requires c < |s|
    ensures Turned(Rotated(s, c)) == Rotated(s, c + 1)
  {}

  /** The ring started at vertex k opens to the open ring started at that vertex. */
  lemma {:induction false} OpenStarted(ring: Ring, k: nat)
    requires k < |ring|
    ensures Passed(ring, k) <= |Open(ring)| && Open(Rotated(ring, k)) == Rotated(Open(ring), Passed(ring, k))
    decreases k
  {
    PassedWithin(ring, k);
    if k == 0 {
      FirstPassed(ring);
    } else {
      OpenStarted(ring, k - 1);
      PassedNext(ring, k);
      OpenNext(ring, Open(ring), k, Passed(ring, k - 1));
    }
  }

  lemma FirstPassed(ring: Ring)
    requires ring != []
    ensures Passed(ring, 0) == 0 && Rotated(ring, 0) == ring && Rotated(Open(ring), 0) == Open(ring)
  {
    assert ring[..1] == [ring[0]];
  }

  lemma OpenNext(ring: Ring, open: Ring, k: nat, c: nat)
    requires 0 < k < |ring| && c <= |open| && Open(Rotated(ring, k - 1)) == Rotated(open, c)
    requires ring[k] != ring[k - 1] ==> c < |open|
    ensures Open(Rotated(ring, k)) == if ring[k] == ring[k - 1] then Rotated(open, c) else Rotated(open, c + 1)
  {
    var before := Rotated(ring, k - 1);
    assert before[0] == ring[k - 1] && before[1] == ring[k];
    assert Turned(before) == Rotated(ring, k);
    TurnOpen(before);
    if ring[k] != ring[k - 1] {
      TurnedNext(open, c);
    }
  }

  lemma {:induction false} FindStart(ring: Ring, j: nat) returns (k: nat)
    requires j < |Deduped(ring)|
    ensures k < |ring| && Passed(ring, k) == j
  {
    var n := |ring| - 1;
    if j < |Deduped(ring[..n])| {
      k := FindStart(ring[..n], j);
      assert ring[..n][..k + 1] == ring[..k + 1];
    } else {
      k := n;
      assert ring[..n + 1] == ring;
    }
  }

  /** Each start of the open ring is a start of the ring. */
  lemma StartOf(ring: Ring, j: nat) returns (k: nat)
    requires j < |Open(ring)|
    ensures Open(StartedLater(ring, k)) == Rotated(Open(ring), j)
  {
    DedupedSteps(ring);
    TrimOne(Deduped(ring));
    k := FindStart(ring, j);
    OpenStarted(ring, k);
    StartedIsRotated(ring, k);
  }

  lemma {:induction false} AreaRotated(s: Ring, k: nat)
    requires k < |s|
    ensures Area(Rotated(s, k)) == Area(s)
  {
    if k == 0 {
      assert Rotated(s, 0) == s;
    } else {
      AreaRotated(s, k - 1);
      AreaTurned(Rotated(s, k - 1));
      assert Turned(Rotated(s, k - 1)) == Rotated(s, k);
    }
  }

  lemma ReversedSplit(a: Ring, b: Ring)
    ensures Reversed(a + b) == Reversed(b) + Reversed(a)
    decreases |b|
  {
    if b == [] {
      assert a + b == a;
    } else {
      var n := |b| - 1;
      assert a + b == (a + b[..n]) + [b[n]] && b == b[..n] + [b[n]];
      ReversedSnoc(a + b[..n], b[n]);
      ReversedSplit(a, b[..n]);
    }
  }

  lemma ReversedRotated(s: Ring, i: nat)
    requires i < |s|
    ensures Reversed(Rotated(s, if i == 0 then 0 else |s| - i)) == Rotated(Reversed(s), i)
  {
    var m := |s| - i;
    ReversedSplit(s[..m], s[m..]);
    ReversedSplit(s[m..], s[..m]);
    assert s == s[..m] + s[m..];
    if i == 0 {
      assert Rotated(s, 0) == s && Rotated(Reversed(s), 0) == Reversed(s);
    }
  }

  /** Each start of the oriented ring is a start of the ring. */
  lemma OrientedStart(ring: Ring, i: nat, exterior: bool) returns (k: nat)
    requires |Open(ring)| >= 3 && Area(Open(ring)) != 0.0 && i < |Oriented(Open(ring), exterior)|
    ensures Canonical(StartedLater(ring, k), exterior) == Ok(FromSmallest(Rotated(Oriented(Open(ring), exterior), i)))
  {
    var open := Open(ring);
    if (Area(open) > 0.0) != exterior {
      var j := if i == 0 then 0 else |open| - i;
      k := StartOf(ring, j);
      AreaRotated(open, j);
      ReversedRotated(open, i);
    } else {
      k := StartOf(ring, i);
      AreaRotated(open, i);
    }
  }

  /** A ring that is not steady has a start with another canonical ring. */
  lemma UnsteadyStart(ring: Ring, exterior: bool) returns (k: nat)
    requires !Steady(Open(ring), exterior)
    ensures Canonical(ring, exterior).Ok? && Canonical(StartedLater(ring, k), exterior).Ok?
    ensures Canonical(StartedLater(ring, k), exterior) != Canonical(ring, exterior)
  {
    var s := Oriented(Open(ring), exterior);
    var i, j :| 0 <= i < |s| && 0 <= j < |s| && SmallestAt(s, i) && SmallestAt(s, j) && Rotated(s, i) != Rotated(s, j);
    SmallestStarts(s, i);
    SmallestStarts(s, j);
    k := OrientedStart(ring, if Rotated(s, i) != FromSmallest(s) then i else j, exterior);
  }

  predicate StartAgrees(ring: Ring, k: nat, exterior: bool) {
    Canonical(StartedLater(ring, k), exterior) == Canonical(ring, exterior)
  }

  predicate WritingAgrees(ring: Ring, edits: seq<Edit>, exterior: bool) {
    Canonical(AllRewritten(ring, edits), exterior) == Canonical(ring, exterior)
  }

  lemma StartsTell(ring: Ring, exterior: bool)
    requires forall k :: StartAgrees(ring, k, exterior)
    ensures Steady(Open(ring), exterior)
  {
    if |Open(ring)| >= 3 && Area(Open(ring)) != 0.0 {
      var s := Oriented(Open(ring), exterior);
      forall i | 0 <= i < |s| && SmallestAt(s, i)
        ensures Ok(Rotated(s, i)) == Canonical(ring, exterior)
      {
        var k := OrientedStart(ring, i, exterior);
        assert StartAgrees(ring, k, exterior);
        SmallestStarts(s, i);
      }
    }
  }

  /** Every start of a ring gives one canonical ring exactly when the ring is
      refused, or reads alike from each smallest vertex once open and oriented. */
  lemma AnyStartExactly(ring: Ring, exterior: bool)
    ensures (forall k :: StartAgrees(ring, k, exterior)) <==> Steady(Open(ring), exterior)
  {
    forall k | Steady(Open(ring), exterior)
      ensures StartAgrees(ring, k, exterior)
    {
      StartKeeps(ring, k, exterior);
    }
    if forall k :: StartAgrees(ring, k, exterior) {
      StartsTell(ring, exterior);
    }
  }

  lemma StartIsEdit(ring: Ring, k: nat)
    ensures AllRewritten(ring, [Start(k)]) == StartedLater(ring, k)
  {
    var edits := [Start(k)];
    assert edits[..|edits| - 1] == [];
    assert AllRewritten(ring, edits) == Rewritten(AllRewritten(ring, []), Start(k));
  }

  /** So does every other way of writing it: a ring has one canonical form,
      however it is written, exactly when it is steady. */
  lemma WritingExactly(ring: Ring, exterior: bool)
    ensures (forall edits :: WritingAgrees(ring, edits, exterior)) <==> Steady(Open(ring), exterior)
  {
    forall edits | Steady(Open(ring), exterior)
      ensures WritingAgrees(ring, edits, exterior)
    {
      SteadyKeeps(ring, edits, exterior);
    }
    if forall edits :: WritingAgrees(ring, edits, exterior) {
      forall k
        ensures StartAgrees(ring, k, exterior)
      {
        StartIsEdit(ring, k);
        assert WritingAgrees(ring, [Start(k)], exterior);
      }
      StartsTell(ring, exterior);
    }
  }

  /** A ring whose smallest vertex occurs once is steady. */
  lemma OnceIsSteady(ring: Ring, exterior: bool)
    requires forall i, j :: 0 <= i < |Open(ring)| && 0 <= j < |Open(ring)| && SmallestAt(Open(ring), i) && SmallestAt(Open(ring), j) ==> i == j
    ensures Steady(Open(ring), exterior)
  {
    var open := Open(ring);
    if |open| >= 3 && (Area(open) > 0.0) != exterior {
      forall i | 0 <= i < |open| && SmallestAt(Reversed(open), i)
        ensures SmallestAt(open, |open| - 1 - i)
      {
        ReversedAt(open, i);
        forall j | 0 <= j < |open|
          ensures !Less(open[j], open[|open| - 1 - i])
        {
          ReversedAt(open, |open| - 1 - j);
        }
      }
    }
  }

  /** A ring that touches itself at its smallest vertex: two of its starts give
      two canonical rings. */
  lemma TwoForms(ring: Ring)
    requires ring == [Point(0.0, 0.0), Point(2.0, 0.0), Point(2.0, 1.0), Point(0.0, 0.0), Point(1.0, 2.0), Point(0.0, 3.0)]
    ensures Canonical(ring, true).Ok? && Canonical(StartedLater(ring, 3), true).Ok?
    ensures Canonical(ring, true) != Canonical(StartedLater(ring, 3), true)
  {
    assert Clean(ring);
    CleanOpen(ring);
    AreaOfSix(ring[0], ring[1], ring[2], ring[3], ring[4], ring[5]);
    assert ring == [ring[0], ring[1], ring[2], ring[3], ring[4], ring[5]];
    assert Area(ring) == 2.5;
    StartedIsRotated(ring, 3);
    AreaRotated(ring, 3);
    CleanRotated(ring, 3);
    CleanOpen(Rotated(ring, 3));
    SmallestStarts(ring, 0);
    SmallestStarts(ring, 3);
    assert Rotated(ring, 0) == ring;
    assert Rotated(ring, 3)[1] == ring[4];
  }

  lemma AreaOfSix(a: Point, b: Point, c: Point, d: Point, e: Point, f: Point)
    ensures Area([a, b, c, d, e, f]) == 0.5 * (Term(a, b) + Term(b, c) + Term(c, d) + Term(d, e) + Term(e, f) + Term(f, a))
  {
    ShoelaceSeven(a, b, c, d, e, f, a);
  }

  lemma ShoelaceFour(a: Point, b: Point, c: Point, d: Point)
    ensures Shoelace([a, b, c, d]) == Term(a, b) + Term(b, c) + Term(c, d)
  {
    assert [a, b] == [a] + [b] && [a, b, c] == [a, b] + [c] && [a, b, c, d] == [a, b, c] + [d];
    ShoelaceSnoc([a], b);
    ShoelaceSnoc([a, b], c);
    ShoelaceSnoc([a, b, c], d);
  }

  lemma ShoelaceSeven(a: Point, b: Point, c: Point, d: Point, e: Point, f: Point, g: Point)
    ensures Shoelace([a, b, c, d, e, f] + [g]) == Term(a, b) + Term(b, c) + Term(c, d) + Term(d, e) + Term(e, f) + Term(f, g)
  {
    ShoelaceFour(a, b, c, d);
    assert [a, b, c, d, e] == [a, b, c, d] + [e] && [a, b, c, d, e, f] == [a, b, c, d, e] + [f];
    ShoelaceSnoc([a, b, c, d], e);
    ShoelaceSnoc([a, b, c, d, e], f);
    ShoelaceSnoc([a, b, c, d, e, f], g);
  }

  // ---- twice is once ----

  lemma CleanRotated(s: Ring, k: nat)
    requires Clean(s) && k < |s|
    ensures Clean(Rotated(s, k))
  {
    var r := Rotated(s, k);
    forall i | 0 < i < |r|
      ensures r[i] != r[i - 1]
    {
      var j := if k + i < |s| then k + i else k + i - |s|;
      assert r[i] == s[j] && r[i - 1] == s[if j == 0 then |s| - 1 else j - 1];
    }
  }

  lemma CleanReversed(s: Ring)
    requires Clean(s)
    ensures Clean(Reversed(s))
  {
    forall i | 0 < i < |s|
      ensures Reversed(s)[i] != Reversed(s)[i - 1]
    {
      ReversedAt(s, i);
      ReversedAt(s, i - 1);
    }
  }

  lemma SmallestFirst(s: Ring)
    requires s != []
    ensures Smallest(FromSmallest(s)) == 0
  {
    var k, r := Smallest(s), FromSmallest(s);
    assert r[0] == s[k];
    forall j | 0 <= j < |r|
      ensures !Less(r[j], r[0])
    {
      assert r[j] == s[if k + j < |s| then k + j else k + j - |s|];
    }
  }

  /** The canonical form of a canonical ring is itself, for every ring. */
  lemma CanonicalTwice(ring: Ring, exterior: bool)
    requires Canonical(ring, exterior).Ok?
    ensures Canonical(Canonical(ring, exterior).ring, exterior) == Canonical(ring, exterior)
  {
    var open := Open(ring);
    var s := Oriented(open, exterior);
    var r := FromSmallest(s);
    OpenClean(ring);
    CleanReversed(open);
    AreaReversed(open);
    CleanRotated(s, Smallest(s));
    CleanOpen(r);
    AreaRotated(s, Smallest(s));
    SmallestFirst(s);
    assert Rotated(r, 0) == r;
  }

  // ---- what the canonical ring is ----

  /** The fan of triangles from the first vertex, in twice their signed areas. */
  function Fan(s: Ring, n: nat): real
    requires n <= |s|
  {
    if n < 3 then 0.0 else Fan(s, n - 1) + Cross(s[0], s[n - 2], s[n - 1])
  }

  lemma CrossIsTerms(a: Point, b: Point, c: Point)
    ensures Cross(a, b, c) == Term(a, b) + Term(b, c) + Term(c, a)
  {}

  lemma {:induction false} FanUpto(s: Ring, n: nat)
    requires 2 <= n <= |s|
    ensures Shoelace(s[..n] + [s[0]]) == Fan(s, n)
  {
    var p, q := s[0], s[n - 1];
    ShoelaceSnoc(s[..n], p);
    TermFlips(p, q);
    if n == 2 {
      assert s[..2] == [p] + [q];
      ShoelaceSnoc([p], q);
    } else {
      FanUpto(s, n - 1);
      assert s[..n] == s[..n - 1] + [q];
      ShoelaceSnoc(s[..n - 1], q);
      ShoelaceSnoc(s[..n - 1], p);
      CrossIsTerms(p, s[n - 2], q);
      TermFlips(p, s[n - 2]);
    }
  }

  /** The area is half the sum of a fan of triangles, positive going left. */
  lemma AreaIsFan(s: Ring)
    requires |s| >= 2
    ensures 2.0 * Area(s) == Fan(s, |s|)
  {
    FanUpto(s, |s|);
    assert s[..|s|] == s;
  }

  /** The vertex j places from vertex k, going round onward or back. */
  function Place(n: nat, k: nat, j: nat, onward: bool): nat
    requires k < n && j < n
    ensures Place(n, k, j, onward) < n
  {
    if onward then (if k + j < n then k + j else k + j - n) else (if j <= k then k - j else k + n - j)
  }

  /** r runs once round o, from vertex k, onward or back. */
  ghost predicate RunsRound(r: Ring, o: Ring, k: nat, onward: bool) {
    |r| == |o| && k < |o| && forall j :: 0 <= j < |r| ==> r[j] == o[Place(|o|, k, j, onward)]
  }

  lemma RotatedRuns(s: Ring, k: nat)
    requires k < |s|
    ensures RunsRound(Rotated(s, k), s, k, true)
  {
    forall j | 0 <= j < |s|
      ensures Rotated(s, k)[j] == s[Place(|s|, k, j, true)]
    {
      RotatedAt(s, k, j);
    }
  }

  lemma ReversedPlace(s: Ring, k: nat, j: nat)
    requires k < |s| && j < |s|
    ensures Rotated(Reversed(s), k)[j] == s[Place(|s|, |s| - 1 - k, j, false)]
  {
    RotatedAt(Reversed(s), k, j);
    ReversedAt(s, Around(|s|, k, j));
    assert |s| - 1 - Around(|s|, k, j) == Place(|s|, |s| - 1 - k, j, false);
  }

  lemma ReversedRuns(s: Ring, r: Ring, k: nat)
    requires k < |s| && r == Rotated(Reversed(s), k)
    ensures RunsRound(r, s, |s| - 1 - k, false)
  {
    forall j | 0 <= j < |s|
      ensures r[j] == s[Place(|s|, |s| - 1 - k, j, false)]
    {
      ReversedPlace(s, k, j);
    }
  }

  predicate StartsLeast(r: Ring) {
    forall j :: 0 <= j < |r| ==> r[0].x < r[j].x || (r[0].x == r[j].x && r[0].y <= r[j].y)
  }

  /** The canonical ring repeats no vertex, runs once round the ring as written,
      begins at a least vertex, and turns left for an exterior and right for a
      hole; a ring is refused for fewer than three vertices or for no area. */
  lemma CanonicalIs(ring: Ring, exterior: bool)
    ensures Canonical(ring, exterior) == TooFew <==> |Open(ring)| < 3
    ensures Canonical(ring, exterior) == NoArea <==> |Open(ring)| >= 3 && Fan(Open(ring), |Open(ring)|) == 0.0
    ensures Canonical(ring, exterior).Ok? ==>
              var r := Canonical(ring, exterior).ring;
              && |r| >= 3 && Clean(r) && StartsLeast(r)
              && (if exterior then Fan(r, |r|) > 0.0 else Fan(r, |r|) < 0.0)
              && exists k, onward :: RunsRound(r, Open(ring), k, onward)
  {
    var open := Open(ring);
    if |open| >= 3 {
      AreaIsFan(open);
    }
    if Canonical(ring, exterior).Ok? {
      var s := Oriented(open, exterior);
      var m := Smallest(s);
      var r := Rotated(s, m);
      OpenClean(ring);
      CleanReversed(open);
      CleanRotated(s, m);
      AreaReversed(open);
      AreaRotated(s, m);
      AreaIsFan(r);
      RotatedRuns(open, m);
      ReversedRuns(open, Rotated(Reversed(open), m), m);
      forall j | 0 <= j < |r|
        ensures !Less(r[j], r[0])
      {
        RotatedAt(s, m, j);
      }
    }
  }
}
