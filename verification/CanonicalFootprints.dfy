/** The canonical form of a footprint: its holes and parts sorted, so that their
    order on input does not show. */
module CanonicalFootprints {
  import opened Geometry
  import opened CanonicalRings
  import opened Sequences

  type Part = seq<Ring>

  // ---- the order of rings ----

  /** compareRings(a, b) <= 0: by the first vertex that differs, or by length. */
  predicate RingLe(a: Ring, b: Ring) {
    if a == [] then true
    else if b == [] then false
    else if a[0] == b[0] then RingLe(a[1..], b[1..])
    else Less(a[0], b[0])
  }

  lemma {:induction false} RingTotal(a: Ring, b: Ring)
    ensures RingLe(a, b) || RingLe(b, a)
  {
    if a != [] && b != [] && a[0] == b[0] {
      RingTotal(a[1..], b[1..]);
    }
  }

  lemma {:induction false} RingAntisymmetric(a: Ring, b: Ring)
    requires RingLe(a, b) && RingLe(b, a)
    ensures a == b
  {
    if a != [] && b != [] {
      RingAntisymmetric(a[1..], b[1..]);
      assert a == [a[0]] + a[1..] && b == [b[0]] + b[1..];
    }
  }

  lemma {:induction false} RingTransitive(a: Ring, b: Ring, c: Ring)
    requires RingLe(a, b) && RingLe(b, c)
    ensures RingLe(a, c)
  {
    if a != [] && a[0] == b[0] == c[0] {
      RingTransitive(a[1..], b[1..], c[1..]);
    }
  }

  /** The rings agree up to vertex k, where a's comes first. */
  ghost predicate LessAt(a: Ring, b: Ring, k: nat) {
    && k < |a| && k < |b| && (forall i :: 0 <= i < k ==> a[i] == b[i])
    && (a[k].x < b[k].x || (a[k].x == b[k].x && a[k].y < b[k].y))
  }

  lemma LessAtNext(a: Ring, b: Ring, k: nat)
    requires a != [] && b != [] && a[0] == b[0]
    ensures LessAt(a, b, k + 1) <==> LessAt(a[1..], b[1..], k)
  {
    forall i | 0 <= i < k && k + 1 < |a| && k + 1 < |b|
      ensures a[1..][i] == b[1..][i] <==> a[i + 1] == b[i + 1]
    {}
    if LessAt(a[1..], b[1..], k) {
      forall i | 0 < i < k + 1
        ensures a[i] == b[i]
      {
        assert a[1..][i - 1] == b[1..][i - 1];
      }
    }
  }

  /** A ring comes first when it begins another or is less at the first difference. */
  lemma {:induction false} RingLeExactly(a: Ring, b: Ring)
    ensures RingLe(a, b) <==> a <= b || exists k :: LessAt(a, b, k)
  {
    if a != [] && b != [] {
      if a[0] == b[0] {
        RingLeExactly(a[1..], b[1..]);
        assert a == [a[0]] + a[1..] && b == [b[0]] + b[1..];
        if k: nat :| LessAt(a[1..], b[1..], k) {
          LessAtNext(a, b, k);
        }
        if k: nat :| LessAt(a, b, k) {
          LessAtNext(a, b, k - 1);
        }
      } else {
        assert Less(a[0], b[0]) <==> LessAt(a, b, 0);
      }
    }
  }

  // ---- sorting by a ring ----

  /** What a part is sorted by: its exterior. A hole is a part of one ring. */
  function Key(p: Part): Ring { if p == [] then [] else p[0] }

  predicate SortedParts(s: seq<Part>) {
    forall i, j :: 0 <= i < j < |s| ==> RingLe(Key(s[i]), Key(s[j]))
  }

  /** slices.SortFunc: some sorted arrangement; nothing more is relied on. */
  method SortParts(s: seq<Part>) returns (r: seq<Part>)
    ensures SortedParts(r) && multiset(r) == multiset(s)
  {
    r := [];
    for i := 0 to |s|
      invariant SortedParts(r) && multiset(r) == multiset(s[..i])
    {
      r := InsertPart(r, s[i]);
      assert s[..i + 1] == s[..i] + [s[i]];
    }
    assert s[..|s|] == s;
  }

  method InsertPart(s: seq<Part>, p: Part) returns (r: seq<Part>)
    requires SortedParts(s)
    ensures SortedParts(r) && multiset(r) == multiset(s) + multiset{p}
  {
    var at := 0;
    while at < |s| && RingLe(Key(s[at]), Key(p))
      invariant at <= |s| && forall i :: 0 <= i < at ==> RingLe(Key(s[i]), Key(p))
    {
      at := at + 1;
    }
    r := s[..at] + [p] + s[at..];
    assert s == s[..at] + s[at..];
    forall i | at <= i < |s|
      ensures RingLe(Key(p), Key(s[i]))
    {
      RingTotal(Key(p), Key(s[at]));
      if i > at {
        RingTransitive(Key(p), Key(s[at]), Key(s[i]));
      }
    }
  }

  /** Parts that are sorted alike are alike. */
  ghost predicate KeysDecide(m: multiset<Part>) {
    forall p, q :: p in m && q in m && Key(p) == Key(q) ==> p == q
  }

  ghost predicate OneArrangement(m: multiset<Part>) {
    forall a, b :: Arranges(a, m) && Arranges(b, m) ==> a == b
  }

  predicate Arranges(s: seq<Part>, m: multiset<Part>) { SortedParts(s) && multiset(s) == m }

  lemma SameLast(a: seq<Part>, b: seq<Part>)
    requires SortedParts(a) && SortedParts(b) && multiset(a) == multiset(b) && KeysDecide(multiset(a)) && a != []
    ensures b != [] && a[|a| - 1] == b[|b| - 1]
  {
    assert a[|a| - 1] in multiset(b);
    LastGreatest(b, a[|a| - 1]);
    assert b[|b| - 1] in multiset(a);
    LastGreatest(a, b[|b| - 1]);
    RingAntisymmetric(Key(a[|a| - 1]), Key(b[|b| - 1]));
  }

  lemma {:induction false} ArrangedAlike(a: seq<Part>, b: seq<Part>)
    requires SortedParts(a) && SortedParts(b) && multiset(a) == multiset(b) && KeysDecide(multiset(a))
    ensures a == b
    decreases |a|
  {
    if a == [] {
      assert |multiset(b)| == 0;
    } else {
      SameLast(a, b);
      WithoutLast(a);
      WithoutLast(b);
      PrefixArranged(a);
      PrefixArranged(b);
      ArrangedAlike(a[..|a| - 1], b[..|b| - 1]);
      SameEnds(a, b);
    }
  }

  lemma PrefixArranged(a: seq<Part>)
    requires a != [] && SortedParts(a)
    ensures SortedParts(a[..|a| - 1])
    ensures KeysDecide(multiset(a)) ==> KeysDecide(multiset(a[..|a| - 1]))
  {
    WithoutLast(a);
  }

  lemma LastGreatest(s: seq<Part>, p: Part)
    requires SortedParts(s) && p in multiset(s)
    ensures s != [] && RingLe(Key(p), Key(s[|s| - 1]))
  {
    var i :| 0 <= i < |s| && s[i] == p;
    RingTotal(Key(p), Key(p));
  }

  /** Exchanging two parts with one exterior keeps an arrangement sorted. */
  lemma Exchanged(s: seq<Part>, i: nat, j: nat)
    requires SortedParts(s) && i < j < |s| && Key(s[i]) == Key(s[j])
    ensures SortedParts(s[i := s[j]][j := s[i]]) && multiset(s[i := s[j]][j := s[i]]) == multiset(s)
  {}

  /** The sorted parts are one sequence exactly when parts with the same exterior
      are the same part: the sort looks at exteriors alone. */
  lemma OneArrangementExactly(s: seq<Part>)
    requires SortedParts(s)
    ensures OneArrangement(multiset(s)) <==> KeysDecide(multiset(s))
  {
    if KeysDecide(multiset(s)) {
      forall a, b | Arranges(a, multiset(s)) && Arranges(b, multiset(s))
        ensures a == b
      {
        ArrangedAlike(a, b);
      }
    } else {
      var t := OtherArrangement(s);
      assert Arranges(s, multiset(s)) && Arranges(t, multiset(s));
    }
  }

  lemma OtherArrangement(s: seq<Part>) returns (t: seq<Part>)
    requires SortedParts(s) && !KeysDecide(multiset(s))
    ensures Arranges(t, multiset(s)) && t != s
  {
    var p, q :| p in multiset(s) && q in multiset(s) && Key(p) == Key(q) && p != q;
    var i :| 0 <= i < |s| && s[i] == p;
    var j :| 0 <= j < |s| && s[j] == q;
    var lo, hi := if i < j then i else j, if i < j then j else i;
    Exchanged(s, lo, hi);
    t := s[lo := s[hi]][hi := s[lo]];
    assert t[lo] != s[lo];
  }

  // ---- holes ----

  /** Rings as parts of one ring, to be sorted. */
  function Alone(rings: seq<Ring>): seq<Part> { seq(|rings|, i requires 0 <= i < |rings| => [rings[i]]) }

  function Heads(parts: seq<Part>): seq<Ring> { seq(|parts|, i requires 0 <= i < |parts| => Key(parts[i])) }

  /** A sorted list of rings, by its members alone. */
  ghost predicate SortedRings(s: seq<Ring>) { SortedParts(Alone(s)) }

  method SortRings(s: seq<Ring>) returns (r: seq<Ring>)
    ensures SortedRings(r) && multiset(Alone(r)) == multiset(Alone(s))
  {
    var t := SortParts(Alone(s));
    r := Heads(t);
    forall i | 0 <= i < |t|
      ensures t[i] == [Key(t[i])]
    {
      assert t[i] in multiset(t);
      var j :| 0 <= j < |s| && Alone(s)[j] == t[i];
    }
    assert Alone(r) == t;
  }

  lemma RingsAlike(a: seq<Ring>, b: seq<Ring>)
    requires SortedRings(a) && SortedRings(b) && multiset(Alone(a)) == multiset(Alone(b))
    ensures a == b
  {
    forall p, q | p in multiset(Alone(a)) && q in multiset(Alone(a)) && Key(p) == Key(q)
      ensures p == q
    {
      var i :| 0 <= i < |a| && Alone(a)[i] == p;
      var j :| 0 <= j < |a| && Alone(a)[j] == q;
    }
    ArrangedAlike(Alone(a), Alone(b));
    assert a == Heads(Alone(a)) && b == Heads(Alone(b));
  }

  // ---- the footprint ----

  /** The canonical hole, as a part of one ring. */
  function HoleForm(hole: Ring): Part { if Canonical(hole, false).Ok? then [Canonical(hole, false).ring] else [] }

  predicate Sound(rings: Part) {
    rings != [] && Canonical(rings[0], true).Ok? && forall r :: 1 <= r < |rings| ==> Canonical(rings[r], false).Ok?
  }

  /** The canonical form of a part: its exterior, and its holes sorted. */
  ghost predicate PartForm(rings: Part, part: Part) {
    && Sound(rings) && part != []
    && part[0] == Canonical(rings[0], true).ring
    && SortedRings(part[1..]) && multiset(Alone(part[1..])) == multiset(Mapped(HoleForm, rings[1..]))
  }

  lemma NextHole(rings: Part, r: nat, holes: seq<Ring>, hole: Ring)
    requires 1 <= r < |rings| && Alone(holes) == Mapped(HoleForm, rings[1..r]) && HoleForm(rings[r]) == [hole]
    ensures Alone(holes + [hole]) == Mapped(HoleForm, rings[1..r + 1])
  {
    assert rings[1..r + 1] == rings[1..r] + [rings[r]];
    assert Alone(holes + [hole]) == Alone(holes) + [[hole]];
  }

  method CanonicalPart(rings: Part) returns (part: Part, ok: bool)
    ensures ok <==> Sound(rings)
    ensures ok ==> PartForm(rings, part)
  {
    if |rings| == 0 { return [], false; }
    var exterior := CanonicalRing(rings[0], true);
    if !exterior.Ok? { return [], false; }
    var holes: seq<Ring> := [];
    for r := 1 to |rings|
      invariant forall k :: 1 <= k < r ==> Canonical(rings[k], false).Ok?
      invariant Alone(holes) == Mapped(HoleForm, rings[1..r])
    {
      var hole := CanonicalRing(rings[r], false);
      if !hole.Ok? { return [], false; }
      NextHole(rings, r, holes, hole.ring);
      holes := holes + [hole.ring];
    }
    assert rings[1..|rings|] == rings[1..];
    var sorted := SortRings(holes);
    part := [exterior.ring] + sorted;
    assert part[1..] == sorted;
    ok := true;
  }

  /** What canonicalFootprint may answer: the parts' forms, in some sorted order. */
  ghost predicate FootprintForm(polygons: seq<Part>, out: seq<Part>) {
    exists forms :: FormsOf(polygons, forms) && Arranges(out, multiset(forms))
  }

  ghost predicate FormsOf(polygons: seq<Part>, forms: seq<Part>) {
    |forms| == |polygons| && forall i :: 0 <= i < |polygons| ==> PartForm(polygons[i], forms[i])
  }

  /** canonicalFootprint. */
  method CanonicalFootprint(polygons: seq<Part>) returns (out: seq<Part>, ok: bool)
    ensures ok <==> Accepted(polygons)
    ensures ok ==> FootprintForm(polygons, out)
  {
    if |polygons| == 0 { return [], false; }
    var forms: seq<Part> := [];
    for p := 0 to |polygons|
      invariant |forms| == p && forall i :: 0 <= i < p ==> PartForm(polygons[i], forms[i])
    {
      var part, sound := CanonicalPart(polygons[p]);
      if !sound { return [], false; }
      forms := forms + [part];
    }
    assert FormsOf(polygons, forms);
    out := SortParts(forms);
    ok := true;
  }

  // ---- one form ----

  /** Whether canonicalFootprint answers at all. */
  predicate Accepted(polygons: seq<Part>) { polygons != [] && forall i :: 0 <= i < |polygons| ==> Sound(polygons[i]) }

  /** The two parts' holes have the same canonical rings. */
  predicate SameHoles(a: Part, b: Part)
    requires a != [] && b != []
  {
    multiset(Mapped(HoleForm, a[1..])) == multiset(Mapped(HoleForm, b[1..]))
  }

  predicate SameExterior(a: Part, b: Part)
    requires a != [] && b != []
  {
    Canonical(a[0], true) == Canonical(b[0], true)
  }

  /** Parts with one canonical exterior have the same canonical holes. */
  predicate ExteriorsTell(polygons: seq<Part>) {
    forall i, j :: 0 <= i < |polygons| && 0 <= j < |polygons| && polygons[i] != [] && polygons[j] != [] && SameExterior(polygons[i], polygons[j])
      ==> SameHoles(polygons[i], polygons[j])
  }

  /** A part's form is its exterior's and its holes'. */
  lemma FormTells(a: Part, b: Part, p: Part, q: Part)
    requires PartForm(a, p) && PartForm(b, q)
    ensures Key(p) == Key(q) <==> SameExterior(a, b)
    ensures p == q <==> SameExterior(a, b) && SameHoles(a, b)
  {
    assert p == [p[0]] + p[1..] && q == [q[0]] + q[1..];
    if SameHoles(a, b) {
      RingsAlike(p[1..], q[1..]);
    }
  }

  lemma FormsUnique(polygons: seq<Part>, f: seq<Part>, g: seq<Part>)
    requires FormsOf(polygons, f) && FormsOf(polygons, g)
    ensures f == g
  {
    forall i | 0 <= i < |polygons|
      ensures f[i] == g[i]
    {
      FormTells(polygons[i], polygons[i], f[i], g[i]);
    }
  }

  predicate KeysDecideAt(forms: seq<Part>) {
    forall i, j :: 0 <= i < |forms| && 0 <= j < |forms| && Key(forms[i]) == Key(forms[j]) ==> forms[i] == forms[j]
  }

  lemma KeysAt(forms: seq<Part>)
    ensures KeysDecide(multiset(forms)) <==> KeysDecideAt(forms)
  {
    if KeysDecideAt(forms) {
      forall p, q | p in multiset(forms) && q in multiset(forms) && Key(p) == Key(q)
        ensures p == q
      {
        var i := Find(forms, p);
        var j := Find(forms, q);
      }
    }
    forall i | 0 <= i < |forms|
      ensures forms[i] in multiset(forms)
    {}
  }

  lemma KeysTell(polygons: seq<Part>, forms: seq<Part>)
    requires FormsOf(polygons, forms)
    ensures KeysDecide(multiset(forms)) <==> ExteriorsTell(polygons)
  {
    KeysAt(forms);
    forall i, j | 0 <= i < |polygons| && 0 <= j < |polygons|
      ensures polygons[i] != [] && polygons[j] != []
      ensures Key(forms[i]) == Key(forms[j]) <==> SameExterior(polygons[i], polygons[j])
      ensures forms[i] == forms[j] <==> SameExterior(polygons[i], polygons[j]) && SameHoles(polygons[i], polygons[j])
    {
      FormTells(polygons[i], polygons[j], forms[i], forms[j]);
    }
  }

  /** A footprint has one canonical form exactly when its parts with one exterior
      have the same holes: the sort looks at exteriors alone. */
  lemma OneFormExactly(polygons: seq<Part>, a: seq<Part>)
    requires FootprintForm(polygons, a)
    ensures (forall b :: FootprintForm(polygons, b) ==> b == a) <==> ExteriorsTell(polygons)
  {
    var forms :| FormsOf(polygons, forms) && Arranges(a, multiset(forms));
    KeysTell(polygons, forms);
    forall b | ExteriorsTell(polygons) && FootprintForm(polygons, b)
      ensures b == a
    {
      var g :| FormsOf(polygons, g) && Arranges(b, multiset(g));
      FormsUnique(polygons, forms, g);
      ArrangedAlike(a, b);
    }
    if !ExteriorsTell(polygons) {
      var t := OtherArrangement(a);
      assert FormsOf(polygons, forms) && Arranges(t, multiset(forms));
      assert FootprintForm(polygons, t);
    }
  }

  // ---- however it is written ----

  ghost predicate Rewrites(a: Ring, b: Ring) { exists edits :: b == AllRewritten(a, edits) }

  /** b is part a with its rings written otherwise, hole i of b being hole at[i] of a. */
  ghost predicate SamePart(a: Part, b: Part, at: seq<nat>) {
    || (a == [] && b == [])
    || (&& a != [] && |b| == |a| == |at| + 1 && Rewrites(a[0], b[0]) && IsOrder(at, |at|)
        && forall i :: 0 <= i < |at| ==> at[i] < |at| && Rewrites(a[1 + at[i]], b[1 + i]))
  }

  ghost predicate SamePartSomehow(a: Part, b: Part) { exists at :: SamePart(a, b, at) }

  /** second is first with its parts written otherwise, part i being part at[i] of first. */
  ghost predicate SameFootprint(first: seq<Part>, second: seq<Part>, at: seq<nat>) {
    && |first| == |second| == |at| && IsOrder(at, |at|)
    && forall i :: 0 <= i < |at| ==> at[i] < |at| && SamePartSomehow(first[at[i]], second[i])
  }

  /** Every ring of the footprint is refused or has one canonical form. */
  ghost predicate AllSteady(polygons: seq<Part>) {
    forall i :: 0 <= i < |polygons| ==> SteadyPart(polygons[i])
  }

  ghost predicate SteadyPart(part: Part) {
    forall r :: 0 <= r < |part| ==> Steady(Open(part[r]), r == 0)
  }

  lemma RewritesKeep(a: Ring, b: Ring, exterior: bool)
    requires Rewrites(a, b) && Steady(Open(a), exterior)
    ensures Canonical(a, exterior) == Canonical(b, exterior)
  {
    var edits :| b == AllRewritten(a, edits);
    SteadyKeeps(a, edits, exterior);
  }

  lemma HolesKept(a: Part, b: Part, at: seq<nat>)
    requires a != [] && SamePart(a, b, at) && SteadyPart(a)
    ensures forall i :: 0 <= i < |at| ==> Canonical(a[1 + at[i]], false) == Canonical(b[1 + i], false)
    ensures SameHoles(a, b)
  {
    var f, g := Mapped(HoleForm, a[1..]), Mapped(HoleForm, b[1..]);
    forall i | 0 <= i < |at|
      ensures Canonical(a[1 + at[i]], false) == Canonical(b[1 + i], false) && g[i] == f[at[i]]
    {
      RewritesKeep(a[1 + at[i]], b[1 + i], false);
    }
    Permutes(f, g, at);
  }

  /** The same verdicts in another order. */
  lemma AllAlike(a: seq<bool>, b: seq<bool>, at: seq<nat>)
    requires |a| == |b| == |at| && IsOrder(at, |at|) && forall i :: 0 <= i < |at| ==> at[i] < |at| && b[i] == a[at[i]]
    ensures (forall k :: 0 <= k < |a| ==> a[k]) <==> (forall k :: 0 <= k < |b| ==> b[k])
  {
    Permutes(a, b, at);
    AllTrue(a);
    AllTrue(b);
  }

  lemma AllTrue(s: seq<bool>)
    ensures (forall k :: 0 <= k < |s| ==> s[k]) <==> false !in multiset(s)
  {
    forall k | 0 <= k < |s|
      ensures s[k] in multiset(s)
    {}
    if false in multiset(s) {
      var k := Find(s, false);
    }
  }

  lemma SoundKept(a: Part, b: Part, at: seq<nat>)
    requires a != [] && SamePart(a, b, at) && SteadyPart(a)
    ensures Sound(a) <==> Sound(b)
  {
    var v := seq(|at|, r requires 0 <= r < |at| => Canonical(a[1 + r], false).Ok?);
    var w := seq(|at|, r requires 0 <= r < |at| => Canonical(b[1 + r], false).Ok?);
    RewritesKeep(a[0], b[0], true);
    HolesKept(a, b, at);
    AllAlike(v, w, at);
    HolesSound(a, v);
    HolesSound(b, w);
  }

  lemma HolesSound(part: Part, v: seq<bool>)
    requires part != [] && |v| == |part| - 1 && forall r :: 0 <= r < |v| ==> v[r] == Canonical(part[1 + r], false).Ok?
    ensures Sound(part) <==> Canonical(part[0], true).Ok? && forall r :: 0 <= r < |v| ==> v[r]
  {
    forall r | 1 <= r < |part|
      ensures v[r - 1] == Canonical(part[r], false).Ok?
    {}
  }

  /** Writing a part otherwise keeps whether it is sound, its exterior and its holes. */
  lemma PartKept(a: Part, b: Part)
    requires SamePartSomehow(a, b) && SteadyPart(a)
    ensures Sound(a) <==> Sound(b)
    ensures a != [] ==> b != [] && SameExterior(a, b) && SameHoles(a, b)
  {
    if a != [] {
      var at :| SamePart(a, b, at);
      RewritesKeep(a[0], b[0], true);
      HolesKept(a, b, at);
      SoundKept(a, b, at);
    }
  }

  lemma AcceptedAlike(first: seq<Part>, second: seq<Part>, at: seq<nat>)
    requires SameFootprint(first, second, at) && AllSteady(first)
    ensures Accepted(first) <==> Accepted(second)
  {
    var v := seq(|at|, i requires 0 <= i < |at| => Sound(first[i]));
    var w := seq(|at|, i requires 0 <= i < |at| => Sound(second[i]));
    forall i | 0 <= i < |at|
      ensures w[i] == v[at[i]]
    {
      PartKept(first[at[i]], second[i]);
    }
    AllAlike(v, w, at);
    AcceptedIs(first, v);
    AcceptedIs(second, w);
  }

  lemma AcceptedIs(polygons: seq<Part>, v: seq<bool>)
    requires |v| == |polygons| && forall i :: 0 <= i < |v| ==> v[i] == Sound(polygons[i])
    ensures Accepted(polygons) <==> polygons != [] && forall k :: 0 <= k < |v| ==> v[k]
  {
    forall i | 0 <= i < |polygons|
      ensures v[i] == Sound(polygons[i])
    {}
  }

  lemma FormsAlike(first: seq<Part>, second: seq<Part>, at: seq<nat>, f: seq<Part>, g: seq<Part>)
    requires SameFootprint(first, second, at) && AllSteady(first) && FormsOf(first, f) && FormsOf(second, g)
    ensures multiset(f) == multiset(g)
  {
    forall i | 0 <= i < |at|
      ensures g[i] == f[at[i]]
    {
      PartKept(first[at[i]], second[i]);
      FormTells(first[at[i]], second[i], f[at[i]], g[i]);
    }
    Permutes(f, g, at);
  }

  /** A footprint's form is one for every order of its parts and holes and every
      way of writing their rings, so long as each ring has one form and parts
      with one exterior have the same holes. */
  lemma WritingDoesNotMatter(first: seq<Part>, second: seq<Part>, at: seq<nat>)
    requires SameFootprint(first, second, at) && AllSteady(first) && ExteriorsTell(first)
    ensures Accepted(first) <==> Accepted(second)
    ensures forall a, b :: FootprintForm(first, a) && FootprintForm(second, b) ==> a == b
  {
    AcceptedAlike(first, second, at);
    forall a, b | FootprintForm(first, a) && FootprintForm(second, b)
      ensures a == b
    {
      var f :| FormsOf(first, f) && Arranges(a, multiset(f));
      var g :| FormsOf(second, g) && Arranges(b, multiset(g));
      FormsAlike(first, second, at, f, g);
      KeysTell(first, f);
      ArrangedAlike(a, b);
    }
  }

  // ---- when it does ----

  /** Any parts can be sorted. */
  lemma {:induction false} Sortable(s: seq<Part>) returns (r: seq<Part>)
    ensures Arranges(r, multiset(s))
  {
    if s == [] {
      r := [];
    } else {
      var n := |s| - 1;
      var before := Sortable(s[..n]);
      r := Insertable(before, s[n]);
      assert s == s[..n] + [s[n]];
    }
  }

  lemma {:induction false} Insertable(s: seq<Part>, p: Part) returns (r: seq<Part>)
    requires SortedParts(s)
    ensures SortedParts(r) && multiset(r) == multiset(s) + multiset{p}
    decreases |s|
  {
    if s == [] || RingLe(Key(s[|s| - 1]), Key(p)) {
      r := s + [p];
      SortedSnoc(s, p);
    } else {
      var n := |s| - 1;
      assert s == s[..n] + [s[n]];
      r := Insertable(s[..n], p);
      RingTotal(Key(s[n]), Key(p));
      LastAfter(r, s, p);
      SortedSnoc(r, s[n]);
      r := r + [s[n]];
    }
  }

  lemma SortedSnoc(s: seq<Part>, p: Part)
    requires SortedParts(s) && (s == [] || RingLe(Key(s[|s| - 1]), Key(p)))
    ensures SortedParts(s + [p])
  {
    forall i | 0 <= i < |s|
      ensures RingLe(Key(s[i]), Key(p))
    {
      if i < |s| - 1 {
        RingTransitive(Key(s[i]), Key(s[|s| - 1]), Key(p));
      }
    }
  }

  lemma LastAfter(r: seq<Part>, s: seq<Part>, p: Part)
    requires s != [] && SortedParts(s) && RingLe(Key(p), Key(s[|s| - 1])) && multiset(r) == multiset(s[..|s| - 1]) + multiset{p}
    ensures r == [] || RingLe(Key(r[|r| - 1]), Key(s[|s| - 1]))
  {
    if r != [] {
      var last := r[|r| - 1];
      assert last in multiset(r);
      if last != p {
        var i := Find(s[..|s| - 1], last);
      }
    }
  }

  lemma HolesSortable(holes: seq<Ring>) returns (r: seq<Ring>)
    ensures SortedRings(r) && multiset(Alone(r)) == multiset(Alone(holes))
  {
    var t := Sortable(Alone(holes));
    r := Heads(t);
    forall i | 0 <= i < |t|
      ensures t[i] == [Key(t[i])]
    {
      assert t[i] in multiset(t);
      var j := Find(Alone(holes), t[i]);
    }
    assert Alone(r) == t;
  }

  function HoleRing(hole: Ring): Ring { if Canonical(hole, false).Ok? then Canonical(hole, false).ring else [] }

  /** A sound part has a form. */
  lemma HasForm(rings: Part) returns (part: Part)
    requires Sound(rings)
    ensures PartForm(rings, part)
  {
    var holes := Mapped(HoleRing, rings[1..]);
    var sorted := HolesSortable(holes);
    assert Alone(holes) == Mapped(HoleForm, rings[1..]);
    part := [Canonical(rings[0], true).ring] + sorted;
    assert part[1..] == sorted;
  }

  /** Part i rewritten into one with another form gives the footprint another form. */
  lemma OtherPart(polygons: seq<Part>, a: seq<Part>, i: nat, part: Part) returns (b: seq<Part>)
    requires FootprintForm(polygons, a) && i < |polygons| && Sound(part) && polygons[i] != []
    requires !SameExterior(polygons[i], part) || !SameHoles(polygons[i], part)
    ensures FootprintForm(polygons[i := part], b) && b != a
  {
    var f :| FormsOf(polygons, f) && Arranges(a, multiset(f));
    var p := HasForm(part);
    FormTells(polygons[i], part, f[i], p);
    var g := f[i := p];
    Replaced(f, i, p);
    FormsReplaced(polygons, f, i, part, p);
    b := Sortable(g);
  }

  lemma FormsReplaced(polygons: seq<Part>, f: seq<Part>, i: nat, part: Part, p: Part)
    requires i < |polygons| && FormsOf(polygons, f) && PartForm(part, p)
    ensures FormsOf(polygons[i := part], f[i := p])
  {}

  lemma RewrittenOnce(polygons: seq<Part>, i: nat, r: nat, ring: Ring) returns (at: seq<nat>)
    requires i < |polygons| && r < |polygons[i]| && Rewrites(polygons[i][r], ring)
    ensures SameFootprint(polygons, polygons[i := polygons[i][r := ring]], at)
  {
    at := Indices(|polygons|);
    IdentityOrder(polygons);
    forall k | 0 <= k < |polygons|
      ensures SamePartSomehow(polygons[k], polygons[i := polygons[i][r := ring]][k])
    {
      if k == i {
        RingRewritten(polygons[i], r, ring);
      } else {
        PartItself(polygons[k]);
      }
    }
  }

  lemma RewritesItself(ring: Ring)
    ensures Rewrites(ring, ring)
  {
    assert ring == AllRewritten(ring, []);
  }

  lemma RingRewritten(part: Part, r: nat, ring: Ring)
    requires r < |part| && Rewrites(part[r], ring)
    ensures SamePartSomehow(part, part[r := ring])
  {
    var at := Indices(|part| - 1);
    IdentityOrder(part[1..]);
    forall k | 0 <= k < |part|
      ensures Rewrites(part[k], part[r := ring][k])
    {
      RewritesItself(part[k]);
    }
    assert SamePart(part, part[r := ring], at);
  }

  lemma PartItself(part: Part)
    ensures SamePartSomehow(part, part)
  {
    if part == [] {
      assert SamePart(part, part, []);
    } else {
      RewritesItself(part[0]);
      RingRewritten(part, 0, part[0]);
      assert part[0 := part[0]] == part;
    }
  }

  lemma OtherHole(part: Part, r: nat, ring: Ring)
    requires Sound(part) && 1 <= r < |part| && Canonical(ring, false).Ok? && Canonical(ring, false) != Canonical(part[r], false)
    ensures Sound(part[r := ring]) && !SameHoles(part, part[r := ring])
  {
    OtherElement(part[1..], r - 1, ring);
    assert part[r := ring][1..] == part[1..][r - 1 := ring];
  }

  lemma OtherElement(holes: seq<Ring>, i: nat, ring: Ring)
    requires i < |holes| && HoleForm(ring) != HoleForm(holes[i])
    ensures multiset(Mapped(HoleForm, holes[i := ring])) != multiset(Mapped(HoleForm, holes))
  {
    assert Mapped(HoleForm, holes[i := ring]) == Mapped(HoleForm, holes)[i := HoleForm(ring)];
    Replaced(Mapped(HoleForm, holes), i, HoleForm(ring));
  }

  lemma OtherExterior(part: Part, ring: Ring)
    requires Sound(part) && Canonical(ring, true).Ok? && Canonical(ring, true) != Canonical(part[0], true)
    ensures Sound(part[0 := ring]) && !SameExterior(part, part[0 := ring])
  {}

  /** Rewriting an unsteady ring so that its canonical ring changes. */
  lemma UnsteadyPart(part: Part, r: nat) returns (ring: Ring)
    requires Sound(part) && r < |part| && !Steady(Open(part[r]), r == 0)
    ensures Rewrites(part[r], ring) && Sound(part[r := ring])
    ensures !SameExterior(part, part[r := ring]) || !SameHoles(part, part[r := ring])
  {
    var k := UnsteadyStart(part[r], r == 0);
    ring := StartedLater(part[r], k);
    StartWritten(part[r], k);
    if r > 0 {
      OtherHole(part, r, ring);
    } else {
      OtherExterior(part, ring);
    }
  }

  lemma StartWritten(ring: Ring, k: nat)
    ensures Rewrites(ring, StartedLater(ring, k))
  {
    StartIsEdit(ring, k);
    assert StartedLater(ring, k) == AllRewritten(ring, [Start(k)]);
  }

  /** b is what canonicalFootprint may answer for the footprint written otherwise. */
  ghost predicate FormOfWriting(polygons: seq<Part>, b: seq<Part>) {
    exists second, at :: SameFootprint(polygons, second, at) && FootprintForm(second, b)
  }

  lemma OneFormSteady(polygons: seq<Part>, a: seq<Part>)
    requires FootprintForm(polygons, a) && forall b :: FormOfWriting(polygons, b) ==> b == a
    ensures AllSteady(polygons)
  {
    forall i, r | 0 <= i < |polygons| && 0 <= r < |polygons[i]|
      ensures Steady(Open(polygons[i][r]), r == 0)
    {
      if !Steady(Open(polygons[i][r]), r == 0) {
        var ring := UnsteadyPart(polygons[i], r);
        var at := RewrittenOnce(polygons, i, r, ring);
        var b := OtherPart(polygons, a, i, polygons[i][r := ring]);
        assert FormOfWriting(polygons, b);
      }
    }
  }

  lemma WrittenItself(polygons: seq<Part>, b: seq<Part>)
    requires FootprintForm(polygons, b)
    ensures FormOfWriting(polygons, b)
  {
    IdentityOrder(polygons);
    forall k | 0 <= k < |polygons|
      ensures SamePartSomehow(polygons[k], polygons[k])
    {
      PartItself(polygons[k]);
    }
    assert SameFootprint(polygons, polygons, Indices(|polygons|));
  }

  /** An accepted footprint has one form, however it is written, exactly when each
      of its rings is steady and parts with one exterior have the same holes. */
  lemma WritingExactly(polygons: seq<Part>, a: seq<Part>)
    requires FootprintForm(polygons, a)
    ensures (forall b :: FormOfWriting(polygons, b) ==> b == a) <==> AllSteady(polygons) && ExteriorsTell(polygons)
  {
    if forall b :: FormOfWriting(polygons, b) ==> b == a {
      OneFormSteady(polygons, a);
      forall b | FootprintForm(polygons, b)
        ensures b == a
      {
        WrittenItself(polygons, b);
      }
      OneFormExactly(polygons, a);
    }
    if AllSteady(polygons) && ExteriorsTell(polygons) {
      forall b | FormOfWriting(polygons, b)
        ensures b == a
      {
        var second, at :| SameFootprint(polygons, second, at) && FootprintForm(second, b);
        WritingDoesNotMatter(polygons, second, at);
      }
    }
  }

  // ---- a footprint with two forms ----

  lemma TriangleForm(a: Point, b: Point, c: Point, exterior: bool)
    requires Less(a, b) && Less(a, c) && b != c
    requires if exterior then Term(a, b) + Term(b, c) + Term(c, a) > 0.0 else Term(a, b) + Term(b, c) + Term(c, a) < 0.0
    ensures Canonical([a, b, c], exterior) == Ok([a, b, c])
  {
    var t := [a, b, c];
    CleanOpen(t);
    ShoelaceFour(a, b, c, a);
    assert t + [a] == [a, b, c, a];
    assert SmallestAt(t, 0);
    SmallestStarts(t, 0);
    assert Rotated(t, 0) == t;
  }

  const OUTLINE: Ring := [Point(0.0, 0.0), Point(9.0, 0.0), Point(0.0, 9.0)]
  const COURTYARD: Ring := [Point(1.0, 1.0), Point(1.0, 2.0), Point(2.0, 1.0)]

  lemma OutlineForm()
    ensures Canonical(OUTLINE, true) == Ok(OUTLINE)
  {
    TriangleForm(Point(0.0, 0.0), Point(9.0, 0.0), Point(0.0, 9.0), true);
  }

  lemma CourtyardForm()
    ensures Canonical(COURTYARD, false) == Ok(COURTYARD)
  {
    TriangleForm(Point(1.0, 1.0), Point(1.0, 2.0), Point(2.0, 1.0), false);
  }

  /** Two parts with one outline, one of them with a courtyard: the footprint has
      two canonical forms, in which the courtyard is on different parts. */
  lemma TwoForms(polygons: seq<Part>)
    requires polygons == [[OUTLINE], [OUTLINE, COURTYARD]]
    ensures FootprintForm(polygons, [[OUTLINE], [OUTLINE, COURTYARD]])
    ensures FootprintForm(polygons, [[OUTLINE, COURTYARD], [OUTLINE]])
  {
    OutlineForm();
    CourtyardForm();
    PlainForm([OUTLINE]);
    PiercedForm([OUTLINE, COURTYARD]);
    EitherOrder([OUTLINE], [OUTLINE, COURTYARD]);
  }

  lemma EitherOrder(p: Part, q: Part)
    requires PartForm(p, p) && PartForm(q, q) && Key(p) == Key(q)
    ensures FootprintForm([p, q], [p, q]) && FootprintForm([p, q], [q, p])
  {
    PairSorted(p, q);
    PairSorted(q, p);
    PairForms(p, q);
    PairBag(p, q);
    FormOfArranged([p, q], [p, q]);
    FormOfArranged([p, q], [q, p]);
  }

  lemma PairSorted(p: Part, q: Part)
    requires Key(p) == Key(q)
    ensures SortedParts([p, q])
  {
    RingTotal(Key(p), Key(p));
  }

  lemma PairForms(p: Part, q: Part)
    requires PartForm(p, p) && PartForm(q, q)
    ensures FormsOf([p, q], [p, q])
  {}

  lemma PairBag<T>(x: T, y: T)
    ensures multiset([y, x]) == multiset([x, y])
  {}

  lemma FormOfArranged(forms: seq<Part>, out: seq<Part>)
    requires FormsOf(forms, forms) && SortedParts(out) && multiset(out) == multiset(forms)
    ensures FootprintForm(forms, out)
  {
    assert Arranges(out, multiset(forms));
  }

  lemma PlainForm(part: Part)
    requires |part| == 1 && Canonical(part[0], true) == Ok(part[0])
    ensures PartForm(part, part)
  {
    assert part[1..] == [];
    assert Alone(part[1..]) == Mapped(HoleForm, part[1..]);
  }

  lemma PiercedForm(part: Part)
    requires |part| == 2 && Canonical(part[0], true) == Ok(part[0]) && Canonical(part[1], false) == Ok(part[1])
    ensures PartForm(part, part)
  {
    assert part[1..] == [part[1]];
    OneHole(part[1]);
  }

  lemma OneHole(hole: Ring)
    requires Canonical(hole, false) == Ok(hole)
    ensures SortedRings([hole]) && Alone([hole]) == Mapped(HoleForm, [hole])
  {
    assert Alone([hole]) == [HoleForm(hole)];
  }
}
