/** Sorting ray crossings by distance, stably: what a stable sort is, that there
    is only one, and that the insertion sort is it. */
module CrossingSort {
  import opened Geometry

  datatype RayCrossing = RayCrossing(point: Point, dist: real, obstacle: nat, segment: nat)

  ghost predicate Sorted(s: seq<RayCrossing>) {
    forall i, j :: 0 <= i < j < |s| ==> s[i].dist <= s[j].dist
  }

  /** The crossings at one distance, in order. */
  ghost function At(s: seq<RayCrossing>, d: real): seq<RayCrossing> {
    if s == [] then []
    else if s[|s| - 1].dist == d then At(s[..|s| - 1], d) + [s[|s| - 1]]
    else At(s[..|s| - 1], d)
  }

  /** r is s sorted by distance, equal distances in their order in s. */
  ghost predicate StablySorts(r: seq<RayCrossing>, s: seq<RayCrossing>) {
    Sorted(r) && SameAt(r, s)
  }

  /** Places c after every crossing of a sorted sequence that is no further. */
  function Insert(s: seq<RayCrossing>, c: RayCrossing): seq<RayCrossing> {
    if s == [] || s[|s| - 1].dist <= c.dist then s + [c]
    else Insert(s[..|s| - 1], c) + [s[|s| - 1]]
  }

  function StableSort(s: seq<RayCrossing>): (r: seq<RayCrossing>)
    ensures |r| == |s|
  {
    if s == [] then [] else InsertLength(StableSort(s[..|s| - 1]), s[|s| - 1]); Insert(StableSort(s[..|s| - 1]), s[|s| - 1])
  }

  lemma {:induction false} InsertLength(s: seq<RayCrossing>, c: RayCrossing)
    ensures |Insert(s, c)| == |s| + 1
  {
    if !(s == [] || s[|s| - 1].dist <= c.dist) {
      InsertLength(s[..|s| - 1], c);
    }
  }

  // ---- the specification has one answer ----

  lemma {:induction false} AtMember(s: seq<RayCrossing>, d: real)
    ensures forall c :: c in At(s, d) ==> c in s && c.dist == d
    ensures (exists k :: 0 <= k < |s| && s[k].dist == d) ==> At(s, d) != []
  {
    if s != [] {
      AtMember(s[..|s| - 1], d);
    }
  }

  ghost predicate SameAt(r: seq<RayCrossing>, q: seq<RayCrossing>) {
    forall d :: At(r, d) == At(q, d)
  }

  /** The last crossing of one sequence is no further than the other's last. */
  lemma LastNotFurther(r: seq<RayCrossing>, q: seq<RayCrossing>)
    requires r != [] && Sorted(q) && SameAt(r, q)
    ensures q != [] && r[|r| - 1].dist <= q[|q| - 1].dist
  {
    var c := r[|r| - 1];
    AtMember(q, c.dist);
    assert At(r, c.dist) == At(q, c.dist);
    assert c in At(r, c.dist);
  }

  lemma SameLast(r: seq<RayCrossing>, q: seq<RayCrossing>)
    requires r != [] && q != [] && Sorted(r) && Sorted(q) && SameAt(r, q)
    ensures r[|r| - 1] == q[|q| - 1]
  {
    LastNotFurther(r, q);
    LastNotFurther(q, r);
    var d := r[|r| - 1].dist;
    assert At(r, d) == At(q, d);
    assert At(r, d)[|At(r, d)| - 1] == r[|r| - 1];
    assert At(q, d)[|At(q, d)| - 1] == q[|q| - 1];
  }

  lemma DropLast(a: seq<RayCrossing>, b: seq<RayCrossing>, c: RayCrossing)
    requires a + [c] == b + [c]
    ensures a == b
  {
    assert a == (a + [c])[..|a + [c]| - 1];
    assert b == (b + [c])[..|b + [c]| - 1];
  }

  /** Two stable sorts of one sequence are equal. */
  lemma {:induction false} StableSortUnique(r: seq<RayCrossing>, q: seq<RayCrossing>)
    requires Sorted(r) && Sorted(q) && SameAt(r, q)
    ensures r == q
    decreases |r|
  {
    if r == [] {
      if q != [] {
        LastNotFurther(q, r);
      }
    } else {
      LastNotFurther(r, q);
      SameLast(r, q);
      var c, r', q' := r[|r| - 1], r[..|r| - 1], q[..|q| - 1];
      forall d
        ensures At(r', d) == At(q', d)
      {
        assert At(r, d) == At(q, d);
        if c.dist == d {
          DropLast(At(r', d), At(q', d), c);
        }
      }
      StableSortUnique(r', q');
      assert r == r' + [c] && q == q' + [c];
    }
  }

  // ---- insertion meets it ----

  lemma {:induction false} InsertAtEach(s: seq<RayCrossing>, c: RayCrossing, d: real)
    requires Sorted(s)
    ensures At(Insert(s, c), d) == At(s + [c], d)
  {
    AtLast(s, c, d);
    if s != [] && s[|s| - 1].dist > c.dist {
      var rest, last := s[..|s| - 1], s[|s| - 1];
      InsertAtEach(rest, c, d);
      AtLast(rest, c, d);
      AtLast(Insert(rest, c), last, d);
    }
  }

  lemma AtLast(s: seq<RayCrossing>, c: RayCrossing, d: real)
    ensures At(s + [c], d) == if c.dist == d then At(s, d) + [c] else At(s, d)
  {
    assert (s + [c])[..|s + [c]| - 1] == s;
  }

  lemma {:induction false} InsertSorted(s: seq<RayCrossing>, c: RayCrossing)
    requires Sorted(s)
    ensures Sorted(Insert(s, c))
    ensures forall k :: 0 <= k < |Insert(s, c)| ==> Insert(s, c)[k] in s || Insert(s, c)[k] == c
  {
    if s != [] && s[|s| - 1].dist > c.dist {
      InsertSorted(s[..|s| - 1], c);
    }
  }

  lemma {:induction false} StableSortAt(s: seq<RayCrossing>, d: real)
    ensures Sorted(StableSort(s)) && At(StableSort(s), d) == At(s, d)
  {
    if s != [] {
      var rest, last := s[..|s| - 1], s[|s| - 1];
      StableSortAt(rest, d);
      InsertSorted(StableSort(rest), last);
      InsertAtEach(StableSort(rest), last, d);
      AtLast(StableSort(rest), last, d);
    }
  }

  /** The fold of insertions is a stable sort. */
  lemma StableSortSorts(s: seq<RayCrossing>)
    ensures StablySorts(StableSort(s), s)
  {
    StableSortAt(s, 0.0);
    forall d
      ensures At(StableSort(s), d) == At(s, d)
    {
      StableSortAt(s, d);
    }
  }

  // ---- crossings listed by obstacle ----

  /** At most one crossing an obstacle, in the obstacles' order. */
  ghost predicate ByObstacle(s: seq<RayCrossing>) {
    forall i, j :: 0 <= i < j < |s| ==> s[i].obstacle < s[j].obstacle
  }

  /** Nearer, or as near and on an earlier obstacle. */
  ghost predicate Nearer(a: RayCrossing, b: RayCrossing) {
    a.dist < b.dist || (a.dist == b.dist && a.obstacle < b.obstacle)
  }

  ghost predicate AllNearer(s: seq<RayCrossing>) {
    forall i, j :: 0 <= i < j < |s| ==> Nearer(s[i], s[j])
  }

  lemma {:induction false} InsertNearer(s: seq<RayCrossing>, c: RayCrossing)
    requires AllNearer(s) && forall q :: q in s ==> q.obstacle < c.obstacle
    ensures AllNearer(Insert(s, c))
    ensures forall q :: q in Insert(s, c) <==> q in s || q == c
  {
    if s == [] {
    } else if s[|s| - 1].dist <= c.dist {
      forall i | 0 <= i < |s|
        ensures Nearer(s[i], c)
      {
        assert s[i] in s && s[|s| - 1] in s;
      }
    } else {
      var rest, last := s[..|s| - 1], s[|s| - 1];
      InsertNearer(rest, c);
      assert forall q :: q in s <==> q in rest || q == last;
      forall q | q in Insert(rest, c)
        ensures Nearer(q, last)
      {
        if q in rest {
          var i :| 0 <= i < |rest| && rest[i] == q;
          assert Nearer(s[i], s[|s| - 1]);
        }
      }
      forall i, j | 0 <= i < j < |Insert(s, c)|
        ensures Nearer(Insert(s, c)[i], Insert(s, c)[j])
      {
        assert Insert(rest, c)[i] in Insert(rest, c);
      }
    }
  }

  /** Sorting keeps the crossings and puts them by distance, then by obstacle. */
  lemma {:induction false} StableSortNearer(s: seq<RayCrossing>)
    requires ByObstacle(s)
    ensures AllNearer(StableSort(s))
    ensures forall q :: q in StableSort(s) <==> q in s
  {
    if s != [] {
      var rest, last := s[..|s| - 1], s[|s| - 1];
      StableSortNearer(rest);
      assert forall q :: q in s <==> q in rest || q == last;
      forall q | q in StableSort(rest)
        ensures q.obstacle < last.obstacle
      {
        var i :| 0 <= i < |rest| && rest[i] == q;
        assert s[i].obstacle < s[|s| - 1].obstacle;
      }
      InsertNearer(StableSort(rest), last);
    }
  }

  // ---- the sorts ----

  const RAY_CROSSING_INSERTION_MAX := 64

  lemma InsertAt(p: seq<RayCrossing>, k: nat, c: RayCrossing)
    requires k < |p| && p[k].dist > c.dist && Insert(p, c) == Insert(p[..k + 1], c) + p[k + 1..]
    ensures Insert(p, c) == Insert(p[..k], c) + p[k..]
  {
    assert p[..k + 1][..k] == p[..k];
    assert [p[k]] + p[k + 1..] == p[k..];
  }

  /** One round of the insertion sort: shifts the strictly further predecessors
      of crossing i right and puts it before them. */
  method ShiftIn(a: array<RayCrossing>, i: nat)
    requires 0 < i < a.Length
    modifies a
    ensures a[..i + 1] == Insert(old(a[..i]), old(a[i]))
    ensures a[i + 1..] == old(a[i + 1..])
  {
    var placed := a[i];
    ghost var p, was := a[..i], a[..];
    var j := i - 1;
    assert p[..i] == p && p[i..] == [];
    while j >= 0 && a[j].dist > placed.dist
      invariant -1 <= j < i
      invariant Shifted(a[..], was, i, j)
      invariant Insert(p, placed) == Insert(p[..j + 1], placed) + p[j + 1..]
    {
      assert a[j] == a[..][j] == p[j];
      InsertAt(p, j, placed);
      ghost var s := a[..];
      a[j + 1] := a[j];
      assert a[..] == s[j + 1 := s[j]];
      ShiftOne(s, was, i, j);
      j := j - 1;
    }
    ghost var s := a[..];
    assert j >= 0 ==> p[..j + 1][j] == a[j];
    InsertHere(p[..j + 1], placed);
    a[j + 1] := placed;
    assert a[..] == s[j + 1 := placed];
    Placed(s, was, i, j, placed);
    assert a[..i + 1] == a[..][..i + 1] && a[i + 1..] == a[..][i + 1..];
  }

  /** The crossings strictly between j and i have moved one place right. */
  ghost predicate Shifted(s: seq<RayCrossing>, was: seq<RayCrossing>, i: nat, j: int)
    requires -1 <= j < i < |was|
  {
    && |s| == |was|
    && (forall k :: 0 <= k <= j || i < k < |was| ==> s[k] == was[k])
    && forall k :: j < k < i ==> s[k + 1] == was[k]
  }

  lemma ShiftOne(s: seq<RayCrossing>, was: seq<RayCrossing>, i: nat, j: nat)
    requires j < i < |was| && Shifted(s, was, i, j)
    ensures Shifted(s[j + 1 := s[j]], was, i, j - 1)
  {}

  lemma Placed(s: seq<RayCrossing>, was: seq<RayCrossing>, i: nat, j: int, c: RayCrossing)
    requires -1 <= j < i < |was| && Shifted(s, was, i, j)
    ensures s[j + 1 := c][..i + 1] == was[..i][..j + 1] + [c] + was[..i][j + 1..]
    ensures s[j + 1 := c][i + 1..] == was[i + 1..]
  {
    var r, q := s[j + 1 := c][..i + 1], was[..i][..j + 1] + [c] + was[..i][j + 1..];
    forall k | 0 <= k < i + 1
      ensures r[k] == q[k]
    {
      if k > j + 1 {
        assert s[(k - 1) + 1] == was[k - 1];
      }
    }
  }

  lemma InsertHere(p: seq<RayCrossing>, c: RayCrossing)
    requires p != [] ==> p[|p| - 1].dist <= c.dist
    ensures Insert(p, c) == p + [c]
  {}

  /** insertionSortRayCrossings. */
  method InsertionSort(a: array<RayCrossing>)
    modifies a
    ensures a[..] == StableSort(old(a[..]))
  {
    ghost var s := a[..];
    if a.Length == 0 { return; }
    assert s[..1] == [s[0]] && s[..1][..0] == [];
    var i := 1;
    while i < a.Length
      invariant 1 <= i <= a.Length
      invariant a[..i] == StableSort(s[..i]) && a[i..] == s[i..]
    {
      assert a[i] == s[i] by { assert a[i..][0] == s[i..][0]; }
      assert a[i + 1..] == a[i..][1..] == s[i + 1..];
      ShiftIn(a, i);
      assert s[..i + 1][..i] == s[..i];
      i := i + 1;
    }
    assert a[..i] == a[..] && s[..i] == s;
  }

  /** sortRayCrossings, the library's stable sort taken at its contract past the cut. */
  method SortRayCrossings(a: array<RayCrossing>)
    modifies a
    ensures a[..] == StableSort(old(a[..]))
  {
    if a.Length <= RAY_CROSSING_INSERTION_MAX {
      InsertionSort(a);
    } else {
      var sorted := StableSort(a[..]);
      for k := 0 to a.Length
        invariant a[..k] == sorted[..k]
      {
        a[k] := sorted[k];
      }
    }
  }
}
