/** Sequences and the multisets of their elements. */
module Sequences {
  function Mapped<S, T>(f: S -> T, s: seq<S>): seq<T> { seq(|s|, i requires 0 <= i < |s| => f(s[i])) }

  function Without<T>(s: seq<T>, j: nat): seq<T>
    requires j < |s|
  {
    s[..j] + s[j + 1..]
  }

  lemma BagWithout<T>(s: seq<T>, j: nat)
    requires j < |s|
    ensures multiset(s) == multiset(Without(s, j)) + multiset{s[j]}
  {
    assert s == s[..j] + [s[j]] + s[j + 1..];
  }

  lemma WithoutLast<T>(s: seq<T>)
    requires s != []
    ensures multiset(s[..|s| - 1]) == multiset(s) - multiset{s[|s| - 1]}
  {
    assert s == s[..|s| - 1] + [s[|s| - 1]];
  }

  lemma SameEnds<T>(a: seq<T>, b: seq<T>)
    requires a != [] && b != [] && a[..|a| - 1] == b[..|b| - 1] && a[|a| - 1] == b[|b| - 1]
    ensures a == b
  {
    assert a == a[..|a| - 1] + [a[|a| - 1]] && b == b[..|b| - 1] + [b[|b| - 1]];
  }

  lemma Inserted<T>(a: seq<T>, x: T, b: seq<T>)
    ensures multiset(a + [x] + b) == multiset(a + b) + multiset{x}
  {}

  lemma Find<T>(s: seq<T>, x: T) returns (j: nat)
    requires x in multiset(s)
    ensures j < |s| && s[j] == x
  {
    j :| 0 <= j < |s| && s[j] == x;
  }

  lemma MappedWithout<S, T>(f: S -> T, s: seq<S>, j: nat)
    requires j < |s|
    ensures Mapped(f, Without(s, j)) == Without(Mapped(f, s), j) && Mapped(f, s)[j] == f(s[j])
  {}

  /** Mapping two orders of the same elements gives two orders of the same images. */
  lemma {:induction false} MappedPermutes<S, T>(f: S -> T, a: seq<S>, b: seq<S>)
    requires multiset(a) == multiset(b)
    ensures multiset(Mapped(f, a)) == multiset(Mapped(f, b))
    decreases |a|
  {
    if a == [] {
      assert |multiset(b)| == 0;
    } else {
      assert a[0] in multiset(a);
      var j := Find(b, a[0]);
      BagWithout(a, 0);
      BagWithout(b, j);
      assert multiset(Without(a, 0)) == multiset(a) - multiset{a[0]} == multiset(Without(b, j));
      MappedPermutes(f, Without(a, 0), Without(b, j));
      MappedWithout(f, a, 0);
      MappedWithout(f, b, j);
      BagWithout(Mapped(f, a), 0);
      BagWithout(Mapped(f, b), j);
    }
  }

  // ---- orders ----

  function Indices(n: nat): seq<nat> { seq(n, i => i) }

  /** at lists 0 to n - 1, each once. */
  predicate IsOrder(at: seq<nat>, n: nat) { multiset(at) == multiset(Indices(n)) }

  /** b lists a's elements in the order at. */
  predicate Lists<T(==)>(a: seq<T>, b: seq<T>, at: seq<nat>) {
    && |a| == |b| == |at| && IsOrder(at, |a|)
    && forall i :: 0 <= i < |at| ==> at[i] < |a| && b[i] == a[at[i]]
  }

  /** Elements listed in another order are the same elements. */
  lemma Permutes<T>(a: seq<T>, b: seq<T>, at: seq<nat>)
    requires Lists(a, b, at)
    ensures multiset(a) == multiset(b)
  {
    if a != [] {
      var pick := (k: nat) => if k < |a| then a[k] else a[0];
      assert b == Mapped(pick, at);
      assert a == Mapped(pick, Indices(|a|));
      MappedPermutes(pick, at, Indices(|a|));
    }
  }

  lemma IdentityOrder<T>(s: seq<T>)
    ensures IsOrder(Indices(|s|), |s|) && forall i :: 0 <= i < |s| ==> Indices(|s|)[i] == i
  {}

  /** Replacing one element by another changes the elements. */
  lemma Replaced<T>(s: seq<T>, i: nat, x: T)
    requires i < |s| && x != s[i]
    ensures multiset(s[i := x]) != multiset(s)
  {
    BagWithout(s, i);
    BagWithout(s[i := x], i);
    assert Without(s[i := x], i) == Without(s, i);
    assert multiset(s)[s[i]] == multiset(Without(s, i))[s[i]] + 1;
    assert multiset(s[i := x])[s[i]] == multiset(Without(s, i))[s[i]];
  }
}
