/** The order a probe visits a receiver's units in: bit-reversed, each once. */
module SampleOrders {

  function Pow2(k: nat): (p: nat)
    ensures p >= 1
  {
    if k == 0 then 1 else 2 * Pow2(k - 1)
  }

  /** m's low width bits, reversed. */
  function Rev(m: nat, width: nat): nat
    decreases width
  {
    if width == 0 then 0 else (m % 2) * Pow2(width - 1) + Rev(m / 2, width - 1)
  }

  lemma {:induction false} RevBound(m: nat, width: nat)
    ensures Rev(m, width) < Pow2(width)
    decreases width
  {
    if width > 0 {
      RevBound(m / 2, width - 1);
      BitTimes(m % 2, Pow2(width - 1));
    }
  }

  lemma BitTimes(b: nat, p: nat)
    requires b <= 1
    ensures b * p == if b == 0 then 0 else p
  {}

  lemma {:induction false} PowPlus(a: nat, b: nat)
    ensures Pow2(a + b) == Pow2(a) * Pow2(b)
    decreases a
  {
    if a > 0 {
      PowPlus(a - 1, b);
      Doubled(Pow2(a - 1), Pow2(b));
    }
  }

  lemma Doubled(x: nat, y: nat)
    ensures (2 * x) * y == 2 * (x * y)
  {}

  /** Appending a high bit prepends a low one. */
  lemma {:induction false} RevHigh(b: nat, m: nat, width: nat)
    requires b <= 1 && m < Pow2(width)
    ensures Rev(b * Pow2(width) + m, width + 1) == 2 * Rev(m, width) + b
    decreases width
  {
    BitTimes(b, Pow2(width));
    if width == 0 {
      assert Rev(b, 1) == (b % 2) * Pow2(0) + Rev(b / 2, 0);
    } else {
      var x := b * Pow2(width) + m;
      BitTimes(b, Pow2(width - 1));
      assert x % 2 == m % 2 && x / 2 == b * Pow2(width - 1) + m / 2;
      RevHigh(b, m / 2, width - 1);
      BitTimes(m % 2, Pow2(width));
      BitTimes(m % 2, Pow2(width - 1));
    }
  }

  /** Reversing twice gives the number back. */
  lemma {:induction false} RevTwice(m: nat, width: nat)
    requires m < Pow2(width)
    ensures Rev(Rev(m, width), width) == m
    decreases width
  {
    if width > 0 {
      RevBound(m / 2, width - 1);
      RevTwice(m / 2, width - 1);
      RevHigh(m % 2, Rev(m / 2, width - 1), width - 1);
    }
  }

  /** The first 2^j positions are spread one to each aligned block: position m
      falls in block Rev(m, j), at its start. */
  lemma {:induction false} PrefixSpreads(m: nat, j: nat, width: nat)
    requires j <= width && m < Pow2(j)
    ensures Rev(m, width) == Rev(m, j) * Pow2(width - j)
    decreases j
  {
    if j == 0 {
      RevZero(width);
    } else {
      PrefixSpreads(m / 2, j - 1, width - 1);
      PowPlus(j - 1, width - j);
      Spread(m % 2, Pow2(j - 1), Rev(m / 2, j - 1), Pow2(width - j));
    }
  }

  lemma Spread(b: nat, p: nat, r: nat, q: nat)
    ensures b * (p * q) + r * q == (b * p + r) * q
  {}

  lemma {:induction false} RevZero(width: nat)
    ensures Rev(0, width) == 0
    decreases width
  {
    if width > 0 {
      RevZero(width - 1);
    }
  }

  lemma WholeBlocks(a: nat, p: nat)
    requires p > 0
    ensures a * p / p == a
  {
    SameQuotient(a, a * p / p, a * p % p, p);
  }

  lemma SameQuotient(a: nat, q: int, r: nat, p: nat)
    requires r < p && a * p == q * p + r
    ensures q == a
  {
    if a >= q + 1 {
      TimesAtLeast(a, q + 1, p);
    } else if q >= a + 1 {
      TimesAtLeast(q, a + 1, p);
    }
  }

  lemma TimesAtLeast(a: int, b: int, p: nat)
    requires a >= b
    ensures a * p >= b * p
  {}

  /** Of the first 2^j positions exactly one falls in each aligned block of
      2^(width - j), and it falls on the block's start. */
  lemma BlocksMetOnce(j: nat, width: nat, block: nat)
    requires j <= width && block < Pow2(j)
    ensures Rev(block, j) < Pow2(j) && Rev(Rev(block, j), width) == block * Pow2(width - j)
    ensures forall m: nat :: m < Pow2(j) ==> (Rev(m, width) / Pow2(width - j) == block <==> m == Rev(block, j))
  {
    RevBound(block, j);
    RevTwice(block, j);
    PrefixSpreads(Rev(block, j), j, width);
    forall m: nat | m < Pow2(j)
      ensures Rev(m, width) / Pow2(width - j) == block <==> m == Rev(block, j)
    {
      PrefixSpreads(m, j, width);
      WholeBlocks(Rev(m, j), Pow2(width - j));
      RevTwice(m, j);
    }
  }

  lemma {:induction false} PowUp(j: nat, width: nat)
    requires j <= width
    ensures Pow2(j) <= Pow2(width)
    decreases width - j
  {
    if j < width {
      PowUp(j, width - 1);
    }
  }

  // ---- the sequence taken ----

  /** The units the first positions give, those past the last unit skipped. */
  function Taken(n: nat, width: nat, positions: nat): seq<nat> {
    if positions == 0 then []
    else if Rev(positions - 1, width) < n then Taken(n, width, positions - 1) + [Rev(positions - 1, width)]
    else Taken(n, width, positions - 1)
  }

  /** The width newSampleOrder picks: the least that reaches n. */
  predicate Fits(n: nat, width: nat) { n <= Pow2(width) && (width > 0 ==> Pow2(width - 1) < n) }

  /** A position that is skipped is odd, so the next one is not. */
  lemma SkippedOnce(m: nat, n: nat, width: nat)
    requires n >= 1 && Fits(n, width) && Rev(m, width) >= n
    ensures Rev(m + 1, width) < n
  {
    if width > 0 {
      RevBound(m / 2, width - 1);
      RevBound((m + 1) / 2, width - 1);
      BitTimes(m % 2, Pow2(width - 1));
      BitTimes((m + 1) % 2, Pow2(width - 1));
      assert m % 2 == 1 && (m + 1) % 2 == 0;
    }
  }

  lemma {:induction false} TakenMembers(n: nat, width: nat, positions: nat)
    requires positions <= Pow2(width)
    ensures forall x: nat :: x in Taken(n, width, positions) <==> x < n && x < Pow2(width) && Rev(x, width) < positions
    decreases positions
  {
    if positions > 0 {
      TakenMembers(n, width, positions - 1);
      var last := Rev(positions - 1, width);
      RevBound(positions - 1, width);
      RevTwice(positions - 1, width);
      forall x: nat | x < Pow2(width) && Rev(x, width) == positions - 1
        ensures x == last
      {
        RevTwice(x, width);
      }
    }
  }

  lemma {:induction false} TakenDistinct(n: nat, width: nat, positions: nat)
    requires positions <= Pow2(width)
    ensures forall i, j :: 0 <= i < j < |Taken(n, width, positions)| ==> Taken(n, width, positions)[i] != Taken(n, width, positions)[j]
    decreases positions
  {
    if positions > 0 {
      TakenDistinct(n, width, positions - 1);
      TakenMembers(n, width, positions - 1);
      RevTwice(positions - 1, width);
    }
  }

  lemma {:induction false} AllBelow(s: seq<nat>, n: nat)
    requires (forall i, j :: 0 <= i < j < |s| ==> s[i] != s[j]) && forall x: nat :: x in s <==> x < n
    ensures |s| == n
    decreases n
  {
    if n == 0 {
      if s != [] {
        Member(s);
      }
    } else {
      var top: nat := n - 1;
      assert top in s;
      var i :| 0 <= i < |s| && s[i] == top;
      var rest := s[..i] + s[i + 1..];
      forall x: nat
        ensures x in rest <==> x < n - 1
      {
        assert x in rest <==> x in s && x != n - 1;
      }
      AllBelow(rest, n - 1);
    }
  }

  lemma Member(s: seq<nat>)
    requires s != []
    ensures exists x: nat :: x in s
  {
    assert s[0] in s;
  }

  /** One round of positions takes every unit, once. */
  lemma RoundIsPermutation(n: nat, width: nat)
    requires Fits(n, width)
    ensures var s := Taken(n, width, Pow2(width));
      && |s| == n && (forall x: nat :: x in s <==> x < n)
      && forall i, j :: 0 <= i < j < |s| ==> s[i] != s[j]
  {
    TakenMembers(n, width, Pow2(width));
    TakenDistinct(n, width, Pow2(width));
    forall x: nat | x < n
      ensures x in Taken(n, width, Pow2(width))
    {
      RevBound(x, width);
    }
    AllBelow(Taken(n, width, Pow2(width)), n);
  }

  // ---- the sampler ----

  lemma {:induction false} TakenGrows(n: nat, width: nat, a: nat, b: nat)
    requires a <= b
    ensures |Taken(n, width, a)| <= |Taken(n, width, b)|
    decreases b - a
  {
    if a < b {
      TakenGrows(n, width, a, b - 1);
    }
  }

  /** sampleOrder. */
  class SampleOrder {
    const n: nat
    const width: nat
    var next: nat

    ghost predicate Valid() { n >= 1 && Fits(n, width) }

    /** newSampleOrder. */
    constructor (n: nat)
      requires n >= 1
      ensures Valid() && this.n == n && next == 0
    {
      var w := 0;
      var p := 1;
      if n > 1 {
        while p < n
          invariant p == Pow2(w) && (w > 0 ==> Pow2(w - 1) < n)
          decreases n - p
        {
          w, p := w + 1, 2 * p;
        }
      }
      this.n := n;
      width := w;
      next := 0;
    }

    /** One position's unit, built bit by bit. */
    method Reverse(position: nat) returns (index: nat)
      ensures index == Rev(position, width)
    {
      var m := position;
      index := 0;
      for i := 0 to width
        invariant Rev(position, width) == index * Pow2(width - i) + Rev(m, width - i)
      {
        Shifted(index, m % 2, Pow2(width - i - 1), Rev(m / 2, width - i - 1));
        index := 2 * index + m % 2;
        m := m / 2;
      }
    }

    /** take: the next position's unit, at most one position being skipped. */
    method Take() returns (index: nat)
      requires Valid()
      modifies this
      ensures old(next) < next <= old(next) + 2
      ensures index < n && index == Rev(next - 1, width)
      ensures Taken(n, width, next) == Taken(n, width, old(next)) + [index]
    {
      while true
        invariant old(next) <= next <= old(next) + 1
        invariant next == old(next) + 1 ==> Rev(old(next), width) >= n
        invariant Taken(n, width, next) == Taken(n, width, old(next))
        decreases old(next) + 2 - next
      {
        var m := next;
        next := next + 1;
        index := Reverse(m);
        if index < n { return; }
        if m > old(next) {
          SkippedOnce(old(next), n, width);
        }
      }
    }
  }

  lemma Shifted(index: nat, bit: nat, p: nat, rest: nat)
    ensures index * (2 * p) + (bit * p + rest) == (2 * index + bit) * p + rest
  {}

  // ---- one receiver's visit ----

  lemma RotatedApart(a: nat, b: nat, offset: nat, units: nat)
    requires a < b < units
    ensures (a + offset) % units != (b + offset) % units
  {
    NotMultiple((b + offset) / units - (a + offset) / units, units, b - a);
  }

  lemma NotMultiple(q: int, units: nat, d: nat)
    requires 0 < d < units
    ensures q * units != d
  {
    if q >= 1 {
      assert q * units >= units;
    } else {
      assert q * units <= 0;
    }
  }

  predicate Distinct(s: seq<nat>) { forall i, j :: 0 <= i < j < |s| ==> s[i] != s[j] }

  /** The units visited: those taken, from the receiver's own offset. */
  function Visited(taken: seq<nat>, offset: nat, units: nat): seq<nat>
    requires units > 0
  {
    seq(|taken|, i requires 0 <= i < |taken| => (taken[i] + offset) % units)
  }

  lemma VisitedDistinct(taken: seq<nat>, offset: nat, units: nat)
    requires units > 0 && Distinct(taken) && forall i :: 0 <= i < |taken| ==> taken[i] < units
    ensures Distinct(Visited(taken, offset, units))
  {
    forall i, j | 0 <= i < j < |taken|
      ensures Visited(taken, offset, units)[i] != Visited(taken, offset, units)[j]
    {
      if taken[i] < taken[j] {
        RotatedApart(taken[i], taken[j], offset, units);
      } else {
        RotatedApart(taken[j], taken[i], offset, units);
      }
    }
  }

  /** Fewer than all the units taken: the round is not over. */
  lemma RoundNotOver(n: nat, width: nat, before: nat, after: nat, index: nat)
    requires Fits(n, width) && before < after && |Taken(n, width, before)| < n
    requires Taken(n, width, after) == Taken(n, width, before) + [index] && index == Rev(after - 1, width) < n
    ensures after <= Pow2(width)
  {
    assert |Taken(n, width, after)| == |Taken(n, width, after - 1)| + 1;
    RoundIsPermutation(n, width);
    if after > Pow2(width) {
      TakenGrows(n, width, Pow2(width), after - 1);
    }
  }

  const MAX_BATCH_UNITS := 65536

  /** What the order has given so far, all of it within one round. */
  ghost predicate InRound(order: SampleOrder, taken: seq<nat>)
    reads order
  {
    order.Valid() && order.next <= Pow2(order.width) && taken == Taken(order.n, order.width, order.next)
  }

  /** One batch of units, timed together. */
  method TakeBatch(order: SampleOrder, offset: nat, size: nat, ghost before: seq<nat>) returns (visited: seq<nat>, ghost taken: seq<nat>)
    requires InRound(order, before) && |before| + size <= order.n
    modifies order
    ensures InRound(order, taken) && |taken| == |before| + size && before <= taken
    ensures visited == Visited(taken[|before|..], offset, order.n)
  {
    visited, taken := [], before;
    for i := 0 to size
      invariant InRound(order, taken) && |taken| == |before| + i && before <= taken
      invariant visited == Visited(taken[|before|..], offset, order.n)
    {
      ghost var next := order.next;
      var index := order.Take();
      RoundNotOver(order.n, order.width, next, order.next, index);
      assert (taken + [index])[|before|..] == taken[|before|..] + [index];
      taken := taken + [index];
      visited := visited + [(index + offset) % order.n];
    }
  }

  lemma VisitedMore(a: seq<nat>, b: seq<nat>, offset: nat, units: nat)
    requires units > 0 && a <= b
    ensures Visited(b, offset, units) == Visited(a, offset, units) + Visited(b[|a|..], offset, units)
  {}

  /** measureReceiver: batches of units from the receiver's offset until the time
      is up, the cap is met or every unit is timed; no unit is timed twice. */
  method MeasureReceiver(units: nat, offset: nat, cap: int, late: nat -> bool, quick: nat -> bool)
    returns (visited: seq<nat>, batches: nat, cutShort: bool)
    ensures Distinct(visited) && forall i :: 0 <= i < |visited| ==> visited[i] < units
    ensures |visited| <= units && (cap > 0 ==> |visited| <= cap)
    ensures !cutShort ==> |visited| == if 0 < cap < units then cap else units
    ensures units > 0 ==> |visited| > 0
  {
    visited, batches, cutShort := [], 0, false;
    if units == 0 { return; }
    var want := if 0 < cap < units then cap else units;
    var order := new SampleOrder(units);
    var batchSize := 1;
    ghost var taken: seq<nat> := [];
    while |visited| < want
      invariant fresh(order) && order.n == units && InRound(order, taken) && |taken| <= want
      invariant visited == Visited(taken, offset, units) && batchSize >= 1
      invariant batches > 0 <==> taken != []
      decreases want - |visited|
    {
      if batches > 0 && late(batches) {
        cutShort := true;
        break;
      }
      var size := if batchSize <= want - |visited| then batchSize else want - |visited|;
      ghost var before := taken;
      var batch;
      batch, taken := TakeBatch(order, offset, size, taken);
      VisitedMore(before, taken, offset, units);
      visited, batches := visited + batch, batches + 1;
      if quick(batches) && batchSize < MAX_BATCH_UNITS {
        batchSize := 2 * batchSize;
      }
    }
    RoundApart(taken, units, order.width, order.next);
    VisitedDistinct(taken, offset, units);
  }

  lemma RoundApart(taken: seq<nat>, n: nat, width: nat, positions: nat)
    requires taken == Taken(n, width, positions) && positions <= Pow2(width)
    ensures Distinct(taken) && forall i :: 0 <= i < |taken| ==> taken[i] < n
  {
    TakenDistinct(n, width, positions);
    TakenBelow(taken, n, width, positions);
  }

  lemma TakenBelow(taken: seq<nat>, n: nat, width: nat, positions: nat)
    requires taken == Taken(n, width, positions) && positions <= Pow2(width)
    ensures forall i :: 0 <= i < |taken| ==> taken[i] < n
  {
    TakenMembers(n, width, positions);
    forall i | 0 <= i < |taken|
      ensures taken[i] < n
    {
      assert taken[i] in taken;
    }
  }
}
