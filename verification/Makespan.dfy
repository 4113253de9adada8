/** How long a run's chunks take on its workers, replayed as they are handed out,
    and the bands an estimate reports around it. */
module Makespan {
  import opened Geometry
  import opened Partition

  datatype Schedule = Pull | Sharded

  function SumOf(costs: seq<real>): real {
    if costs == [] then 0.0 else SumOf(costs[..|costs| - 1]) + costs[|costs| - 1]
  }

  function Largest(costs: seq<real>): real {
    if costs == [] then 0.0 else Max(Largest(costs[..|costs| - 1]), costs[|costs| - 1])
  }

  predicate NonNegative(costs: seq<real>) { forall i :: 0 <= i < |costs| ==> costs[i] >= 0.0 }

  /** earliest: the first of the least loaded workers. */
  method Earliest(finish: array<real>) returns (best: nat)
    requires finish.Length > 0
    ensures best < finish.Length
    ensures forall w :: 0 <= w < finish.Length ==> finish[best] <= finish[w]
    ensures forall w :: 0 <= w < best ==> finish[best] < finish[w]
  {
    best := 0;
    for i := 0 to finish.Length
      invariant best < finish.Length && (i == 0 ==> best == 0) && (i > 0 ==> best < i)
      invariant forall w :: 0 <= w < i ==> finish[best] <= finish[w]
      invariant forall w :: 0 <= w < best ==> finish[best] < finish[w]
    {
      if finish[i] < finish[best] {
        best := i;
      }
    }
  }

  // ---- the bound of list scheduling ----

  /** No worker is busier than the bound allows for what has been handed out. */
  predicate Balanced(finish: seq<real>, total: real, largest: real) {
    && |finish| > 0 && total >= 0.0 && largest >= 0.0
    && forall w :: 0 <= w < |finish| ==> Fair(|finish| as real, finish[w], total, largest)
  }

  predicate Fair(m: real, load: real, total: real, largest: real) { m * load <= total + (m - 1.0) * largest }

  lemma BalanceStep(m: real, least: real, cost: real, total: real, largest: real)
    requires m >= 1.0 && cost >= 0.0 && m * least <= total && largest >= cost
    ensures Fair(m, least + cost, total + cost, largest)
  {
    MulMono(cost, largest, m - 1.0);
    assert m * (least + cost) == m * least + m * cost;
    assert m * cost == cost + cost * (m - 1.0);
  }

  lemma BalanceKeeps(m: real, load: real, cost: real, total: real, largest: real, more: real)
    requires m >= 1.0 && cost >= 0.0 && Fair(m, load, total, largest) && largest <= more
    ensures Fair(m, load, total + cost, more)
  {
    MulMono(largest, more, m - 1.0);
  }

  lemma {:induction false} SumUpdated(s: seq<real>, i: nat, x: real)
    requires i < |s|
    ensures SumOf(s[i := x]) == SumOf(s) - s[i] + x
  {
    var n := |s| - 1;
    if i < n {
      assert s[i := x][..n] == s[..n][i := x];
      SumUpdated(s[..n], i, x);
    } else {
      assert s[i := x][..n] == s[..n];
    }
  }

  lemma {:induction false} SumAtLeast(s: seq<real>, least: real)
    requires forall i :: 0 <= i < |s| ==> least <= s[i]
    ensures |s| as real * least <= SumOf(s)
  {
    if s != [] {
      SumAtLeast(s[..|s| - 1], least);
      OneMore(|s| as real - 1.0, least);
    }
  }

  lemma OneMore(n: real, x: real)
    ensures (n + 1.0) * x == n * x + x
  {}

  lemma {:induction false} SumAtMost(s: seq<real>, most: real)
    requires forall i :: 0 <= i < |s| ==> s[i] <= most
    ensures SumOf(s) <= |s| as real * most
  {
    if s != [] {
      SumAtMost(s[..|s| - 1], most);
      OneMore(|s| as real - 1.0, most);
    }
  }

  /** Handing the least loaded worker the next chunk keeps the balance. */
  lemma HandOut(finish: seq<real>, best: nat, cost: real, total: real, largest: real)
    requires Balanced(finish, total, largest) && best < |finish| && cost >= 0.0 && SumOf(finish) == total
    requires forall w :: 0 <= w < |finish| ==> finish[best] <= finish[w]
    ensures Balanced(finish[best := finish[best] + cost], total + cost, Max(largest, cost))
    ensures SumOf(finish[best := finish[best] + cost]) == total + cost
  {
    var m, after := |finish| as real, finish[best := finish[best] + cost];
    SumUpdated(finish, best, finish[best] + cost);
    SumAtLeast(finish, finish[best]);
    forall w | 0 <= w < |after|
      ensures Fair(m, after[w], total + cost, Max(largest, cost))
    {
      if w == best {
        BalanceStep(m, finish[best], cost, total, Max(largest, cost));
      } else {
        BalanceKeeps(m, finish[w], cost, total, largest, Max(largest, cost));
      }
    }
  }

  // ---- the replay ----

  /** What the worker of this index has been handed, chunk i going to worker i mod m. */
  function Dealt(costs: seq<real>, worker: int, m: int): real
    requires m > 0
  {
    if costs == [] then 0.0
    else Dealt(costs[..|costs| - 1], worker, m) + if (|costs| - 1) % m == worker then costs[|costs| - 1] else 0.0
  }

  /** The span is some worker's load, and no worker's is longer. */
  ghost predicate IsLongest(span: real, finish: seq<real>) {
    (forall w :: 0 <= w < |finish| ==> finish[w] <= span) && exists w :: 0 <= w < |finish| && finish[w] == span
  }

  method Longest(finish: array<real>) returns (span: real)
    requires finish.Length > 0 && NonNegative(finish[..])
    ensures IsLongest(span, finish[..])
  {
    span := 0.0;
    ghost var at := 0;
    for w := 0 to finish.Length
      invariant span >= 0.0 && (w == 0 ==> span == 0.0)
      invariant w > 0 ==> 0 <= at < w && finish[at] == span
      invariant forall v :: 0 <= v < w ==> finish[v] <= span
    {
      assert finish[..][w] >= 0.0;
      if finish[w] >= span {
        at := w;
      }
      span := Max(span, finish[w]);
    }
    assert finish[..][at] == span;
  }

  /** Some worker carries at least this much. */
  ghost predicate Carried(load: seq<real>, cost: real) { exists w :: 0 <= w < |load| && cost <= load[w] }

  /** The loads after these chunks have been handed out. */
  ghost predicate Handed(load: seq<real>, costs: seq<real>, schedule: Schedule) {
    && |load| > 0 && NonNegative(load) && SumOf(load) == SumOf(costs)
    && (schedule.Pull? ==> Balanced(load, SumOf(costs), Largest(costs)))
    && (schedule.Sharded? ==> forall w :: 0 <= w < |load| ==> load[w] == Dealt(costs, w, |load|))
    && forall j :: 0 <= j < |costs| ==> Carried(load, costs[j])
  }

  lemma CarriedStays(load: seq<real>, worker: nat, more: real, cost: real)
    requires worker < |load| && more >= 0.0 && Carried(load, cost)
    ensures Carried(load[worker := load[worker] + more], cost)
  {
    var w :| 0 <= w < |load| && cost <= load[w];
    assert cost <= load[worker := load[worker] + more][w];
  }

  lemma Snoc(costs: seq<real>, cost: real)
    ensures SumOf(costs + [cost]) == SumOf(costs) + cost && Largest(costs + [cost]) == Max(Largest(costs), cost)
    ensures forall w: int, m: int :: m > 0 ==> Dealt(costs + [cost], w, m) == Dealt(costs, w, m) + if |costs| % m == w then cost else 0.0
  {
    assert (costs + [cost])[..|costs|] == costs;
  }

  lemma HandedNext(load: seq<real>, costs: seq<real>, schedule: Schedule, cost: real, worker: nat)
    requires Handed(load, costs, schedule) && cost >= 0.0 && worker < |load|
    requires schedule.Pull? ==> forall w :: 0 <= w < |load| ==> load[worker] <= load[w]
    requires schedule.Sharded? ==> worker == |costs| % |load|
    ensures Handed(load[worker := load[worker] + cost], costs + [cost], schedule)
  {
    var after := load[worker := load[worker] + cost];
    Snoc(costs, cost);
    SumUpdated(load, worker, load[worker] + cost);
    if schedule.Pull? {
      HandOut(load, worker, cost, SumOf(costs), Largest(costs));
    }
    forall j | 0 <= j < |costs| + 1
      ensures Carried(after, (costs + [cost])[j])
    {
      if j < |costs| {
        CarriedStays(load, worker, cost, costs[j]);
      } else {
        assert cost <= after[worker];
      }
    }
  }

  lemma {:induction false} SumPositive(s: seq<real>)
    requires NonNegative(s)
    ensures SumOf(s) >= 0.0
  {
    if s != [] {
      SumPositive(s[..|s| - 1]);
    }
  }

  lemma {:induction false} LargestIs(costs: seq<real>)
    requires NonNegative(costs)
    ensures Largest(costs) >= 0.0 && forall i :: 0 <= i < |costs| ==> costs[i] <= Largest(costs)
    ensures costs != [] ==> exists i :: 0 <= i < |costs| && costs[i] == Largest(costs)
    ensures Largest(costs) <= SumOf(costs)
  {
    if costs != [] {
      LargestIs(costs[..|costs| - 1]);
      SumPositive(costs[..|costs| - 1]);
      if costs[|costs| - 1] >= Largest(costs[..|costs| - 1]) {
        assert costs[|costs| - 1] == Largest(costs);
      } else {
        var i :| 0 <= i < |costs| - 1 && costs[..|costs| - 1][i] == Largest(costs[..|costs| - 1]);
        assert costs[i] == Largest(costs);
      }
    }
  }

  /** A span between the average load, the largest chunk, and, when workers pull,
      the average plus all but one share of the largest chunk. */
  ghost predicate WithinBounds(span: real, total: real, largest: real, m: real, pull: bool) {
    total <= m * span && largest <= span && span <= total && (pull ==> m * span <= total + (m - 1.0) * largest)
  }

  lemma SpanWithin(chunkCost: seq<real>, finish: seq<real>, span: real, schedule: Schedule)
    requires Handed(finish, chunkCost, schedule) && IsLongest(span, finish) && NonNegative(chunkCost) && chunkCost != []
    ensures WithinBounds(span, SumOf(chunkCost), Largest(chunkCost), |finish| as real, schedule.Pull?)
  {
    SumAtMost(finish, span);
    LargestIs(chunkCost);
    LargestIs(finish);
    var i :| 0 <= i < |chunkCost| && chunkCost[i] == Largest(chunkCost);
    assert Carried(finish, chunkCost[i]);
    var w :| 0 <= w < |finish| && finish[w] == span;
    assert schedule.Pull? ==> Fair(|finish| as real, finish[w], SumOf(chunkCost), Largest(chunkCost));
  }

  /** What each of m workers is dealt. */
  function DealtLoads(costs: seq<real>, m: nat): seq<real>
    requires m > 0
  {
    seq(m, w requires 0 <= w < m => Dealt(costs, w, m))
  }

  /** Hands one worker the next chunk. */
  method Hand(load: array<real>, worker: nat, cost: real, ghost before: seq<real>, schedule: Schedule)
    requires worker < load.Length && cost >= 0.0 && Handed(load[..], before, schedule)
    requires schedule.Pull? ==> forall w :: 0 <= w < load.Length ==> load[worker] <= load[w]
    requires schedule.Sharded? ==> worker == |before| % load.Length
    modifies load
    ensures Handed(load[..], before + [cost], schedule)
  {
    ghost var was := load[..];
    HandedNext(was, before, schedule, cost, worker);
    load[worker] := load[worker] + cost;
    assert load[..] == was[worker := was[worker] + cost];
  }

  lemma PrefixNext(s: seq<real>, i: nat)
    requires i < |s|
    ensures s[..i + 1] == s[..i] + [s[i]]
  {}

  /** The chunks on the workers, pulled as workers free up or dealt in turn. */
  method Replay(chunkCost: seq<real>, workers: nat, schedule: Schedule) returns (span: real)
    requires workers > 1 && |chunkCost| > 1 && NonNegative(chunkCost)
    ensures WithinBounds(span, SumOf(chunkCost), Largest(chunkCost), MinInt(workers, |chunkCost|) as real, schedule.Pull?)
    ensures schedule.Sharded? ==> IsLongest(span, DealtLoads(chunkCost, MinInt(workers, |chunkCost|)))
  {
    var m := MinInt(workers, |chunkCost|);
    var load := new real[m](_ => 0.0);
    AllZero(load[..]);
    assert Handed(load[..], chunkCost[..0], schedule);
    for i := 0 to |chunkCost|
      invariant Handed(load[..], chunkCost[..i], schedule)
    {
      var worker := i % m;
      if schedule == Pull {
        worker := Earliest(load);
      }
      PrefixNext(chunkCost, i);
      Hand(load, worker, chunkCost[i], chunkCost[..i], schedule);
    }
    assert chunkCost[..|chunkCost|] == chunkCost;
    span := Longest(load);
    Replayed(load[..], chunkCost, schedule, span);
  }

  lemma Replayed(load: seq<real>, chunkCost: seq<real>, schedule: Schedule, span: real)
    requires Handed(load, chunkCost, schedule) && IsLongest(span, load) && NonNegative(chunkCost) && chunkCost != []
    ensures WithinBounds(span, SumOf(chunkCost), Largest(chunkCost), |load| as real, schedule.Pull?)
    ensures schedule.Sharded? ==> IsLongest(span, DealtLoads(chunkCost, |load|))
  {
    SpanWithin(chunkCost, load, span, schedule);
    assert schedule.Sharded? ==> load == DealtLoads(chunkCost, |load|);
  }

  lemma {:induction false} AllZero(s: seq<real>)
    requires forall i :: 0 <= i < |s| ==> s[i] == 0.0
    ensures SumOf(s) == 0.0
  {
    if s != [] {
      AllZero(s[..|s| - 1]);
    }
  }

  // ---- the whole run ----

  function ChunkCosts(costs: seq<real>, chunks: seq<Chunk>): seq<real>
    requires forall k :: 0 <= k < |chunks| ==> chunks[k].start <= chunks[k].end <= |costs|
  {
    seq(|chunks|, k requires 0 <= k < |chunks| => SumOf(costs[chunks[k].start..chunks[k].end]))
  }

  /** What each chunk of the run costs. */
  function RunCosts(costs: seq<real>, workers: int): seq<real>
    requires costs != []
  {
    ChunksInside(|costs|, Size(|costs|, workers));
    ChunkCosts(costs, Chunks(|costs|, Size(|costs|, workers)))
  }

  lemma ChunksInside(total: nat, size: nat)
    requires size > 0
    ensures forall k :: 0 <= k < |Chunks(total, size)| ==> Chunks(total, size)[k].start <= Chunks(total, size)[k].end <= total
  {
    forall k | 0 <= k < |Chunks(total, size)|
      ensures Chunks(total, size)[k].start <= Chunks(total, size)[k].end <= total
    {
      ChunksChain(total, size, k);
    }
  }

  lemma {:induction false} SumBoth(a: seq<real>, b: seq<real>)
    ensures SumOf(a + b) == SumOf(a) + SumOf(b)
    decreases |b|
  {
    if b == [] {
      assert a + b == a;
    } else {
      assert (a + b)[..|a + b| - 1] == a + b[..|b| - 1];
      SumBoth(a, b[..|b| - 1]);
    }
  }

  /** The chunks' costs add up to the receivers'. */
  lemma {:induction false} CostsAddUpto(costs: seq<real>, workers: int, k: nat)
    requires costs != [] && k <= |RunCosts(costs, workers)|
    ensures var c := Chunks(|costs|, Size(|costs|, workers));
            var upto := if k < |c| then c[k].start else |costs|;
            upto <= |costs| && SumOf(RunCosts(costs, workers)[..k]) == SumOf(costs[..upto])
    decreases k
  {
    var size := Size(|costs|, workers);
    var c := Chunks(|costs|, size);
    ChunksInside(|costs|, size);
    CountIs(|costs|, size, 0);
    if k > 0 {
      CostsAddUpto(costs, workers, k - 1);
      ChunksChain(|costs|, size, k - 1);
      SumSlice(costs, c[k - 1].start, c[k - 1].end);
      SumNext(RunCosts(costs, workers), k - 1);
    }
  }

  lemma SumSlice(s: seq<real>, lo: nat, hi: nat)
    requires lo <= hi <= |s|
    ensures SumOf(s[..hi]) == SumOf(s[..lo]) + SumOf(s[lo..hi])
  {
    SumBoth(s[..lo], s[lo..hi]);
    assert s[..hi] == s[..lo] + s[lo..hi];
  }

  lemma SumNext(s: seq<real>, k: nat)
    requires k < |s|
    ensures SumOf(s[..k + 1]) == SumOf(s[..k]) + s[k]
  {
    assert s[..k + 1][..k] == s[..k];
  }

  lemma CostsAdd(costs: seq<real>, workers: int)
    requires costs != []
    ensures SumOf(RunCosts(costs, workers)) == SumOf(costs)
  {
    var r := RunCosts(costs, workers);
    CostsAddUpto(costs, workers, |r|);
    assert r[..|r|] == r && costs[..|costs|] == costs;
  }

  lemma CostsPositive(costs: seq<real>, workers: int)
    requires costs != [] && NonNegative(costs)
    ensures NonNegative(RunCosts(costs, workers)) && RunCosts(costs, workers) != []
  {
    var c := Chunks(|costs|, Size(|costs|, workers));
    CountIs(|costs|, Size(|costs|, workers), 0);
    forall k | 0 <= k < |c|
      ensures RunCosts(costs, workers)[k] >= 0.0
    {
      ChunksInside(|costs|, Size(|costs|, workers));
      SumPositive(costs[c[k].start..c[k].end]);
    }
  }

  /** The least workers the chunks keep busy, between one and all. */
  function Busy(costs: seq<real>, workers: int): int
    requires costs != []
  {
    if workers <= 1 || |RunCosts(costs, workers)| <= 1 then 1 else MinInt(workers, |RunCosts(costs, workers)|)
  }

  /** makespan. */
  method RunSpan(costs: seq<real>, workers: int, schedule: Schedule) returns (span: real)
    requires NonNegative(costs)
    ensures costs == [] ==> span == 0.0
    ensures costs != [] ==> WithinBounds(span, SumOf(costs), Largest(RunCosts(costs, workers)), Busy(costs, workers) as real, schedule.Pull?)
    ensures costs != [] && Busy(costs, workers) > 1 && schedule.Sharded? ==>
      IsLongest(span, DealtLoads(RunCosts(costs, workers), Busy(costs, workers)))
  {
    if |costs| == 0 { return 0.0; }
    var chunkCost := CostChunks(costs, workers);
    CostsAdd(costs, workers);
    CostsPositive(costs, workers);
    if workers <= 1 || |chunkCost| <= 1 {
      span := Total(chunkCost);
      LargestIs(chunkCost);
      return;
    }
    span := Replay(chunkCost, workers, schedule);
  }

  method Total(costs: seq<real>) returns (total: real)
    ensures total == SumOf(costs)
  {
    total := 0.0;
    for i := 0 to |costs|
      invariant total == SumOf(costs[..i])
    {
      assert costs[..i + 1][..i] == costs[..i];
      total := total + costs[i];
    }
    assert costs[..|costs|] == costs;
  }

  method CostChunks(costs: seq<real>, workers: int) returns (chunkCost: seq<real>)
    requires costs != []
    ensures chunkCost == RunCosts(costs, workers)
  {
    var chunks := Over(|costs|, Size(|costs|, workers));
    ChunksInside(|costs|, Size(|costs|, workers));
    chunkCost := [];
    for k := 0 to |chunks|
      invariant chunkCost == RunCosts(costs, workers)[..k]
    {
      var c := Total(costs[chunks[k].start..chunks[k].end]);
      chunkCost := chunkCost + [c];
    }
  }

  // ---- the sharded span ----

  lemma {:induction false} SameDeal(costs: seq<real>, w: nat, workers: nat, m: nat)
    requires workers > 1 && m > 0 && (m == workers || |costs| <= m < workers)
    ensures w < m ==> Dealt(costs, w, workers) == Dealt(costs, w, m)
    ensures m <= w < workers ==> Dealt(costs, w, workers) == 0.0
  {
    if costs != [] {
      SameDeal(costs[..|costs| - 1], w, workers, m);
      if m < workers {
        SmallMod(|costs| - 1, workers);
        SmallMod(|costs| - 1, m);
      }
    }
  }

  lemma SmallMod(i: nat, m: nat)
    requires i < m
    ensures i % m == i
  {}

  predicate Inside(chunks: seq<Chunk>, total: nat) { forall k :: 0 <= k < |chunks| ==> chunks[k].start <= chunks[k].end <= total }

  lemma CostsSnoc(costs: seq<real>, chunks: seq<Chunk>, c: Chunk)
    requires Inside(chunks, |costs|) && c.start <= c.end <= |costs|
    ensures Inside(chunks + [c], |costs|)
    ensures ChunkCosts(costs, chunks + [c]) == ChunkCosts(costs, chunks) + [SumOf(costs[c.start..c.end])]
  {}

  /** What a shard's own chunks cost is what the replay deals it. */
  lemma {:induction false} ShardCosts(costs: seq<real>, chunks: seq<Chunk>, shard: nat, shards: nat)
    requires shards > 0 && Inside(chunks, |costs|) && forall k :: 0 <= k < |chunks| ==> chunks[k].index == k
    ensures Inside(Partition.Dealt(chunks, shard, shards), |costs|)
    ensures SumOf(ChunkCosts(costs, Partition.Dealt(chunks, shard, shards))) == Dealt(ChunkCosts(costs, chunks), shard, shards)
  {
    if chunks != [] {
      var n := |chunks| - 1;
      ShardCosts(costs, chunks[..n], shard, shards);
      ShardCostsNext(costs, chunks[..n], chunks[n], shard, shards);
      assert chunks == chunks[..n] + [chunks[n]];
    }
  }

  lemma ShardCostsNext(costs: seq<real>, chunks: seq<Chunk>, c: Chunk, shard: nat, shards: nat)
    requires shards > 0 && Inside(chunks, |costs|) && c.start <= c.end <= |costs| && c.index == |chunks|
    requires Inside(Partition.Dealt(chunks, shard, shards), |costs|)
    requires SumOf(ChunkCosts(costs, Partition.Dealt(chunks, shard, shards))) == Dealt(ChunkCosts(costs, chunks), shard, shards)
    ensures Inside(chunks + [c], |costs|) && Inside(Partition.Dealt(chunks + [c], shard, shards), |costs|)
    ensures SumOf(ChunkCosts(costs, Partition.Dealt(chunks + [c], shard, shards))) == Dealt(ChunkCosts(costs, chunks + [c]), shard, shards)
  {
    var mine, cost := Partition.Dealt(chunks, shard, shards), SumOf(costs[c.start..c.end]);
    assert (chunks + [c])[..|chunks|] == chunks;
    CostsSnoc(costs, chunks, c);
    CostsSnoc(costs, mine, c);
    Snoc(ChunkCosts(costs, chunks), cost);
    Snoc(ChunkCosts(costs, mine), cost);
  }

  /** The load ForShard gives one shard of the pool. */
  function ShardLoad(costs: seq<real>, shard: nat, workers: nat): real
    requires costs != [] && workers > 1
  {
    Dealt(RunCosts(costs, workers), shard, workers)
  }

  /** It is what the shard's own chunks cost. */
  lemma ShardLoadIs(costs: seq<real>, shard: nat, workers: nat)
    requires costs != [] && shard < workers && workers > 1
    ensures var mine := ChunksForShard(|costs|, Size(|costs|, workers), shard, workers);
            Inside(mine, |costs|) && ShardLoad(costs, shard, workers) == SumOf(ChunkCosts(costs, mine))
  {
    var size := Size(|costs|, workers);
    ChunksInside(|costs|, size);
    forall k | 0 <= k < |Chunks(|costs|, size)|
      ensures Chunks(|costs|, size)[k].index == k
    {
      ChunksChain(|costs|, size, k);
    }
    ShardCosts(costs, Chunks(|costs|, size), shard, workers);
  }

  /** The sharded span is the largest load ForShard gives any shard. */
  lemma ShardedSpan(costs: seq<real>, workers: nat, span: real)
    requires NonNegative(costs) && costs != [] && workers > 1 && Busy(costs, workers) > 1
    requires IsLongest(span, DealtLoads(RunCosts(costs, workers), Busy(costs, workers)))
    ensures forall w: nat :: w < workers ==> ShardLoad(costs, w, workers) <= span
    ensures exists w: nat :: w < workers && ShardLoad(costs, w, workers) == span
  {
    var r, m := RunCosts(costs, workers), Busy(costs, workers);
    var finish := DealtLoads(r, m);
    CostsPositive(costs, workers);
    forall w: nat | w < workers
      ensures ShardLoad(costs, w, workers) == if w < m then finish[w] else 0.0
    {
      SameDeal(r, w, workers, m);
    }
    var w :| 0 <= w < |finish| && finish[w] == span;
    assert ShardLoad(costs, w, workers) == span;
    DealtPositive(r, w, m);
  }

  lemma {:induction false} DealtPositive(costs: seq<real>, w: int, m: int)
    requires m > 0 && NonNegative(costs)
    ensures Dealt(costs, w, m) >= 0.0
  {
    if costs != [] {
      DealtPositive(costs[..|costs| - 1], w, m);
    }
  }

  // ---- the bands ----

  const BAND_SIGMAS: real := 2.0
  const SYSTEMATIC_FACTOR: real := 1.15
  const PARALLEL_EFFICIENCY: real := 0.8
  const WORST_PARALLEL_EFFICIENCY: real := 0.55

  datatype Band = Band(low: real, estimate: real, high: real) {
    predicate Ordered() { low <= estimate <= high }
  }

  /** bandAround. */
  function BandAround(point: real, rel: real): Band
    requires rel >= 0.0
  {
    var widen := (1.0 + BAND_SIGMAS * rel) * SYSTEMATIC_FACTOR;
    Band(point / widen, point, point * widen)
  }

  lemma BandIsOrdered(point: real, rel: real)
    requires point >= 0.0 && rel >= 0.0
    ensures BandAround(point, rel).Ordered() && (point > 0.0 ==> BandAround(point, rel).low > 0.0)
  {
    WidenOrders(point, (1.0 + BAND_SIGMAS * rel) * SYSTEMATIC_FACTOR);
  }

  lemma WidenOrders(point: real, widen: real)
    requires point >= 0.0 && widen >= 1.0
    ensures point / widen <= point <= point * widen && (point > 0.0 ==> point / widen > 0.0)
  {
    MulMono(1.0, widen, point);
    DivCompare(point, point, widen);
    DivCompare(point, 0.0, widen);
  }

  /** The band reaches as many times over its point as under it: 1.15 for a sum
      without spread, and twice the relative error more. */
  lemma BandSpreads(point: real, rel: real)
    requires rel >= 0.0
    ensures var b, times := BandAround(point, rel), 1.15 + 2.3 * rel;
            b.estimate == point && b.high == times * point && Times(b.low, times) == point
  {
    var widen := (1.0 + BAND_SIGMAS * rel) * SYSTEMATIC_FACTOR;
    assert widen == 1.15 + 2.3 * rel;
    DivMul(point, widen);
  }

  function Efficiency(workers: int, receivers: nat, several: real): real { if workers > 1 && receivers > 1 then several else 1.0 }

  /** wallBand, around the span of the run's schedule. */
  function WallBand(span: real, prepare: real, cpu: Band, workers: int, receivers: nat): Band {
    if cpu.estimate <= 0.0 then Band(prepare, prepare, prepare)
    else Stretched(span, prepare, cpu, Efficiency(workers, receivers, PARALLEL_EFFICIENCY), Efficiency(workers, receivers, WORST_PARALLEL_EFFICIENCY))
  }

  function Stretched(span: real, prepare: real, cpu: Band, point: real, worst: real): Band
    requires cpu.estimate > 0.0 && point > 0.0 && worst > 0.0
  {
    Band(prepare + Rescaled(span, cpu.low, cpu.estimate), prepare + Quotient(span, point), prepare + Quotient(Rescaled(span, cpu.high, cpu.estimate), worst))
  }

  function Rescaled(span: real, k: real, est: real): real
    requires est > 0.0
  {
    Quotient(Times(span, k), est)
  }

  function Quotient(a: real, b: real): real
    requires b > 0.0
  {
    a / b
  }

  lemma ScaledSpan(span: real, k: real, est: real)
    requires span >= 0.0 && est > 0.0
    ensures k <= est ==> Rescaled(span, k, est) <= span
    ensures k >= est ==> Rescaled(span, k, est) >= span
  {
    if k <= est {
      MulMono(k, est, span);
    }
    if k >= est {
      MulMono(est, k, span);
    }
    QuotientCompares(Times(span, k), span, est);
  }

  lemma QuotientCompares(a: real, k: real, c: real)
    requires c > 0.0
    ensures Quotient(a, c) <= k <==> a <= Times(k, c)
    ensures Quotient(a, c) >= k <==> a >= Times(k, c)
  {
    DivCompare(a, k, c);
  }

  lemma EfficiencyOrders(span: real, more: real, point: real, worst: real)
    requires 0.0 <= span <= more && 0.0 < worst <= point <= 1.0
    ensures span <= Quotient(span, point) <= Quotient(more, worst)
  {
    MulMono(point, 1.0, span);
    DivCompare(span, span, point);
    var q := more / worst;
    DivMul(more, worst);
    DivMono(0.0, more, worst);
    MulMono(worst, point, q);
    DivCompare(span, q, point);
  }

  lemma StretchedIsOrdered(span: real, prepare: real, cpu: Band, point: real, worst: real)
    requires span >= 0.0 && cpu.Ordered() && cpu.estimate > 0.0 && 0.0 < worst <= point <= 1.0
    ensures Stretched(span, prepare, cpu, point, worst).Ordered()
    ensures Stretched(span, prepare, cpu, point, worst).estimate - prepare >= span
  {
    ScaledSpan(span, cpu.low, cpu.estimate);
    ScaledSpan(span, cpu.high, cpu.estimate);
    EfficiencyOrders(span, Rescaled(span, cpu.high, cpu.estimate), point, worst);
  }

  /** The wall band holds its estimate, and the estimate the span. */
  lemma WallBandIsOrdered(span: real, prepare: real, cpu: Band, workers: int, receivers: nat)
    requires span >= 0.0 && cpu.Ordered()
    ensures WallBand(span, prepare, cpu, workers, receivers).Ordered()
    ensures cpu.estimate > 0.0 ==> WallBand(span, prepare, cpu, workers, receivers).estimate - prepare >= span
  {
    if cpu.estimate > 0.0 {
      StretchedIsOrdered(span, prepare, cpu, Efficiency(workers, receivers, PARALLEL_EFFICIENCY), Efficiency(workers, receivers, WORST_PARALLEL_EFFICIENCY));
    }
  }

  /** Beyond the preparation, the low wall time is the span's share of the low cost,
      the estimate the span at 0.8 of perfect scaling, and the high one the share
      of the high cost at 0.55; one worker or one receiver scales perfectly. */
  lemma WallBandSpreads(span: real, prepare: real, cpu: Band, workers: int, receivers: nat)
    requires cpu.estimate > 0.0
    ensures var w := WallBand(span, prepare, cpu, workers, receivers);
            var several := workers > 1 && receivers > 1;
            && Times(w.low - prepare, cpu.estimate) == Times(span, cpu.low)
            && Times(w.estimate - prepare, if several then 0.8 else 1.0) == span
            && Times(Times(w.high - prepare, if several then 0.55 else 1.0), cpu.estimate) == Times(span, cpu.high)
  {
    var several := workers > 1 && receivers > 1;
    QuotientTimes(Times(span, cpu.low), cpu.estimate);
    QuotientTimes(span, if several then 0.8 else 1.0);
    QuotientTimes(Rescaled(span, cpu.high, cpu.estimate), if several then 0.55 else 1.0);
    QuotientTimes(Times(span, cpu.high), cpu.estimate);
  }

  lemma QuotientTimes(a: real, c: real)
    requires c > 0.0
    ensures Times(Quotient(a, c), c) == a
  {
    DivMul(a, c);
  }

  /** parallelism. */
  function Parallelism(cpu: real, wall: real): real { if wall <= 0.0 || cpu <= 0.0 then 1.0 else Quotient(cpu, wall) }

  /** The chunks keep at least one worker busy and at most all of them. */
  lemma BusyBounds(costs: seq<real>, workers: int)
    requires costs != [] && NonNegative(costs) && workers >= 1
    ensures 1 <= Busy(costs, workers) <= workers
  {
    CostsPositive(costs, workers);
  }

  /** The parallelism reported for a span within its bounds on m of the workers
      never exceeds the worker count. */
  lemma ParallelismBound(total: real, m: real, workers: int, span: real, prepare: real, cpu: Band, receivers: nat)
    requires 1.0 <= m <= workers as real && total <= m * span && cpu.Ordered() && cpu.estimate == total
    ensures Parallelism(total, WallBand(span, prepare, cpu, workers, receivers).estimate - prepare) <= workers as real
  {
    if total > 0.0 {
      SpanPositive(total, m, span);
      WallBandIsOrdered(span, prepare, cpu, workers, receivers);
      LoadShared(total, m, workers as real, span, WallBand(span, prepare, cpu, workers, receivers).estimate - prepare);
    }
  }

  lemma LoadShared(total: real, m: real, workers: real, span: real, wall: real)
    requires 1.0 <= m <= workers && total <= m * span && 0.0 < span <= wall
    ensures Quotient(total, wall) <= workers
  {
    MulMono(m, workers, span);
    MulMono(span, wall, workers);
    DivCompare(total, workers, wall);
  }

  lemma SpanPositive(total: real, m: real, span: real)
    requires total > 0.0 && m >= 1.0 && total <= m * span
    ensures span > 0.0
  {
    if span <= 0.0 {
      MulMono(span, 0.0, m);
    }
  }

  // ---- the estimate ----

  datatype Estimate = Estimate(cpu: Band, wall: Band, parallelism: real)

  /** extrapolate, from the receivers' costs and the relative error of their sum
      on: both bands are in order, the wall band's estimate allows for the
      preparation, an even share of the cost and the largest chunk, and no more
      workers are reported busy than there are. */
  method Extrapolate(costs: seq<real>, rel: real, workers: int, prepare: real, schedule: Schedule) returns (e: Estimate)
    requires NonNegative(costs) && rel >= 0.0
    ensures e.cpu.Ordered() && e.cpu.estimate == SumOf(costs)
    ensures e.wall.Ordered() && e.wall.estimate >= prepare
    ensures SumOf(costs) > 0.0 ==>
      Allows(e.wall.estimate - prepare, SumOf(costs), Largest(RunCosts(costs, MaxInt(workers, 1))), Busy(costs, MaxInt(workers, 1)) as real)
    ensures e.parallelism <= MaxInt(workers, 1) as real
    ensures SumOf(costs) == 0.0 ==> e.wall == Band(prepare, prepare, prepare) && e.parallelism == 1.0
  {
    var used := MaxInt(workers, 1);
    var total := Total(costs);
    var cpu := BandAround(total, rel);
    var span := RunSpan(costs, used, schedule);
    var wall := WallBand(span, prepare, cpu, used, |costs|);
    e := Estimate(cpu, wall, Parallelism(total, wall.estimate - prepare));
    SumPositive(costs);
    BandIsOrdered(total, rel);
    if total > 0.0 {
      assert costs != [];
      BusyBounds(costs, used);
      EstimateHolds(total, Largest(RunCosts(costs, used)), Busy(costs, used) as real, used, span, prepare, cpu, |costs|, schedule.Pull?);
    }
  }

  function MaxInt(a: int, b: int): int { if a >= b then a else b }

  /** Long enough for an even share of the cost on m workers, and for the largest chunk. */
  predicate Allows(wall: real, total: real, largest: real, m: real) { total <= Times(m, wall) && largest <= wall }

  /** What a wall time of at least the span allows for. */
  lemma EstimateHolds(total: real, largest: real, m: real, workers: int, span: real, prepare: real, cpu: Band, receivers: nat, pull: bool)
    requires WithinBounds(span, total, largest, m, pull) && 1.0 <= m <= workers as real && total > 0.0
    requires cpu.Ordered() && cpu.estimate == total
    ensures var wall := WallBand(span, prepare, cpu, workers, receivers);
      && wall.Ordered() && wall.estimate >= prepare && Allows(wall.estimate - prepare, total, largest, m)
      && Parallelism(total, wall.estimate - prepare) <= workers as real
  {
    SpanPositive(total, m, span);
    WallBandIsOrdered(span, prepare, cpu, workers, receivers);
    ParallelismBound(total, m, workers, span, prepare, cpu, receivers);
    BoundsAllow(total, largest, m, span, WallBand(span, prepare, cpu, workers, receivers).estimate - prepare, pull);
  }

  lemma BoundsAllow(total: real, largest: real, m: real, span: real, wall: real, pull: bool)
    requires WithinBounds(span, total, largest, m, pull) && span <= wall && m >= 0.0
    ensures Allows(wall, total, largest, m)
  {
    MulMono(span, wall, m);
  }
}
