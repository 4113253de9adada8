/** How a receiver list is split for parallel compute: the chunk size, the chunks,
    and the chunks each shard of a pool takes. */
module Partition {

  const MIN_CHUNK := 64
  const TARGET_CHUNKS_PER_WORKER := 8

  /** The receivers from start to end, and the place in the merge. */
  datatype Chunk = Chunk(index: nat, start: nat, end: nat) {
    function Len(): int { end - start }
  }

  function MinInt(a: int, b: int): int { if a <= b then a else b }

  function MaxInt(a: int, b: int): int { if a >= b then a else b }

  function CeilDiv(a: nat, b: nat): nat
    requires b > 0
  {
    (a + b - 1) / b
  }

  /** Size: a function of two integers and nothing else. */
  function Size(total: int, workers: int): (size: int)
    ensures size >= 1 && (total > 0 ==> size <= total)
  {
    if total <= 0 then MIN_CHUNK
    else if workers <= 1 then MaxInt(total, 1)
    else
      SizeParts(total, workers);
      MinInt(MinInt(MaxInt(CeilDiv(total, workers * TARGET_CHUNKS_PER_WORKER), MIN_CHUNK), MaxInt(total / workers, 1)), total)
  }

  lemma SizeParts(total: int, workers: int)
    requires total > 0 && workers > 1
    ensures workers * TARGET_CHUNKS_PER_WORKER > 0
  {}

  // ---- the chunks ----

  function ChunkAt(total: nat, size: nat, k: nat): Chunk
    requires k * size < total
  {
    Chunk(k, k * size, MinInt((k + 1) * size, total))
  }

  lemma CountIs(total: nat, size: nat, k: nat)
    requires size > 0
    ensures k < CeilDiv(total, size) <==> k * size < total
  {
    var q := CeilDiv(total, size);
    assert q * size <= total + size - 1 < q * size + size;
    if k < q {
      MulLe(k + 1, q, size);
      assert (k + 1) * size == k * size + size;
    } else {
      MulLe(q, k, size);
    }
  }

  lemma MulLe(a: nat, b: nat, c: nat)
    requires a <= b
    ensures a * c <= b * c
  {}

  /** The chunks of this size, ascending. */
  function Chunks(total: nat, size: nat): (s: seq<Chunk>)
    requires size > 0
    ensures |s| == CeilDiv(total, size)
  {
    seq(CeilDiv(total, size), k requires 0 <= k < CeilDiv(total, size) => CountIs(total, size, k); ChunkAt(total, size, k))
  }

  /** The size Over uses: the whole when none is given. */
  function Effective(total: int, chunkSize: int): int { if chunkSize <= 0 then total else chunkSize }

  function ChunksOver(total: int, chunkSize: int): seq<Chunk> {
    if total <= 0 then [] else Chunks(total, Effective(total, chunkSize))
  }

  /** Over. */
  method Over(total: int, chunkSize: int) returns (chunks: seq<Chunk>)
    ensures chunks == ChunksOver(total, chunkSize)
  {
    if total <= 0 { return []; }
    var size := if chunkSize <= 0 then total else chunkSize;
    chunks := [];
    var start := 0;
    while start < total
      invariant start == |chunks| * size && |chunks| <= CeilDiv(total, size)
      invariant chunks == Chunks(total, size)[..|chunks|]
      decreases total - start
    {
      CountIs(total, size, |chunks|);
      assert (|chunks| + 1) * size == start + size;
      chunks := chunks + [Chunk(|chunks|, start, MinInt(start + size, total))];
      start := start + size;
    }
    CountIs(total, size, |chunks|);
  }

  lemma ChunkHolds(total: nat, size: nat, r: nat, q: nat, k: nat)
    requires size > 0 && r < total && q * size <= r < q * size + size && k < |Chunks(total, size)|
    ensures Chunks(total, size)[k].start <= r < Chunks(total, size)[k].end <==> k == q
  {
    assert (k + 1) * size == k * size + size;
    if k < q {
      MulLe(k + 1, q, size);
    } else if k > q {
      MulLe(q + 1, k, size);
      assert (q + 1) * size == q * size + size;
    }
  }

  lemma QuotientBounds(r: nat, size: nat)
    requires size > 0
    ensures r / size * size <= r < r / size * size + size
  {}

  /** The chunks are gapless: each receiver is in exactly one, and each chunk
      starts where the one before it ended. */
  lemma ChunksCover(total: nat, size: nat, r: nat)
    requires size > 0 && r < total
    ensures r / size < |Chunks(total, size)|
    ensures forall k: nat :: k < |Chunks(total, size)| ==> (Chunks(total, size)[k].start <= r < Chunks(total, size)[k].end <==> k == r / size)
  {
    QuotientBounds(r, size);
    CountIs(total, size, r / size);
    forall k: nat | k < |Chunks(total, size)|
      ensures Chunks(total, size)[k].start <= r < Chunks(total, size)[k].end <==> k == r / size
    {
      ChunkHolds(total, size, r, r / size, k);
    }
  }

  lemma ChunksChain(total: nat, size: nat, k: nat)
    requires size > 0 && k < |Chunks(total, size)|
    ensures Chunks(total, size)[k].index == k && 0 < Chunks(total, size)[k].Len() <= size
    ensures Chunks(total, size)[k].end == if k + 1 < |Chunks(total, size)| then Chunks(total, size)[k + 1].start else total
  {
    CountIs(total, size, k);
    CountIs(total, size, k + 1);
    assert (k + 1) * size == k * size + size;
  }

  // ---- how many chunks ----

  lemma CeilAtLeast(total: nat, size: nat, n: nat)
    requires size > 0 && n * size <= total
    ensures CeilDiv(total, size) >= n
  {
    if n > 0 {
      assert (n - 1) * size + size == n * size;
      CountIs(total, size, n - 1);
    }
  }

  lemma CeilAtMost(total: nat, size: nat, n: nat)
    requires size > 0 && total <= n * size
    ensures CeilDiv(total, size) <= n
  {
    CountIs(total, size, n);
  }

  lemma PerWorker(total: nat, workers: nat)
    requires total >= workers >= 1
    ensures 1 <= total / workers && total / workers * workers <= total < total / workers * workers + workers
  {}

  lemma SizeIs(total: nat, workers: nat)
    requires total >= workers >= 2
    ensures var size, per, d := Size(total, workers), total / workers, workers * TARGET_CHUNKS_PER_WORKER;
            1 <= size <= per && (size == per || (d > 0 && size >= CeilDiv(total, d)))
  {
    PerWorker(total, workers);
    SizeParts(total, workers);
    MulLe(1, workers, total / workers);
  }

  /** With at least as many receivers as workers every worker gets a chunk, and
      none is aimed at more than the target. */
  lemma CountBounds(total: nat, workers: nat)
    requires total >= workers >= 2
    ensures workers <= |Chunks(total, Size(total, workers))| <= workers * TARGET_CHUNKS_PER_WORKER
  {
    SizeIs(total, workers);
    PerWorker(total, workers);
    CountsWithin(total, workers, Size(total, workers), total / workers);
  }

  lemma CountsWithin(total: nat, workers: nat, size: nat, per: nat)
    requires workers >= 2 && 1 <= size <= per && per * workers <= total < per * workers + workers
    requires size == per || size >= CeilDiv(total, workers * TARGET_CHUNKS_PER_WORKER)
    ensures workers <= CeilDiv(total, size) <= workers * TARGET_CHUNKS_PER_WORKER
  {
    MulLe(size, per, workers);
    CeilAtLeast(total, size, workers);
    if size == per {
      TwicePer(per, workers, total);
      CeilAtMost(total, size, 2 * workers);
    } else {
      WantedReaches(total, workers, size);
      CeilAtMost(total, size, workers * TARGET_CHUNKS_PER_WORKER);
    }
  }

  lemma TwicePer(per: nat, workers: nat, total: nat)
    requires per >= 1 && total < per * workers + workers
    ensures total <= 2 * workers * per
  {
    MulLe(1, per, workers);
  }

  lemma WantedReaches(total: nat, workers: nat, size: nat)
    requires workers >= 2 && size >= CeilDiv(total, workers * TARGET_CHUNKS_PER_WORKER)
    ensures total <= workers * TARGET_CHUNKS_PER_WORKER * size
  {
    var d := workers * TARGET_CHUNKS_PER_WORKER;
    var w := CeilDiv(total, d);
    assert d * w == w * d && total <= w * d;
    MulLe(w, size, d);
  }

  /** Chunks of at least 64 receivers, and at most 8 of them a worker. */
  predicate LargeEnough(total: nat, workers: nat, size: nat) {
    size >= 64 && |Chunks(total, size)| <= 8 * workers
  }

  lemma LargeEnoughIs(total: nat, workers: nat, size: nat)
    requires workers >= 1 && size > 0
    ensures LargeEnough(total, workers, size) <==> size >= 64 && size >= CeilDiv(total, workers * 8)
  {
    CountIs(total, size, 8 * workers);
    CountIs(total, workers * 8, size);
    assert 8 * workers * size == size * (workers * 8);
  }

  lemma SizeOfMany(total: nat, workers: nat)
    requires total >= workers >= 2
    ensures Size(total, workers) == MinInt(MaxInt(CeilDiv(total, workers * 8), 64), total / workers)
  {
    PerWorker(total, workers);
    MulLe(1, workers, total / workers);
  }

  lemma LeastOrLargest(total: nat, workers: nat, size: nat, want: nat, per: nat)
    requires workers >= 2 && size == MinInt(MaxInt(want, 64), per) && size >= 1
    requires per * workers <= total < per * workers + workers
    ensures size * workers <= total
    ensures (size >= 64 && size >= want) || (size + 1) * workers > total
    ensures size <= MaxInt(want, 64)
  {
    MulLe(size, per, workers);
    assert (per + 1) * workers == per * workers + workers;
  }

  /** A smaller size is not large enough: the size is the least that is, unless a
      chunk for each worker calls for less, and then the largest that leaves one. */
  lemma SizeExactly(total: nat, workers: nat)
    requires total >= workers >= 2
    ensures var size := Size(total, workers);
              && size * workers <= total
              && (LargeEnough(total, workers, size) || (size + 1) * workers > total)
              && forall r: nat :: r < size ==> !LargeEnough(total, workers, r)
  {
    var size := Size(total, workers);
    SizeOfMany(total, workers);
    PerWorker(total, workers);
    LeastOrLargest(total, workers, size, CeilDiv(total, workers * 8), total / workers);
    LargeEnoughIs(total, workers, size);
    forall r: nat | r < size
      ensures !LargeEnough(total, workers, r)
    {
      if r > 0 {
        LargeEnoughIs(total, workers, r);
      }
    }
  }

  /** Few receivers, or one worker, need no choice. */
  lemma SizeOfFew(total: int, workers: int)
    ensures total <= 0 ==> Size(total, workers) == 64
    ensures total > 0 && workers <= 1 ==> Size(total, workers) == total
    ensures 0 < total < workers && workers >= 2 ==> Size(total, workers) == 1
  {
    if 0 < total < workers && workers >= 2 {
      assert total / workers == 0;
      assert MaxInt(CeilDiv(total, workers * TARGET_CHUNKS_PER_WORKER), MIN_CHUNK) >= 1;
    }
  }

  // ---- shards ----

  /** The chunks dealt to one shard, in order. */
  function Dealt(chunks: seq<Chunk>, shard: int, shards: int): seq<Chunk>
    requires shards > 0
  {
    if chunks == [] then []
    else
      var n := |chunks| - 1;
      if chunks[n].index % shards == shard then Dealt(chunks[..n], shard, shards) + [chunks[n]] else Dealt(chunks[..n], shard, shards)
  }

  function ChunksForShard(total: int, chunkSize: int, shard: int, shards: int): seq<Chunk> {
    if shards <= 1 then ChunksOver(total, chunkSize)
    else if shard < 0 || shard >= shards then []
    else Dealt(ChunksOver(total, chunkSize), shard, shards)
  }

  /** ForShard. */
  method ForShard(total: int, chunkSize: int, shard: int, shards: int) returns (mine: seq<Chunk>)
    ensures mine == ChunksForShard(total, chunkSize, shard, shards)
  {
    if shards <= 1 {
      mine := Over(total, chunkSize);
      return;
    }
    if shard < 0 || shard >= shards { return []; }
    var all := Over(total, chunkSize);
    mine := [];
    for k := 0 to |all|
      invariant mine == Dealt(all[..k], shard, shards)
    {
      assert all[..k + 1][..k] == all[..k];
      if all[k].index % shards == shard {
        mine := mine + [all[k]];
      }
    }
    assert all[..|all|] == all;
  }

  function Receivers(chunks: seq<Chunk>): int {
    if chunks == [] then 0 else Receivers(chunks[..|chunks| - 1]) + chunks[|chunks| - 1].Len()
  }

  /** Receivers. */
  method CountReceivers(chunks: seq<Chunk>) returns (n: int)
    ensures n == Receivers(chunks)
  {
    n := 0;
    for k := 0 to |chunks|
      invariant n == Receivers(chunks[..k])
    {
      assert chunks[..k + 1][..k] == chunks[..k];
      n := n + chunks[k].Len();
    }
    assert chunks[..|chunks|] == chunks;
  }

  /** Everything the first few shards are dealt. */
  function DealtBelow(chunks: seq<Chunk>, shards: nat, below: nat): multiset<Chunk>
    requires shards > 0
  {
    if below == 0 then multiset{} else DealtBelow(chunks, shards, below - 1) + multiset(Dealt(chunks, below - 1, shards))
  }

  function OnlyIf(dealt: bool, c: Chunk): multiset<Chunk> { if dealt then multiset{c} else multiset{} }

  lemma DealtNext(chunks: seq<Chunk>, c: Chunk, shard: nat, shards: nat)
    requires shards > 0
    ensures multiset(Dealt(chunks + [c], shard, shards)) == multiset(Dealt(chunks, shard, shards)) + OnlyIf(c.index % shards == shard, c)
  {
    assert (chunks + [c])[..|chunks|] == chunks;
  }

  lemma AddedOnce(a: multiset<Chunk>, b: multiset<Chunk>, c: Chunk, first: bool, second: bool)
    requires !(first && second)
    ensures (a + OnlyIf(first, c)) + (b + OnlyIf(second, c)) == (a + b) + OnlyIf(first || second, c)
  {}

  lemma {:induction false} DealtGrows(chunks: seq<Chunk>, c: Chunk, shards: nat, below: nat)
    requires shards > 0
    ensures DealtBelow(chunks + [c], shards, below) == DealtBelow(chunks, shards, below) + OnlyIf(c.index % shards < below, c)
    decreases below
  {
    if below > 0 {
      DealtGrows(chunks, c, shards, below - 1);
      DealtNext(chunks, c, below - 1, shards);
      var r := c.index % shards;
      AddedOnce(DealtBelow(chunks, shards, below - 1), multiset(Dealt(chunks, below - 1, shards)), c, r < below - 1, r == below - 1);
      assert r < below - 1 || r == below - 1 <==> r < below;
    }
  }

  lemma {:induction false} NoneDealt(shards: nat, below: nat)
    requires shards > 0
    ensures DealtBelow([], shards, below) == multiset{}
    decreases below
  {
    if below > 0 {
      NoneDealt(shards, below - 1);
    }
  }

  /** The shards between them are dealt every chunk, once. */
  lemma {:induction false} ShardsPartition(chunks: seq<Chunk>, shards: nat)
    requires shards > 0
    ensures DealtBelow(chunks, shards, shards) == multiset(chunks)
    decreases |chunks|
  {
    if chunks == [] {
      NoneDealt(shards, shards);
    } else {
      var n := |chunks| - 1;
      ShardsPartition(chunks[..n], shards);
      DealtGrows(chunks[..n], chunks[n], shards, shards);
      assert chunks == chunks[..n] + [chunks[n]];
    }
  }

  /** The receivers of the first few shards. */
  function ReceiversBelow(chunks: seq<Chunk>, shards: nat, below: nat): int
    requires shards > 0
  {
    if below == 0 then 0 else ReceiversBelow(chunks, shards, below - 1) + Receivers(Dealt(chunks, below - 1, shards))
  }

  lemma ReceiversSnoc(chunks: seq<Chunk>, c: Chunk)
    ensures Receivers(chunks + [c]) == Receivers(chunks) + c.Len()
  {
    assert (chunks + [c])[..|chunks|] == chunks;
  }

  lemma {:induction false} ReceiversGrow(chunks: seq<Chunk>, c: Chunk, shards: nat, below: nat)
    requires shards > 0
    ensures ReceiversBelow(chunks + [c], shards, below) == ReceiversBelow(chunks, shards, below) + if c.index % shards < below then c.Len() else 0
    decreases below
  {
    if below > 0 {
      ReceiversGrow(chunks, c, shards, below - 1);
      assert (chunks + [c])[..|chunks|] == chunks;
      ReceiversSnoc(Dealt(chunks, below - 1, shards), c);
    }
  }

  lemma {:induction false} NoReceivers(shards: nat, below: nat)
    requires shards > 0
    ensures ReceiversBelow([], shards, below) == 0
    decreases below
  {
    if below > 0 {
      NoReceivers(shards, below - 1);
    }
  }

  lemma {:induction false} ReceiversShared(chunks: seq<Chunk>, shards: nat)
    requires shards > 0
    ensures ReceiversBelow(chunks, shards, shards) == Receivers(chunks)
    decreases |chunks|
  {
    if chunks == [] {
      NoReceivers(shards, shards);
    } else {
      var n := |chunks| - 1;
      ReceiversShared(chunks[..n], shards);
      ReceiversGrow(chunks[..n], chunks[n], shards, shards);
      ReceiversSnoc(chunks[..n], chunks[n]);
      assert chunks == chunks[..n] + [chunks[n]];
    }
  }

  lemma {:induction false} ReceiversUpto(total: nat, size: nat, k: nat)
    requires size > 0 && k <= |Chunks(total, size)|
    ensures Receivers(Chunks(total, size)[..k]) == if k < |Chunks(total, size)| then Chunks(total, size)[k].start else total
    decreases k
  {
    if k == 0 {
      CountIs(total, size, 0);
    } else {
      ReceiversUpto(total, size, k - 1);
      ChunksChain(total, size, k - 1);
      assert Chunks(total, size)[..k][..k - 1] == Chunks(total, size)[..k - 1];
    }
  }

  /** The shards' own totals add up to the run's. */
  lemma ShardTotalsAdd(total: nat, size: nat, shards: nat)
    requires size > 0 && shards > 0
    ensures ReceiversBelow(Chunks(total, size), shards, shards) == total
  {
    ReceiversShared(Chunks(total, size), shards);
    ReceiversUpto(total, size, |Chunks(total, size)|);
    assert Chunks(total, size)[..|Chunks(total, size)|] == Chunks(total, size);
  }
}
