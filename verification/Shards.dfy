/** One shard's walk over its chunks, and the merge of all shards' outputs. */
module Shards {
  import opened Geometry
  import opened Partition
  import opened Sequences

  const INITIAL_CHUNK_SIZE := 1
  const MAX_CHUNK_SIZE := 4096
  const PROGRESS_INTERVAL: real := 0.1
  const CHUNK_GROWTH_LIMIT := 4

  /** nextChunkSize: at least one receiver, at most the growth limit allows. */
  function NextChunkSize(current: nat, computed: nat, elapsed: real): (size: int)
    requires current >= 1
    ensures 1 <= size <= MAX_CHUNK_SIZE && size <= current * CHUNK_GROWTH_LIMIT
  {
    var ceiling := MinInt(current * CHUNK_GROWTH_LIMIT, MAX_CHUNK_SIZE);
    if elapsed <= 0.0 then ceiling
    else
      var wanted := Wanted(computed, elapsed);
      if wanted < 1.0 then 1
      else if wanted > ceiling as real then ceiling
      else wanted.Floor
  }

  function Wanted(computed: nat, elapsed: real): real
    requires elapsed > 0.0
  {
    computed as real * (PROGRESS_INTERVAL / elapsed)
  }

  /** The time n receivers are expected to take, at the pace of the last chunk,
      fits the reporting interval of 0.1 s. */
  predicate Fits(n: int, computed: nat, elapsed: real) { n as real * elapsed <= 0.1 * computed as real }

  lemma PaceIs(n: real, computed: real, elapsed: real, wanted: real)
    requires elapsed > 0.0 && wanted == computed * (0.1 / elapsed)
    ensures n <= wanted <==> n * elapsed <= 0.1 * computed
  {
    DivMul(0.1, elapsed);
    assert wanted * elapsed == computed * (0.1 / elapsed * elapsed);
    if n <= wanted {
      MulMono(n, wanted, elapsed);
    } else {
      MulStrict(wanted, n, elapsed);
    }
  }

  lemma FitsIs(n: int, computed: nat, elapsed: real)
    requires elapsed > 0.0
    ensures Fits(n, computed, elapsed) <==> n as real <= Wanted(computed, elapsed)
  {
    PaceIs(n as real, computed as real, elapsed, Wanted(computed, elapsed));
  }

  lemma FloorIsLargest(wanted: real, ceiling: int, size: int)
    requires ceiling >= 1
    requires size == if wanted < 1.0 then 1 else if wanted > ceiling as real then ceiling else wanted.Floor
    ensures 1 <= size <= ceiling && (size == 1 || size as real <= wanted) && (size == ceiling || (size + 1) as real > wanted)
  {}

  /** The next chunk is the largest the growth limit and the cap allow that fits
      the interval at the last pace, or one receiver when none does. */
  lemma NextChunkIsPaced(current: nat, computed: nat, elapsed: real)
    requires current >= 1
    ensures var size, ceiling := NextChunkSize(current, computed, elapsed), if 4 * current <= 4096 then 4 * current else 4096;
            && 1 <= size <= ceiling
            && (elapsed <= 0.0 ==> size == ceiling)
            && (elapsed > 0.0 ==> (size == 1 || Fits(size, computed, elapsed)) && (size == ceiling || !Fits(size + 1, computed, elapsed)))
  {
    var size := NextChunkSize(current, computed, elapsed);
    if elapsed > 0.0 {
      FloorIsLargest(Wanted(computed, elapsed), MinInt(current * CHUNK_GROWTH_LIMIT, MAX_CHUNK_SIZE), size);
      FitsIs(size, computed, elapsed);
      FitsIs(size + 1, computed, elapsed);
    }
  }

  /** A call of progress: done and total. */
  datatype Report = Report(done: int, total: int)

  /** The reports of one walk: each further on than the last, all of one total. */
  predicate Rising(reports: seq<Report>, total: int) {
    && (forall i :: 0 <= i < |reports| ==> reports[i].total == total)
    && forall i, j :: 0 <= i < j < |reports| ==> reports[i].done < reports[j].done
  }

  /** progressWalk: the reporting cadence across the slices a caller hands it. */
  class ProgressWalk {
    var chunkSize: nat
    const adaptive: bool
    var done: nat
    const total: int
    var reports: seq<Report>

    predicate Valid()
      reads this
    {
      && chunkSize >= 1
      && Rising(reports, total)
      && (reports == [] ==> done == 0) && (reports != [] ==> reports[|reports| - 1].done == done)
      && (done > 0 ==> reports != [])
    }

    constructor (size: int, total: int)
      ensures Valid() && done == 0 && reports == [] && this.total == total
    {
      adaptive := size <= 0;
      chunkSize := if size <= 0 then INITIAL_CHUNK_SIZE else size;
      done := 0;
      this.total := total;
      reports := [];
    }

    /** over: computes one slice, whatever the clock says of each part of it. */
    method Over<R, O>(receivers: seq<R>, kernel: R -> O, dst: seq<O>, clock: nat -> real) returns (out: seq<O>)
      requires Valid()
      modifies this
      ensures Valid() && done == old(done) + |receivers|
      ensures out == dst + Mapped(kernel, receivers)
      ensures old(reports) <= reports && (receivers != [] ==> |old(reports)| < |reports|)
    {
      var at := 0;
      out := dst;
      while at < |receivers|
        invariant 0 <= at <= |receivers| && Valid() && done == old(done) + at
        invariant out == dst + Mapped(kernel, receivers[..at])
        invariant old(reports) <= reports && (at > 0 ==> |old(reports)| < |reports|)
        decreases |receivers| - at
      {
        var end := MinInt(at + chunkSize, |receivers|);
        var chunk := Mapped(kernel, receivers[at..end]);
        assert receivers[..end] == receivers[..at] + receivers[at..end];
        assert Mapped(kernel, receivers[..end]) == Mapped(kernel, receivers[..at]) + chunk;
        out := out + chunk;
        if adaptive {
          chunkSize := NextChunkSize(chunkSize, end - at, clock(|reports|));
        }
        done := done + (end - at);
        at := end;
        reports := reports + [Report(done, total)];
      }
      assert receivers[..|receivers|] == receivers;
    }
  }

  // ---- one shard ----

  datatype ChunkOutput<O> = ChunkOutput(chunk: nat, start: nat, outputs: seq<O>)

  /** What a chunk of the run answers. */
  function OutputOf<R, O>(c: Chunk, receivers: seq<R>, kernel: R -> O): ChunkOutput<O> {
    ChunkOutput(c.index, c.start, if c.start <= c.end <= |receivers| then Mapped(kernel, receivers[c.start..c.end]) else [])
  }

  function OutputsOf<R, O>(chunks: seq<Chunk>, receivers: seq<R>, kernel: R -> O): seq<ChunkOutput<O>> {
    seq(|chunks|, i requires 0 <= i < |chunks| => OutputOf(chunks[i], receivers, kernel))
  }

  datatype Answer<O> = Refused | Computed(outputs: seq<ChunkOutput<O>>, reports: seq<Report>)

  function MyChunks(total: nat, shard: int, shards: int): seq<Chunk> {
    ChunksForShard(total, Size(total, shards), shard, shards)
  }

  lemma {:induction false} DealtWithin(chunks: seq<Chunk>, shard: int, shards: int)
    requires shards > 0
    ensures forall c :: c in Dealt(chunks, shard, shards) ==> c in chunks && c.index % shards == shard
  {
    if chunks != [] {
      DealtWithin(chunks[..|chunks| - 1], shard, shards);
    }
  }

  lemma ChunksFit(total: nat, size: nat)
    requires size > 0
    ensures forall c :: c in Chunks(total, size) ==> c.start < c.end <= total
  {
    forall c | c in Chunks(total, size)
      ensures c.start < c.end <= total
    {
      var k :| 0 <= k < |Chunks(total, size)| && Chunks(total, size)[k] == c;
      ChunksChain(total, size, k);
      assert c.end <= total;
    }
  }

  predicate Fit(chunks: seq<Chunk>, total: nat) { forall k :: 0 <= k < |chunks| ==> chunks[k].start < chunks[k].end <= total }

  lemma MineFit(total: nat, shard: int, shards: int)
    requires total > 0 && 0 <= shard < shards
    ensures Fit(MyChunks(total, shard, shards), total)
  {
    ChunksFit(total, Size(total, shards));
    if shards > 1 {
      DealtWithin(Chunks(total, Size(total, shards)), shard, shards);
    }
  }

  /** One chunk of the shard's walk. */
  method TakeChunk<R, O>(walk: ProgressWalk, c: Chunk, receivers: seq<R>, kernel: R -> O, clock: nat -> real) returns (o: ChunkOutput<O>)
    requires walk.Valid() && c.start < c.end <= |receivers|
    modifies walk
    ensures walk.Valid() && walk.done == old(walk.done) + c.Len() && walk.reports != []
    ensures o == OutputOf(c, receivers, kernel)
  {
    var computed := walk.Over(receivers[c.start..c.end], kernel, [], clock);
    assert [] + Mapped(kernel, receivers[c.start..c.end]) == Mapped(kernel, receivers[c.start..c.end]);
    o := ChunkOutput(c.index, c.start, computed);
  }

  lemma OutputsSnoc<R, O>(chunks: seq<Chunk>, k: nat, receivers: seq<R>, kernel: R -> O)
    requires k < |chunks|
    ensures OutputsOf(chunks[..k + 1], receivers, kernel) == OutputsOf(chunks[..k], receivers, kernel) + [OutputOf(chunks[k], receivers, kernel)]
    ensures Receivers(chunks[..k + 1]) == Receivers(chunks[..k]) + chunks[k].Len()
  {
    assert chunks[..k + 1][..k] == chunks[..k];
  }

  /** ComputeRLS19RoadShard: the shard's chunks in order, each with what its
      receivers compute to whatever the clock reads, and reports that rise to
      exactly the shard's own total. */
  method ComputeShard<R, O>(receivers: seq<R>, kernel: R -> O, shard: int, shards: int, chunkSize: int, clock: nat -> real)
    returns (a: Answer<O>)
    ensures a.Refused? <==> shards < 1 || shard < 0 || shard >= shards || receivers == []
    ensures a.Computed? ==>
      && a.outputs == OutputsOf(MyChunks(|receivers|, shard, shards), receivers, kernel)
      && Rising(a.reports, Receivers(MyChunks(|receivers|, shard, shards)))
      && (MyChunks(|receivers|, shard, shards) != [] ==> a.reports != [])
      && (a.reports != [] ==> a.reports[|a.reports| - 1].done == Receivers(MyChunks(|receivers|, shard, shards)))
  {
    if shards < 1 || shard < 0 || shard >= shards || |receivers| == 0 { return Refused; }
    var chunks := ForShard(|receivers|, Size(|receivers|, shards), shard, shards);
    MineFit(|receivers|, shard, shards);
    assert Fit(chunks, |receivers|);
    var total := CountReceivers(chunks);
    var walk := new ProgressWalk(chunkSize, total);
    var outputs: seq<ChunkOutput<O>> := [];
    for k := 0 to |chunks|
      invariant fresh(walk) && walk.Valid() && walk.total == total && walk.done == Receivers(chunks[..k])
      invariant outputs == OutputsOf(chunks[..k], receivers, kernel)
      invariant k > 0 ==> walk.reports != []
    {
      var o := TakeChunk(walk, chunks[k], receivers, kernel, clock);
      OutputsSnoc(chunks, k, receivers, kernel);
      outputs := outputs + [o];
    }
    assert chunks[..|chunks|] == chunks;
    return Computed(outputs, walk.reports);
  }

  // ---- the merge ----

  datatype Merge<O> = Merged(outputs: seq<O>) | Broken

  predicate ByChunk<O>(s: seq<ChunkOutput<O>>) { forall i, j :: 0 <= i < j < |s| ==> s[i].chunk <= s[j].chunk }

  /** The outputs of the first n pieces. */
  function Laid<O>(s: seq<ChunkOutput<O>>, n: nat): seq<O>
    requires n <= |s|
  {
    if n == 0 then [] else Laid(s, n - 1) + s[n - 1].outputs
  }

  /** Chunk k is in place k and starts where those before it end. */
  predicate InPlace<O>(s: seq<ChunkOutput<O>>, k: nat)
    requires k < |s|
  {
    s[k].chunk == k && s[k].start == |Laid(s, k)|
  }

  method SortPieces<O>(pieces: seq<ChunkOutput<O>>) returns (r: seq<ChunkOutput<O>>)
    ensures ByChunk(r) && multiset(r) == multiset(pieces)
  {
    r := [];
    for i := 0 to |pieces|
      invariant ByChunk(r) && multiset(r) == multiset(pieces[..i])
    {
      r := InsertPiece(r, pieces[i]);
      assert pieces[..i + 1] == pieces[..i] + [pieces[i]];
    }
    assert pieces[..|pieces|] == pieces;
  }

  method InsertPiece<O>(s: seq<ChunkOutput<O>>, p: ChunkOutput<O>) returns (r: seq<ChunkOutput<O>>)
    requires ByChunk(s)
    ensures ByChunk(r) && multiset(r) == multiset(s) + multiset{p}
  {
    var at := 0;
    while at < |s| && s[at].chunk <= p.chunk
      invariant at <= |s| && forall i :: 0 <= i < at ==> s[i].chunk <= p.chunk
    {
      at := at + 1;
    }
    r := s[..at] + [p] + s[at..];
    assert s == s[..at] + s[at..];
    Inserted(s[..at], p, s[at..]);
  }

  // ---- sorting puts them back ----

  /** Chunk k is in place k. */
  predicate Numbered<O>(s: seq<ChunkOutput<O>>) { forall k :: 0 <= k < |s| ==> s[k].chunk == k }

  lemma {:induction false} SortedIsNumbered<O>(s: seq<ChunkOutput<O>>, all: seq<ChunkOutput<O>>)
    requires ByChunk(s) && Numbered(all) && multiset(s) == multiset(all)
    ensures s == all
    decreases |s|
  {
    if s == [] {
      assert |multiset(all)| == 0;
    } else {
      assert |multiset(s)| == |s| && |multiset(all)| == |all|;
      LastOfSorted(s, all);
      Shorter(s, all);
      SortedIsNumbered(s[..|s| - 1], all[..|all| - 1]);
      SameEnds(s, all);
    }
  }

  lemma Shorter<O>(s: seq<ChunkOutput<O>>, all: seq<ChunkOutput<O>>)
    requires ByChunk(s) && Numbered(all) && multiset(s) == multiset(all) && |s| == |all| > 0 && s[|s| - 1] == all[|all| - 1]
    ensures ByChunk(s[..|s| - 1]) && Numbered(all[..|all| - 1]) && multiset(s[..|s| - 1]) == multiset(all[..|all| - 1])
  {
    WithoutLast(s);
    WithoutLast(all);
  }

  lemma LastOfSorted<O>(s: seq<ChunkOutput<O>>, all: seq<ChunkOutput<O>>)
    requires ByChunk(s) && Numbered(all) && multiset(s) == multiset(all) && |s| == |all| > 0
    ensures s[|s| - 1] == all[|all| - 1]
  {
    var n := |s| - 1;
    assert s[n] in multiset(all) && all[n] in multiset(s);
    var j :| 0 <= j < |all| && all[j] == s[n];
    var i :| 0 <= i < |s| && s[i] == all[n];
  }

  /** ordered is the pieces, each in its place, as long as expected in all. */
  ghost predicate Assembles<O>(pieces: seq<ChunkOutput<O>>, ordered: seq<ChunkOutput<O>>, expected: nat) {
    multiset(ordered) == multiset(pieces) && (forall k :: 0 <= k < |ordered| ==> InPlace(ordered, k)) && |Laid(ordered, |ordered|)| == expected
  }

  /** The outputs in order of chunk if the pieces assemble, and else a refusal. */
  ghost predicate Answers<O(!new)>(pieces: seq<ChunkOutput<O>>, expected: nat, m: Merge<O>) {
    && (m.Merged? <==> exists ordered :: Assembles(pieces, ordered, expected))
    && forall ordered :: Assembles(pieces, ordered, expected) ==> m == Merged(Laid(ordered, |ordered|))
  }

  /** mergeChunks. */
  method MergeChunks<O(!new)>(pieces: seq<ChunkOutput<O>>, expected: nat) returns (m: Merge<O>)
    ensures Answers(pieces, expected, m)
  {
    var s := SortPieces(pieces);
    OneAssembly(s, pieces, expected);
    var merged := [];
    for k := 0 to |s|
      invariant merged == Laid(s, k) && forall j :: 0 <= j < k ==> InPlace(s, j)
    {
      if s[k].chunk != k || s[k].start != |merged| {
        assert !InPlace(s, k);
        return Broken;
      }
      merged := merged + s[k].outputs;
    }
    if |merged| != expected { return Broken; }
    assert Assembles(pieces, s, expected);
    return Merged(merged);
  }

  /** The only order the pieces can assemble in is that of their chunks. */
  lemma OneAssembly<O(!new)>(s: seq<ChunkOutput<O>>, pieces: seq<ChunkOutput<O>>, expected: nat)
    requires ByChunk(s) && multiset(s) == multiset(pieces)
    ensures forall ordered :: Assembles(pieces, ordered, expected) ==> ordered == s
  {
    forall ordered: seq<ChunkOutput<O>> | Assembles(pieces, ordered, expected)
      ensures ordered == s
    {
      forall k | 0 <= k < |ordered|
        ensures ordered[k].chunk == k
      {
        assert InPlace(ordered, k);
      }
      SortedIsNumbered(s, ordered);
    }
  }

  // ---- shards reassemble the run ----

  function AllChunks(total: nat, shards: nat): seq<Chunk> { Chunks(total, Size(total, shards)) }

  /** The chunks of one walk, laid out, are one pass over the receivers. */
  lemma {:induction false} LaidUpto<R, O>(receivers: seq<R>, kernel: R -> O, shards: nat, k: nat)
    requires k <= |AllChunks(|receivers|, shards)|
    ensures var chunks := AllChunks(|receivers|, shards);
            var upto := if k < |chunks| then chunks[k].start else |receivers|;
            upto <= |receivers| && Laid(OutputsOf(chunks, receivers, kernel), k) == Mapped(kernel, receivers[..upto])
    decreases k
  {
    var size := Size(|receivers|, shards);
    var chunks := AllChunks(|receivers|, shards);
    if k < |chunks| {
      CountIs(|receivers|, size, k);
    }
    if k == 0 {
      CountIs(|receivers|, size, 0);
    } else {
      LaidUpto(receivers, kernel, shards, k - 1);
      ChunksChain(|receivers|, size, k - 1);
      LaidNext(receivers, kernel, chunks, k - 1);
    }
  }

  lemma LaidNext<R, O>(receivers: seq<R>, kernel: R -> O, chunks: seq<Chunk>, k: nat)
    requires k < |chunks| && chunks[k].start <= chunks[k].end <= |receivers|
    requires Laid(OutputsOf(chunks, receivers, kernel), k) == Mapped(kernel, receivers[..chunks[k].start])
    ensures Laid(OutputsOf(chunks, receivers, kernel), k + 1) == Mapped(kernel, receivers[..chunks[k].end])
  {
    var c := chunks[k];
    assert receivers[..c.end] == receivers[..c.start] + receivers[c.start..c.end];
    assert Mapped(kernel, receivers[..c.end]) == Mapped(kernel, receivers[..c.start]) + Mapped(kernel, receivers[c.start..c.end]);
  }

  lemma AllInPlace<R, O>(receivers: seq<R>, kernel: R -> O, shards: nat, k: nat)
    requires k < |AllChunks(|receivers|, shards)|
    ensures InPlace(OutputsOf(AllChunks(|receivers|, shards), receivers, kernel), k)
  {
    LaidUpto(receivers, kernel, shards, k);
  }

  /** The pieces a pool of shards answers with, shard by shard. */
  function PoolPieces<R, O>(receivers: seq<R>, kernel: R -> O, shards: nat, below: nat): seq<ChunkOutput<O>>
    requires below <= shards
  {
    if below == 0 then []
    else PoolPieces(receivers, kernel, shards, below - 1) + OutputsOf(MyChunks(|receivers|, below - 1, shards), receivers, kernel)
  }

  /** Mapping a bag of chunks to their outputs. */
  lemma OutputsBag<R, O>(a: seq<Chunk>, b: seq<Chunk>, receivers: seq<R>, kernel: R -> O)
    requires multiset(a) == multiset(b)
    ensures multiset(OutputsOf(a, receivers, kernel)) == multiset(OutputsOf(b, receivers, kernel))
  {
    var answer := (c: Chunk) => OutputOf(c, receivers, kernel);
    assert OutputsOf(a, receivers, kernel) == Mapped(answer, a);
    assert OutputsOf(b, receivers, kernel) == Mapped(answer, b);
    MappedPermutes(answer, a, b);
  }

  function DealtInTurn(chunks: seq<Chunk>, shards: nat, below: nat): seq<Chunk>
    requires shards > 0
  {
    if below == 0 then [] else DealtInTurn(chunks, shards, below - 1) + Dealt(chunks, below - 1, shards)
  }

  lemma {:induction false} DealtInTurnBag(chunks: seq<Chunk>, shards: nat, below: nat)
    requires shards > 0
    ensures multiset(DealtInTurn(chunks, shards, below)) == DealtBelow(chunks, shards, below)
    decreases below
  {
    if below > 0 {
      DealtInTurnBag(chunks, shards, below - 1);
    }
  }

  lemma {:induction false} DealtToOne(chunks: seq<Chunk>)
    ensures Dealt(chunks, 0, 1) == chunks
  {
    if chunks != [] {
      DealtToOne(chunks[..|chunks| - 1]);
      assert chunks == chunks[..|chunks| - 1] + [chunks[|chunks| - 1]];
    }
  }

  lemma MineIsDealt(total: nat, shard: nat, shards: nat)
    requires total > 0 && shard < shards
    ensures MyChunks(total, shard, shards) == Dealt(AllChunks(total, shards), shard, shards)
  {
    if shards == 1 {
      DealtToOne(AllChunks(total, shards));
    }
  }

  lemma OutputsBoth<R, O>(a: seq<Chunk>, b: seq<Chunk>, receivers: seq<R>, kernel: R -> O)
    ensures OutputsOf(a + b, receivers, kernel) == OutputsOf(a, receivers, kernel) + OutputsOf(b, receivers, kernel)
  {}

  lemma {:induction false} PoolIsDealt<R, O>(receivers: seq<R>, kernel: R -> O, shards: nat, below: nat)
    requires below <= shards && shards > 0 && receivers != []
    ensures PoolPieces(receivers, kernel, shards, below) == OutputsOf(DealtInTurn(AllChunks(|receivers|, shards), shards, below), receivers, kernel)
    decreases below
  {
    if below > 0 {
      PoolIsDealt(receivers, kernel, shards, below - 1);
      MineIsDealt(|receivers|, below - 1, shards);
      OutputsBoth(DealtInTurn(AllChunks(|receivers|, shards), shards, below - 1), Dealt(AllChunks(|receivers|, shards), below - 1, shards), receivers, kernel);
    }
  }

  /** The pool's pieces are the run's, each once. */
  lemma PoolBag<R, O>(receivers: seq<R>, kernel: R -> O, shards: nat)
    requires shards > 0 && receivers != []
    ensures multiset(PoolPieces(receivers, kernel, shards, shards)) == multiset(OutputsOf(AllChunks(|receivers|, shards), receivers, kernel))
  {
    var chunks := AllChunks(|receivers|, shards);
    PoolIsDealt(receivers, kernel, shards, shards);
    DealtInTurnBag(chunks, shards, shards);
    ShardsPartition(chunks, shards);
    OutputsBag(DealtInTurn(chunks, shards, shards), chunks, receivers, kernel);
  }

  /** However the shards' pieces arrive, merging them succeeds and gives one pass
      over the receivers, whatever each shard's clock read. */
  lemma ShardsReassemble<R, O(!new)>(receivers: seq<R>, kernel: R -> O, shards: nat, arrived: seq<ChunkOutput<O>>, m: Merge<O>)
    requires shards > 0 && receivers != []
    requires multiset(arrived) == multiset(PoolPieces(receivers, kernel, shards, shards))
    requires Answers(arrived, |receivers|, m)
    ensures m == Merged(Mapped(kernel, receivers))
  {
    var all := OutputsOf(AllChunks(|receivers|, shards), receivers, kernel);
    PoolBag(receivers, kernel, shards);
    forall k | 0 <= k < |all|
      ensures InPlace(all, k)
    {
      AllInPlace(receivers, kernel, shards, k);
    }
    LaidUpto(receivers, kernel, shards, |all|);
    assert receivers[..|receivers|] == receivers;
    assert Assembles(arrived, all, |receivers|);
  }
}
