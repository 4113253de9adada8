/** Chunks of receivers, what computing one gives, and the two caches chunk
    results pass through, shared by any number of interleaved runs. */
module ChunkCache {
  import opened Geometry
  import opened GridLayout
  import opened WorkerPool
  import opened Options

  datatype Receiver = Receiver(id: nat, point: Point)

  datatype Source = Source(id: nat, point: Point, emission: real)

  datatype Config = Config(receivers: seq<Receiver>, sources: seq<Source>, standard: nat, cellSize: real, chunkSize: nat) {
    predicate Valid() { chunkSize > 0 }
  }

  /** freefield.ComputeReceiverLevelDB, a function of one receiver and the sources. */
  type Kernel = (Point, seq<Source>) -> real

  // ---- chunks ----

  /** How many chunks the receivers make. */
  function ChunkCount(total: nat, size: nat): nat
    requires size > 0
  {
    (total + size - 1) / size
  }

  function ChunkOf(receivers: seq<Receiver>, size: nat, k: nat): seq<Receiver> {
    var lo, hi := k * size, (k + 1) * size;
    if lo > |receivers| then [] else if hi > |receivers| then receivers[lo..] else if lo > hi then [] else receivers[lo..hi]
  }

  lemma LastChunk(total: nat, size: nat, k: nat)
    requires size > 0
    ensures k < ChunkCount(total, size) <==> k * size < total
  {
    var q := (total + size - 1) / size;
    assert q * size <= total + size - 1 < q * size + size;
    if k < q {
      assert (k + 1) * size <= q * size by { MulMonoInt(k + 1, q, size); }
    } else {
      assert q * size <= k * size by { MulMonoInt(q, k, size); }
    }
  }

  lemma MulMonoInt(a: nat, b: nat, c: nat)
    requires a <= b
    ensures a * c <= b * c
  {}

  lemma ChunkAt(receivers: seq<Receiver>, size: nat, k: nat, start: nat)
    requires size > 0 && start == k * size && start < |receivers|
    ensures ChunkOf(receivers, size, k) == receivers[start..if start + size <= |receivers| then start + size else |receivers|]
    ensures start + size == (k + 1) * size
  {}

  /** chunkReceivers. */
  method ChunkReceivers(receivers: seq<Receiver>, size: nat) returns (chunks: seq<seq<Receiver>>)
    requires size > 0
    ensures |chunks| == ChunkCount(|receivers|, size)
    ensures forall k :: 0 <= k < |chunks| ==> chunks[k] == ChunkOf(receivers, size, k) && 0 < |chunks[k]| <= size
  {
    chunks := [];
    var start := 0;
    LastChunk(|receivers|, size, 0);
    while start < |receivers|
      invariant start == |chunks| * size && |chunks| <= ChunkCount(|receivers|, size)
      invariant forall k :: 0 <= k < |chunks| ==> chunks[k] == ChunkOf(receivers, size, k) && 0 < |chunks[k]| <= size
      decreases |receivers| - start
    {
      ChunkAt(receivers, size, |chunks|, start);
      LastChunk(|receivers|, size, |chunks|);
      chunks := chunks + [receivers[start..if start + size <= |receivers| then start + size else |receivers|]];
      start := start + size;
    }
    LastChunk(|receivers|, size, |chunks|);
  }

  // ---- computing ----

  function Evaluate(kernel: Kernel, sources: seq<Source>, receivers: seq<Receiver>): seq<Result> {
    seq(|receivers|, i requires 0 <= i < |receivers| => Result(receivers[i].id, kernel(receivers[i].point, sources)))
  }

  /** computeChunkResults, the context done before receiver stopAt if there is one. */
  method ComputeChunkResults(kernel: Kernel, sources: seq<Source>, receivers: seq<Receiver>, stopAt: nat) returns (results: seq<Result>, ok: bool)
    ensures ok <==> stopAt >= |receivers|
    ensures ok ==> results == Evaluate(kernel, sources, receivers)
  {
    results := [];
    for i := 0 to |receivers|
      invariant i <= stopAt && results == Evaluate(kernel, sources, receivers[..i])
    {
      if i == stopAt { return [], false; }
      results := results + [Result(receivers[i].id, kernel(receivers[i].point, sources))];
    }
    assert receivers[..|receivers|] == receivers;
    ok := true;
  }

  // ---- reducing ----

  /** The chunks below n, in order of index. */
  function Merged(chunks: map<nat, seq<Result>>, n: nat): seq<Result> {
    if n == 0 then []
    else if n - 1 in chunks then Merged(chunks, n - 1) + chunks[n - 1]
    else Merged(chunks, n - 1)
  }

  predicate Rising(s: seq<nat>) { forall i, j :: 0 <= i < j < |s| ==> s[i] < s[j] }

  lemma RisingTop(s: seq<nat>, top: nat)
    requires Rising(s) && top in s && forall k :: k in s ==> k <= top
    ensures s == s[..|s| - 1] + [top] && Rising(s[..|s| - 1])
    ensures forall k: nat :: k in s[..|s| - 1] <==> k in s && k < top
  {
    var i :| 0 <= i < |s| && s[i] == top;
    assert s[|s| - 1] in s && s[i] <= s[|s| - 1];
  }

  lemma SomeMember(s: seq<nat>)
    requires s != []
    ensures exists k: nat :: k in s
  {
    assert s[0] in s;
  }

  /** There is one way to list the members below n in ascending order. */
  lemma {:induction false} OneAscending(s: seq<nat>, members: set<nat>, n: nat)
    requires Rising(s) && forall k: nat :: k in s <==> k in members && k < n
    ensures s == Ascending(members, n)
    decreases n
  {
    if n == 0 {
      if s != [] {
        SomeMember(s);
      }
    } else if n - 1 in members {
      RisingTop(s, n - 1);
      OneAscending(s[..|s| - 1], members, n - 1);
    } else {
      OneAscending(s, members, n - 1);
    }
  }

  /** sort.Ints on distinct indices. */
  method SortIndices(s: seq<nat>) returns (r: seq<nat>)
    requires forall i, j :: 0 <= i < j < |s| ==> s[i] != s[j]
    ensures Rising(r) && forall k :: k in r <==> k in s
  {
    r := [];
    for i := 0 to |s|
      invariant Rising(r) && forall k :: k in r <==> k in s[..i]
    {
      var at := 0;
      while at < |r| && r[at] < s[i]
        invariant at <= |r| && forall j :: 0 <= j < at ==> r[j] < s[i]
      {
        at := at + 1;
      }
      assert s[i] !in s[..i];
      assert s[..i + 1] == s[..i] + [s[i]];
      ghost var before := r;
      r := r[..at] + [s[i]] + r[at..];
      assert before == before[..at] + before[at..];
    }
    assert s[..|s|] == s;
  }

  function Joined(chunks: map<nat, seq<Result>>, s: seq<nat>): seq<Result>
    requires forall k :: k in s ==> k in chunks
  {
    if s == [] then [] else Joined(chunks, s[..|s| - 1]) + chunks[s[|s| - 1]]
  }

  lemma {:induction false} MergedAscending(chunks: map<nat, seq<Result>>, n: nat)
    ensures Joined(chunks, Ascending(chunks.Keys, n)) == Merged(chunks, n)
    decreases n
  {
    if n > 0 {
      MergedAscending(chunks, n - 1);
      if n - 1 in chunks {
        JoinedNext(chunks, Ascending(chunks.Keys, n - 1), n - 1);
      }
    }
  }

  lemma JoinedNext(chunks: map<nat, seq<Result>>, s: seq<nat>, k: nat)
    requires (forall i :: i in s ==> i in chunks) && k in chunks
    ensures Joined(chunks, s + [k]) == Joined(chunks, s) + chunks[k]
  {
    assert (s + [k])[..|s|] == s;
  }

  /** The map's keys, in whatever order ranging over it gives. */
  method KeysOf(chunks: map<nat, seq<Result>>) returns (indices: seq<nat>)
    ensures forall k :: k in indices <==> k in chunks
    ensures forall i, j :: 0 <= i < j < |indices| ==> indices[i] != indices[j]
  {
    var left := chunks.Keys;
    indices := [];
    while left != {}
      invariant left <= chunks.Keys && forall k :: k in indices <==> k in chunks && k !in left
      invariant forall i, j :: 0 <= i < j < |indices| ==> indices[i] != indices[j]
      decreases left
    {
      var k :| k in left;
      assert k !in indices;
      indices, left := indices + [k], left - {k};
    }
  }

  /** reduceDeterministic: whatever order the map is walked in, the chunks come
      out in order of index. */
  method ReduceDeterministic(chunks: map<nat, seq<Result>>, ghost n: nat) returns (merged: seq<Result>)
    requires forall k :: k in chunks ==> k < n
    ensures merged == Merged(chunks, n)
  {
    var keys := KeysOf(chunks);
    var indices := SortIndices(keys);
    merged := [];
    for i := 0 to |indices|
      invariant merged == Joined(chunks, indices[..i])
    {
      assert indices[..i + 1] == indices[..i] + [indices[i]];
      JoinedNext(chunks, indices[..i], indices[i]);
      merged := merged + chunks[indices[i]];
    }
    assert indices[..|indices|] == indices;
    OneAscending(indices, chunks.Keys, n);
    MergedAscending(chunks, n);
  }

  /** How many receivers the first k chunks hold. */
  function Reached(total: nat, size: nat, k: nat): nat { if k * size <= total then k * size else total }

  lemma NextChunk(receivers: seq<Receiver>, size: nat, k: nat)
    requires size > 0 && k < ChunkCount(|receivers|, size)
    ensures receivers[..Reached(|receivers|, size, k + 1)] == receivers[..Reached(|receivers|, size, k)] + ChunkOf(receivers, size, k)
  {
    LastChunk(|receivers|, size, k);
    assert (k + 1) * size == k * size + size;
  }

  lemma EvaluateBoth(kernel: Kernel, sources: seq<Source>, a: seq<Receiver>, b: seq<Receiver>)
    ensures Evaluate(kernel, sources, a + b) == Evaluate(kernel, sources, a) + Evaluate(kernel, sources, b)
  {}

  /** The chunks, merged, are the results of one pass over the receivers they hold. */
  lemma {:induction false} MergedIsSequential(kernel: Kernel, c: Config, chunks: map<nat, seq<Result>>, k: nat)
    requires c.Valid() && k <= ChunkCount(|c.receivers|, c.chunkSize)
    requires forall i: nat :: i < k ==> i in chunks && chunks[i] == Evaluate(kernel, c.sources, ChunkOf(c.receivers, c.chunkSize, i))
    ensures Merged(chunks, k) == Evaluate(kernel, c.sources, c.receivers[..Reached(|c.receivers|, c.chunkSize, k)])
    decreases k
  {
    if k > 0 {
      MergedIsSequential(kernel, c, chunks, k - 1);
      NextChunk(c.receivers, c.chunkSize, k - 1);
      EvaluateBoth(kernel, c.sources, c.receivers[..Reached(|c.receivers|, c.chunkSize, k - 1)], ChunkOf(c.receivers, c.chunkSize, k - 1));
      assert Merged(chunks, k) == Merged(chunks, k - 1) + chunks[k - 1];
    }
  }

  /** What chunk k of a run gives. */
  function Value(kernel: Kernel, c: Config, k: nat): seq<Result> {
    Evaluate(kernel, c.sources, ChunkOf(c.receivers, c.chunkSize, k))
  }

  function ValuesOf(kernel: Kernel, c: Config): nat -> seq<Result> { (k: nat) => Value(kernel, c, k) }

  /** A run of the pool that returns no error reduces to the results of one
      sequential pass, whatever the workers, the chunk size and the interleaving. */
  lemma PoolEqualsSequential(kernel: Kernel, c: Config, s: Pool, count: nat)
    requires c.Valid() && s.n == ChunkCount(|c.receivers|, c.chunkSize)
    requires ReachableIn(ValuesOf(kernel, c), s, count)
    requires s.returned && !s.failed && !s.outer
    ensures Merged(s.received, s.n) == Evaluate(kernel, c.sources, c.receivers)
  {
    SuccessIsComplete(ValuesOf(kernel, c), s, count);
    assert forall i: nat :: i < s.n ==> s.received[i] == ValuesOf(kernel, c)(i);
    MergedIsSequential(kernel, c, s.received, s.n);
    LastChunk(|c.receivers|, c.chunkSize, s.n);
    assert c.receivers[..|c.receivers|] == c.receivers;
  }

  // ---- the caches ----

  /** A run: where its own chunk files go, whether it caches, what it computes. */
  datatype Run = Run(dir: nat, caches: bool, config: Config)

  /** What a shared entry is keyed by, the hash taken as injective. */
  datatype Key = Key(receivers: seq<Receiver>, sources: seq<Source>, standard: nat, cellSize: real)

  function KeyOf(c: Config, k: nat): Key { Key(ChunkOf(c.receivers, c.chunkSize, k), c.sources, c.standard, c.cellSize) }

  /** Where computeOrLoadChunk stands. */
  datatype Phase =
    | ReadLocal
    | ReadShared
    | Mirror(v: seq<Result>)
    | Compute
    | WriteLocal(v: seq<Result>)
    | WriteShared(v: seq<Result>)
    | Loaded(v: seq<Result>)
    | Broken

  datatype Task = Task(run: nat, chunk: nat, phase: Phase)

  /** The cache files, and every chunk any run is or was at. */
  datatype Cache = Cache(local: map<(nat, nat), seq<Result>>, shared: map<Key, seq<Result>>, tasks: seq<Task>)

  datatype Action = Begin(run: nat, chunk: nat) | Go(task: nat, ok: bool)

  predicate Named(runs: seq<Run>, run: nat, chunk: nat) {
    run < |runs| && runs[run].config.Valid() && chunk < ChunkCount(|runs[run].config.receivers|, runs[run].config.chunkSize)
  }

  /** One file operation or computation of a task, and what it leaves. */
  function Advance(kernel: Kernel, r: Run, s: Cache, t: Task, ok: bool): (Cache, Phase) {
    var at, key := (r.dir, t.chunk), KeyOf(r.config, t.chunk);
    match t.phase
    case ReadLocal =>
      (s, if !ok then Broken else if at in s.local then Loaded(s.local[at]) else ReadShared)
    case ReadShared =>
      (s, if !ok then Broken else if key in s.shared then Mirror(s.shared[key]) else Compute)
    case Mirror(v) => (if ok then s.(local := s.local[at := v]) else s, Loaded(v))
    case Compute =>
      var v := Value(kernel, r.config, t.chunk);
      (s, if !ok then Broken else if r.caches then WriteLocal(v) else Loaded(v))
    case WriteLocal(v) => if ok then (s.(local := s.local[at := v]), WriteShared(v)) else (s, Broken)
    case WriteShared(v) => if ok then (s.(shared := s.shared[key := v]), Loaded(v)) else (s, Broken)
    case Loaded(v) => (s, Loaded(v))
    case Broken => (s, Broken)
  }

  function Next(kernel: Kernel, runs: seq<Run>, s: Cache, a: Action): Option<Cache> {
    match a
    case Begin(run, chunk) =>
      if Named(runs, run, chunk)
      then Some(s.(tasks := s.tasks + [Task(run, chunk, if runs[run].caches then ReadLocal else Compute)]))
      else None
    case Go(i, ok) =>
      if i < |s.tasks| && s.tasks[i].run < |runs|
      then
        var (t, phase) := Advance(kernel, runs[s.tasks[i].run], s, s.tasks[i], ok);
        Some(t.(tasks := s.tasks[i := s.tasks[i].(phase := phase)]))
      else None
  }

  // ---- a chunk nothing disturbs ----

  /** The task after this many operations that succeed. */
  function Settled(kernel: Kernel, r: Run, s: Cache, t: Task, operations: nat): (Cache, Phase)
    decreases operations
  {
    if operations == 0 then (s, t.phase)
    else
      var (after, phase) := Advance(kernel, r, s, t, true);
      Settled(kernel, r, after, t.(phase := phase), operations - 1)
  }

  lemma SettledNext(kernel: Kernel, r: Run, s: Cache, t: Task, operations: nat)
    requires operations > 0
    ensures Settled(kernel, r, s, t, operations) ==
            Settled(kernel, r, Advance(kernel, r, s, t, true).0, t.(phase := Advance(kernel, r, s, t, true).1), operations - 1)
  {}

  lemma LoadedStays(kernel: Kernel, r: Run, s: Cache, t: Task, operations: nat)
    requires t.phase.Loaded?
    ensures Settled(kernel, r, s, t, operations) == (s, t.phase)
  {
    if operations > 0 {
      assert t.(phase := t.phase) == t;
      LoadedStays(kernel, r, s, t, operations - 1);
    }
  }

  /** A caching run loads its own entry; without one it loads the shared entry and
      keeps a copy; without either it computes the chunk and leaves both. */
  lemma LoadsOrComputes(kernel: Kernel, r: Run, s: Cache, t: Task)
    requires r.caches && t.phase == ReadLocal
    ensures var at, key, v := (r.dir, t.chunk), KeyOf(r.config, t.chunk), Value(kernel, r.config, t.chunk);
            Settled(kernel, r, s, t, 5) ==
              if at in s.local then (s, Loaded(s.local[at]))
              else if key in s.shared then (s.(local := s.local[at := s.shared[key]]), Loaded(s.shared[key]))
              else (s.(local := s.local[at := v], shared := s.shared[key := v]), Loaded(v))
  {
    var at, key, v := (r.dir, t.chunk), KeyOf(r.config, t.chunk), Value(kernel, r.config, t.chunk);
    SettledNext(kernel, r, s, t, 5);
    if at in s.local {
      LoadedStays(kernel, r, s, t.(phase := Loaded(s.local[at])), 4);
    } else {
      SettledNext(kernel, r, s, t.(phase := ReadShared), 4);
      if key in s.shared {
        var kept := s.(local := s.local[at := s.shared[key]]);
        SettledNext(kernel, r, s, t.(phase := Mirror(s.shared[key])), 3);
        LoadedStays(kernel, r, kept, t.(phase := Loaded(s.shared[key])), 2);
      } else {
        var kept := s.(local := s.local[at := v]);
        SettledNext(kernel, r, s, t.(phase := Compute), 3);
        SettledNext(kernel, r, s, t.(phase := WriteLocal(v)), 2);
        SettledNext(kernel, r, kept, t.(phase := WriteShared(v)), 1);
      }
    }
  }

  // ---- when the caches agree with computing ----

  function OfRun(kernel: Kernel, runs: seq<Run>, run: nat, chunk: nat): seq<Result>
    requires run < |runs|
  {
    Value(kernel, runs[run].config, chunk)
  }

  /** Caching runs that share a directory give the same for the same chunk index. */
  ghost predicate Compatible(kernel: Kernel, runs: seq<Run>) {
    forall r: nat, q: nat, k: nat :: Named(runs, r, k) && Named(runs, q, k) && runs[r].caches && runs[q].caches && runs[r].dir == runs[q].dir ==>
      OfRun(kernel, runs, r, k) == OfRun(kernel, runs, q, k)
  }

  /** What a task has in hand is what its chunk gives. */
  predicate Truthful(kernel: Kernel, runs: seq<Run>, t: Task) {
    && Named(runs, t.run, t.chunk)
    && (t.phase.Mirror? || t.phase.WriteLocal? || t.phase.WriteShared? || t.phase.Loaded? ==> t.phase.v == OfRun(kernel, runs, t.run, t.chunk))
    && (runs[t.run].caches || t.phase.Compute? || t.phase.Loaded? || t.phase.Broken?)
  }

  ghost predicate LocalTrue(kernel: Kernel, runs: seq<Run>, local: map<(nat, nat), seq<Result>>, r: nat, k: nat) {
    Named(runs, r, k) && runs[r].caches && (runs[r].dir, k) in local ==> local[(runs[r].dir, k)] == OfRun(kernel, runs, r, k)
  }

  /** Every run-local entry is what its chunk gives every run that reads it. */
  ghost predicate LocalAgrees(kernel: Kernel, runs: seq<Run>, local: map<(nat, nat), seq<Result>>) {
    forall r: nat, k: nat :: LocalTrue(kernel, runs, local, r, k)
  }

  /** Every shared entry is what computing its key gives. */
  ghost predicate SharedAgrees(kernel: Kernel, shared: map<Key, seq<Result>>) {
    forall key :: key in shared ==> SharedTrue(kernel, shared, key)
  }

  predicate SharedTrue(kernel: Kernel, shared: map<Key, seq<Result>>, key: Key)
    requires key in shared
  {
    shared[key] == Evaluate(kernel, key.sources, key.receivers)
  }

  ghost predicate Agreed(kernel: Kernel, runs: seq<Run>, s: Cache) {
    && SharedAgrees(kernel, s.shared) && LocalAgrees(kernel, runs, s.local)
    && forall i :: 0 <= i < |s.tasks| ==> Truthful(kernel, runs, s.tasks[i])
  }

  lemma LocalWritten(kernel: Kernel, runs: seq<Run>, local: map<(nat, nat), seq<Result>>, run: nat, chunk: nat)
    requires Compatible(kernel, runs) && LocalAgrees(kernel, runs, local) && Named(runs, run, chunk) && runs[run].caches
    ensures LocalAgrees(kernel, runs, local[(runs[run].dir, chunk) := OfRun(kernel, runs, run, chunk)])
  {
    var written := local[(runs[run].dir, chunk) := OfRun(kernel, runs, run, chunk)];
    forall r: nat, k: nat
      ensures LocalTrue(kernel, runs, written, r, k)
    {
      assert LocalTrue(kernel, runs, local, r, k);
    }
  }

  lemma SharedWritten(kernel: Kernel, runs: seq<Run>, shared: map<Key, seq<Result>>, run: nat, chunk: nat)
    requires SharedAgrees(kernel, shared) && Named(runs, run, chunk)
    ensures SharedAgrees(kernel, shared[KeyOf(runs[run].config, chunk) := OfRun(kernel, runs, run, chunk)])
  {
    var t := shared[KeyOf(runs[run].config, chunk) := OfRun(kernel, runs, run, chunk)];
    forall key | key in t
      ensures SharedTrue(kernel, t, key)
    {
      assert key in shared ==> SharedTrue(kernel, shared, key);
    }
  }

  /** One step of a chunk being loaded keeps both caches and it truthful. */
  lemma AdvanceAgrees(kernel: Kernel, runs: seq<Run>, s: Cache, t: Task, ok: bool)
    requires Compatible(kernel, runs) && SharedAgrees(kernel, s.shared) && LocalAgrees(kernel, runs, s.local) && Truthful(kernel, runs, t)
    ensures var (s', phase) := Advance(kernel, runs[t.run], s, t, ok);
      && SharedAgrees(kernel, s'.shared) && LocalAgrees(kernel, runs, s'.local) && s'.tasks == s.tasks
      && Truthful(kernel, runs, t.(phase := phase))
  {
    match t.phase {
      case ReadLocal => assert LocalTrue(kernel, runs, s.local, t.run, t.chunk);
      case ReadShared => SharedRead(kernel, runs, s, t);
      case Mirror(_) => LocalWritten(kernel, runs, s.local, t.run, t.chunk);
      case WriteLocal(_) => LocalWritten(kernel, runs, s.local, t.run, t.chunk);
      case WriteShared(_) => SharedWritten(kernel, runs, s.shared, t.run, t.chunk);
      case _ =>
    }
  }

  lemma SharedRead(kernel: Kernel, runs: seq<Run>, s: Cache, t: Task)
    requires SharedAgrees(kernel, s.shared) && Named(runs, t.run, t.chunk)
    ensures KeyOf(runs[t.run].config, t.chunk) in s.shared ==> s.shared[KeyOf(runs[t.run].config, t.chunk)] == OfRun(kernel, runs, t.run, t.chunk)
  {
    var key := KeyOf(runs[t.run].config, t.chunk);
    assert key in s.shared ==> SharedTrue(kernel, s.shared, key);
  }

  lemma NextAgrees(kernel: Kernel, runs: seq<Run>, s: Cache, a: Action)
    requires Compatible(kernel, runs) && Agreed(kernel, runs, s) && Next(kernel, runs, s, a).Some?
    ensures Agreed(kernel, runs, Next(kernel, runs, s, a).value)
  {
    if a.Go? {
      AdvanceAgrees(kernel, runs, s, s.tasks[a.task], a.ok);
    }
  }

  // ---- every interleaving ----

  ghost predicate NextTo(kernel: Kernel, runs: seq<Run>, s: Cache, a: Action, t: Cache) { Next(kernel, runs, s, a) == Some(t) }

  /** A cache root that is empty, or holds what earlier such runs left. */
  ghost predicate CacheStart(kernel: Kernel, runs: seq<Run>, s: Cache) {
    s.tasks == [] && SharedAgrees(kernel, s.shared) && LocalAgrees(kernel, runs, s.local)
  }

  ghost predicate CacheReachable(kernel: Kernel, runs: seq<Run>, s: Cache, steps: nat)
    decreases steps
  {
    if steps == 0 then CacheStart(kernel, runs, s)
    else exists p, a :: CacheReachable(kernel, runs, p, steps - 1) && NextTo(kernel, runs, p, a, s)
  }

  lemma {:induction false} CachesAgree(kernel: Kernel, runs: seq<Run>, s: Cache, steps: nat)
    requires Compatible(kernel, runs) && CacheReachable(kernel, runs, s, steps)
    ensures Agreed(kernel, runs, s)
    decreases steps
  {
    if steps > 0 {
      var p, a :| CacheReachable(kernel, runs, p, steps - 1) && NextTo(kernel, runs, p, a, s);
      CachesAgree(kernel, runs, p, steps - 1);
      NextAgrees(kernel, runs, p, a);
    }
  }

  /** However runs interleave, whichever cache answers and whatever fails, a
      chunk that loads loads what computing it would give. */
  ghost predicate AlwaysTrue(kernel: Kernel, runs: seq<Run>) {
    forall s, i :: Reachable(kernel, runs, s) && 0 <= i < |s.tasks| && s.tasks[i].phase.Loaded? ==>
      LoadedTrue(kernel, runs, s.tasks[i])
  }

  predicate LoadedTrue(kernel: Kernel, runs: seq<Run>, t: Task) {
    t.run < |runs| && t.phase.Loaded? && t.phase.v == OfRun(kernel, runs, t.run, t.chunk)
  }

  ghost predicate Reachable(kernel: Kernel, runs: seq<Run>, s: Cache) { exists steps: nat :: CacheReachable(kernel, runs, s, steps) }

  /** A set of states closed under steps, standing for the reachable ones. */
  ghost predicate Closed(kernel: Kernel, runs: seq<Run>, reach: Cache -> bool) {
    forall s, a, t :: reach(s) && NextTo(kernel, runs, s, a, t) ==> reach(t)
  }

  lemma Proceed(kernel: Kernel, runs: seq<Run>, reach: Cache -> bool, s: Cache, a: Action) returns (t: Cache)
    requires Closed(kernel, runs, reach) && reach(s) && Next(kernel, runs, s, a).Some?
    ensures t == Next(kernel, runs, s, a).value && reach(t)
  {
    t := Next(kernel, runs, s, a).value;
    assert NextTo(kernel, runs, s, a, t);
  }

  lemma ReachableNext(kernel: Kernel, runs: seq<Run>, s: Cache, a: Action, t: Cache)
    requires Reachable(kernel, runs, s) && NextTo(kernel, runs, s, a, t)
    ensures Reachable(kernel, runs, t)
  {
    var steps: nat :| CacheReachable(kernel, runs, s, steps);
    var more := steps + 1;
    assert CacheReachable(kernel, runs, s, more - 1);
    assert CacheReachable(kernel, runs, t, more);
  }

  /** A run computes its chunk k on an empty cache root and stores it. */
  lemma StoreChunk(kernel: Kernel, runs: seq<Run>, reach: Cache -> bool, r: nat, k: nat) returns (s: Cache)
    requires Closed(kernel, runs, reach) && reach(Cache(map[], map[], [])) && Named(runs, r, k) && runs[r].caches
    ensures reach(s) && |s.tasks| == 1 && s.local == map[(runs[r].dir, k) := OfRun(kernel, runs, r, k)]
  {
    s := Proceed(kernel, runs, reach, Cache(map[], map[], []), Begin(r, k));
    assert s == Cache(map[], map[], [Task(r, k, ReadLocal)]);
    s := Proceed(kernel, runs, reach, s, Go(0, true));
    assert s == Cache(map[], map[], [Task(r, k, ReadShared)]);
    s := Proceed(kernel, runs, reach, s, Go(0, true));
    assert s == Cache(map[], map[], [Task(r, k, Compute)]);
    s := Proceed(kernel, runs, reach, s, Go(0, true));
    assert s == Cache(map[], map[], [Task(r, k, WriteLocal(OfRun(kernel, runs, r, k)))]);
    s := Proceed(kernel, runs, reach, s, Go(0, true));
  }

  /** Two caching runs that share a directory: the second loads what the first
      computed. */
  lemma SharedDirectoryLoads(kernel: Kernel, runs: seq<Run>, reach: Cache -> bool, r: nat, q: nat, k: nat) returns (s: Cache)
    requires Closed(kernel, runs, reach) && reach(Cache(map[], map[], []))
    requires Named(runs, r, k) && Named(runs, q, k) && runs[r].caches && runs[q].caches && runs[r].dir == runs[q].dir
    ensures reach(s) && |s.tasks| == 2 && s.tasks[1] == Task(q, k, Loaded(OfRun(kernel, runs, r, k)))
  {
    s := StoreChunk(kernel, runs, reach, r, k);
    s := Proceed(kernel, runs, reach, s, Begin(q, k));
    assert s.tasks[1] == Task(q, k, ReadLocal);
    s := Proceed(kernel, runs, reach, s, Go(1, true));
  }

  /** The caches never change a result exactly when caching runs that share a
      run directory give the same for the same chunk index. */
  lemma AlwaysTrueExactlyWhenCompatible(kernel: Kernel, runs: seq<Run>)
    ensures AlwaysTrue(kernel, runs) <==> Compatible(kernel, runs)
  {
    if Compatible(kernel, runs) {
      forall s, i | Reachable(kernel, runs, s) && 0 <= i < |s.tasks| && s.tasks[i].phase.Loaded?
        ensures LoadedTrue(kernel, runs, s.tasks[i])
      {
        var steps: nat :| CacheReachable(kernel, runs, s, steps);
        CachesAgree(kernel, runs, s, steps);
        assert Truthful(kernel, runs, s.tasks[i]);
      }
    } else {
      var s, i := IncompatibleMisleads(kernel, runs);
      assert !LoadedTrue(kernel, runs, s.tasks[i]);
    }
  }

  lemma IncompatibleMisleads(kernel: Kernel, runs: seq<Run>) returns (s: Cache, i: nat)
    requires !Compatible(kernel, runs)
    ensures Reachable(kernel, runs, s) && i < |s.tasks| && s.tasks[i].phase.Loaded? && !LoadedTrue(kernel, runs, s.tasks[i])
  {
    var r: nat, q: nat, k: nat :| Named(runs, r, k) && Named(runs, q, k) && runs[r].caches && runs[q].caches
      && runs[r].dir == runs[q].dir && OfRun(kernel, runs, r, k) != OfRun(kernel, runs, q, k);
    var reach: Cache -> bool := c => Reachable(kernel, runs, c);
    forall p, a, t | reach(p) && NextTo(kernel, runs, p, a, t)
      ensures reach(t)
    {
      ReachableNext(kernel, runs, p, a, t);
    }
    assert CacheReachable(kernel, runs, Cache(map[], map[], []), 0);
    s := SharedDirectoryLoads(kernel, runs, reach, r, q, k);
    i := 1;
  }

  // ---- the pool on the caches ----

  /** A run's pool, and the cache files it works on beside other runs. */
  datatype Joint = Joint(pool: Pool, cache: Cache)

  /** Run r has chunk k in hand, loaded or computed as v. */
  ghost predicate LoadedAs(s: Cache, r: nat, k: nat, v: seq<Result>) {
    exists i :: 0 <= i < |s.tasks| && s.tasks[i] == Task(r, k, Loaded(v))
  }

  /** A step of the pool: a worker that finishes a chunk finishes with what the
      caches gave it. */
  ghost predicate PoolMoves(r: nat, s: Joint, a: WorkerPool.Action, f: nat -> seq<Result>, t: Pool) {
    StepsTo(f, s.pool, a, t) && (a.Finish? && a.ok ==> LoadedAs(s.cache, r, s.pool.workers[a.worker].chunk, f(s.pool.workers[a.worker].chunk)))
  }

  ghost predicate JointTo(kernel: Kernel, runs: seq<Run>, r: nat, s: Joint, t: Joint) {
    || (t.pool == s.pool && exists a :: NextTo(kernel, runs, s.cache, a, t.cache))
    || (t.cache == s.cache && exists a, f :: PoolMoves(r, s, a, f, t.pool))
  }

  ghost predicate JointStart(kernel: Kernel, runs: seq<Run>, r: nat, s: Joint)
    requires r < |runs|
  {
    var c := runs[r].config;
    c.Valid() && CacheStart(kernel, runs, s.cache) && Start(s.pool) && s.pool.n == ChunkCount(|c.receivers|, c.chunkSize)
  }

  ghost predicate JointReachable(kernel: Kernel, runs: seq<Run>, r: nat, s: Joint, steps: nat)
    requires r < |runs|
    decreases steps, 1
  {
    if steps == 0 then JointStart(kernel, runs, r, s) else exists p :: JointBy(kernel, runs, r, p, s, steps)
  }

  ghost predicate JointBy(kernel: Kernel, runs: seq<Run>, r: nat, p: Joint, s: Joint, steps: nat)
    requires r < |runs| && steps > 0
    decreases steps, 0
  {
    JointReachable(kernel, runs, r, p, steps - 1) && JointTo(kernel, runs, r, p, s)
  }

  /** What a finish hands over is all a step takes from the chunks' values. */
  lemma SameStep(f: nat -> seq<Result>, g: nat -> seq<Result>, s: Pool, a: WorkerPool.Action, t: Pool)
    requires StepsTo(f, s, a, t)
    requires a.Finish? && a.ok ==> f(s.workers[a.worker].chunk) == g(s.workers[a.worker].chunk)
    ensures StepsTo(g, s, a, t)
  {}

  lemma PoolMovesTruly(kernel: Kernel, runs: seq<Run>, r: nat, s: Joint, a: WorkerPool.Action, f: nat -> seq<Result>, t: Pool, count: nat)
    requires r < |runs| && Agreed(kernel, runs, s.cache) && PoolMoves(r, s, a, f, t)
    requires ReachableIn(ValuesOf(kernel, runs[r].config), s.pool, count)
    ensures ReachableIn(ValuesOf(kernel, runs[r].config), t, count + 1) && t.n == s.pool.n
  {
    var g := ValuesOf(kernel, runs[r].config);
    if a.Finish? && a.ok {
      var k := s.pool.workers[a.worker].chunk;
      var i :| 0 <= i < |s.cache.tasks| && s.cache.tasks[i] == Task(r, k, Loaded(f(k)));
      assert Truthful(kernel, runs, s.cache.tasks[i]);
    }
    SameStep(f, g, s.pool, a, t);
    ReachableStep(g, s.pool, a, t, count);
  }

  lemma ReachableStep(f: nat -> seq<Result>, s: Pool, a: WorkerPool.Action, t: Pool, count: nat)
    requires ReachableIn(f, s, count) && StepsTo(f, s, a, t)
    ensures ReachableIn(f, t, count + 1) && t.n == s.n
  {
    assert Steps(f)(s, t);
  }

  /** The caches hold what computing gives, and the pool has run as it would if
      every chunk were computed. */
  ghost predicate JointTrue(kernel: Kernel, runs: seq<Run>, r: nat, s: Joint, count: nat)
    requires r < |runs|
  {
    var c := runs[r].config;
    && Agreed(kernel, runs, s.cache) && ReachableIn(ValuesOf(kernel, c), s.pool, count)
    && c.Valid() && s.pool.n == ChunkCount(|c.receivers|, c.chunkSize)
  }

  lemma JointStarts(kernel: Kernel, runs: seq<Run>, r: nat, s: Joint)
    requires r < |runs| && JointStart(kernel, runs, r, s)
    ensures JointTrue(kernel, runs, r, s, 0)
  {}

  lemma JointKeeps(kernel: Kernel, runs: seq<Run>, r: nat, p: Joint, s: Joint, count: nat) returns (more: nat)
    requires r < |runs| && Compatible(kernel, runs) && JointTrue(kernel, runs, r, p, count) && JointTo(kernel, runs, r, p, s)
    ensures JointTrue(kernel, runs, r, s, more)
  {
    if s.pool == p.pool && exists a :: NextTo(kernel, runs, p.cache, a, s.cache) {
      var a :| NextTo(kernel, runs, p.cache, a, s.cache);
      NextAgrees(kernel, runs, p.cache, a);
      more := count;
    } else {
      var a, f :| PoolMoves(r, p, a, f, s.pool);
      PoolMovesTruly(kernel, runs, r, p, a, f, s.pool, count);
      more := count + 1;
    }
  }

  lemma JointBefore(kernel: Kernel, runs: seq<Run>, r: nat, s: Joint, steps: nat) returns (p: Joint)
    requires r < |runs| && steps > 0 && JointReachable(kernel, runs, r, s, steps)
    ensures JointReachable(kernel, runs, r, p, steps - 1) && JointTo(kernel, runs, r, p, s)
  {
    p :| JointBy(kernel, runs, r, p, s, steps);
  }

  lemma {:induction false} JointIsTrue(kernel: Kernel, runs: seq<Run>, r: nat, s: Joint, steps: nat) returns (count: nat)
    requires r < |runs| && Compatible(kernel, runs) && JointReachable(kernel, runs, r, s, steps)
    ensures JointTrue(kernel, runs, r, s, count)
    decreases steps
  {
    if steps == 0 {
      JointStarts(kernel, runs, r, s);
      count := 0;
    } else {
      var p := JointBefore(kernel, runs, r, s, steps);
      var before := JointIsTrue(kernel, runs, r, p, steps - 1);
      count := JointKeeps(kernel, runs, r, p, s, before);
    }
  }

  /** A pool whose workers load or compute their chunks through compatible caches,
      beside any other runs, and that returns no error, gives the results of one
      sequential pass. */
  lemma CachedPoolEqualsSequential(kernel: Kernel, runs: seq<Run>, r: nat, s: Joint, steps: nat)
    requires r < |runs| && Compatible(kernel, runs) && JointReachable(kernel, runs, r, s, steps)
    requires s.pool.returned && !s.pool.failed && !s.pool.outer
    ensures Merged(s.pool.received, s.pool.n) == Evaluate(kernel, runs[r].config.sources, runs[r].config.receivers)
  {
    var count := JointIsTrue(kernel, runs, r, s, steps);
    PoolEqualsSequential(kernel, runs[r].config, s.pool, count);
  }
}
