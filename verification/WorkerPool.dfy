/** The engine's worker pool as steps of its goroutines: a producer offering
    chunks, workers computing them, a buffered result channel, the collector
    that drains it, and cancellation at any time. */
module WorkerPool {
  import opened Options

  datatype Result = Result(receiver: nat, level: real)

  /** What a worker sends about a chunk. */
  datatype Message = Done(chunk: nat, results: seq<Result>, fromCache: bool) | Failed(chunk: nat)

  datatype Worker = Waiting | Busy(chunk: nat) | Holding(message: Message) | Exited {

    /** The chunk in hand, if any. */
    function Hand(): multiset<nat> {
      match this
      case Busy(k) => multiset{k}
      case Holding(m) => multiset{m.chunk}
      case _ => multiset{}
    }
  }

  datatype Pool = Pool(
    n: nat,                           // chunks
    next: nat, offering: bool,        // the producer: chunks offered so far, and whether jobs is open
    workers: seq<Worker>,
    channel: seq<Message>,            // resultsCh, capacity n
    closed: bool,                     // resultsCh closed, once every worker is done
    taken: multiset<nat>,             // chunks whose message the collector has read
    received: map<nat, seq<Result>>, completed: nat, usedCached: nat,
    failed: bool,                     // firstErr is set
    canceled: bool,                   // computeCtx is done
    outer: bool,                      // the caller's context is done
    returned: bool)                   // computeChunks has returned

  datatype Action =
    | Send(worker: nat)                       // the producer hands a waiting worker the next chunk
    | CloseJobs                               // the producer is through, or gives up on a done context
    | Finish(worker: nat, ok: bool, cached: bool)
    | Deliver(worker: nat)                    // into the channel
    | Leave(worker: nat)                      // jobs is closed and drained
    | CloseResults                            // wg.Wait
    | Collect
    | Return
    | Cancel                                  // the caller

  function Move(s: Pool, w: nat, to: Worker): Pool
    requires w < |s.workers|
  {
    s.(workers := s.workers[w := to])
  }

  /** One message in the collector's loop. */
  function Collected(s: Pool, m: Message): Pool {
    var t := s.(taken := s.taken + multiset{m.chunk});
    if m.Failed? then t.(failed := true, canceled := true)
    else if s.failed then t
    else t.(received := s.received[m.chunk := m.results], completed := s.completed + 1,
            usedCached := if m.fromCache then s.usedCached + 1 else s.usedCached)
  }

  /** f gives what computing or loading a chunk gives. */
  function Step(f: nat -> seq<Result>, s: Pool, a: Action): (r: Option<Pool>) {
    if s.returned then None
    else match a
      case Send(w) =>
        if w < |s.workers| && s.workers[w].Waiting? && s.offering && s.next < s.n
        then Some(Move(s, w, Busy(s.next)).(next := s.next + 1)) else None
      case CloseJobs =>
        if s.offering && (s.next == s.n || s.canceled) then Some(s.(offering := false)) else None
      case Finish(w, ok, cached) =>
        if w < |s.workers| && s.workers[w].Busy?
        then
          var k := s.workers[w].chunk;
          Some(Move(s, w, Holding(if ok then Done(k, f(k), cached) else Failed(k))))
        else None
      case Deliver(w) =>
        if w < |s.workers| && s.workers[w].Holding? && |s.channel| < s.n
        then
          var m := s.workers[w].message;
          Some(Move(s, w, if m.Failed? then Exited else Waiting).(channel := s.channel + [m]))
        else None
      case Leave(w) =>
        if w < |s.workers| && s.workers[w].Waiting? && !s.offering then Some(Move(s, w, Exited)) else None
      case CloseResults =>
        if !s.closed && AllExited(s) then Some(s.(closed := true)) else None
      case Collect =>
        if s.channel != [] then Some(Collected(s, s.channel[0]).(channel := s.channel[1..])) else None
      case Return =>
        if s.closed && s.channel == [] then Some(s.(returned := true)) else None
      case Cancel =>
        if !s.outer then Some(s.(outer := true, canceled := true)) else None
  }

  predicate AllExited(s: Pool) { forall w :: 0 <= w < |s.workers| ==> s.workers[w].Exited? }

  predicate Start(s: Pool) {
    && |s.workers| >= 1 && (forall w :: 0 <= w < |s.workers| ==> s.workers[w].Waiting?)
    && s == Pool(s.n, 0, true, s.workers, [], false, multiset{}, map[], 0, 0, false, s.outer, s.outer, false)
  }

  // ---- where a chunk is ----

  function Held(workers: seq<Worker>): multiset<nat> {
    if workers == [] then multiset{} else Held(workers[..|workers| - 1]) + workers[|workers| - 1].Hand()
  }

  function Queued(channel: seq<Message>): multiset<nat> {
    if channel == [] then multiset{} else multiset{channel[0].chunk} + Queued(channel[1..])
  }

  /** Chunks 0 to next-1, once each. */
  function Sent(next: nat): multiset<nat> { if next == 0 then multiset{} else Sent(next - 1) + multiset{next - 1} }

  /** Every chunk sent is with a worker, in the channel or collected, and only once. */
  ghost predicate Placed(s: Pool) {
    s.next <= s.n && Held(s.workers) + Queued(s.channel) + s.taken == Sent(s.next)
  }

  lemma {:induction false} HeldMoves(workers: seq<Worker>, w: nat, to: Worker)
    requires w < |workers|
    ensures Held(workers[w := to]) + workers[w].Hand() == Held(workers) + to.Hand()
  {
    var last := |workers| - 1;
    if w < last {
      assert workers[w := to][..last] == workers[..last][w := to];
      HeldMoves(workers[..last], w, to);
      Swapped(Held(workers[..last][w := to]), Held(workers[..last]), workers[w].Hand(), to.Hand(), workers[last].Hand());
    } else {
      assert workers[w := to][..last] == workers[..last];
    }
  }

  lemma Swapped(x: multiset<nat>, y: multiset<nat>, a: multiset<nat>, b: multiset<nat>, c: multiset<nat>)
    requires x + a == y + b
    ensures x + c + a == y + c + b
  {
    assert x + c + a == (x + a) + c;
    assert y + c + b == (y + b) + c;
  }

  lemma {:induction false} QueuedGrows(channel: seq<Message>, m: Message)
    ensures Queued(channel + [m]) == Queued(channel) + multiset{m.chunk}
  {
    if channel == [] {
      assert channel + [m] == [m] && [m][1..] == [];
    } else {
      assert (channel + [m])[1..] == channel[1..] + [m];
      QueuedGrows(channel[1..], m);
    }
  }

  lemma {:induction false} SentOnce(next: nat, k: nat)
    ensures Sent(next)[k] == if k < next then 1 else 0
  {
    if next > 0 {
      SentOnce(next - 1, k);
    }
  }

  /** Each chunk is in exactly one place: unsent, with a worker, queued or collected. */
  lemma ExactlyOnePlace(s: Pool, k: nat)
    requires Placed(s)
    ensures (if k < s.next then 0 else 1) + Held(s.workers)[k] + Queued(s.channel)[k] + s.taken[k] == 1
  {
    SentOnce(s.next, k);
    assert (Held(s.workers) + Queued(s.channel) + s.taken)[k] == Sent(s.next)[k];
  }

  lemma {:induction false} HeldHas(workers: seq<Worker>, w: nat)
    requires w < |workers|
    ensures workers[w].Hand() <= Held(workers)
  {
    if w < |workers| - 1 {
      HeldHas(workers[..|workers| - 1], w);
    }
  }

  // ---- what has been said of the chunks ----

  predicate True(f: nat -> seq<Result>, m: Message) { m.Done? ==> m.results == f(m.chunk) }

  predicate TrueAt(f: nat -> seq<Result>, w: Worker) { w.Holding? ==> True(f, w.message) }

  predicate Faulty(s: Pool) { s.failed || exists i :: 0 <= i < |s.channel| && s.channel[i].Failed? }

  /** Every message is true, and what was received is what the chunks give. */
  ghost predicate Told(f: nat -> seq<Result>, s: Pool) {
    && (forall w :: 0 <= w < |s.workers| ==> TrueAt(f, s.workers[w]))
    && (forall i :: 0 <= i < |s.channel| ==> True(f, s.channel[i]))
    && (forall k :: k in s.received ==> k in s.taken && s.received[k] == f(k))
    && (!s.failed ==> forall k :: k in s.taken ==> k in s.received)
    && s.completed == |s.received| && s.usedCached <= s.completed
  }

  ghost predicate Orderly(s: Pool) {
    && |s.workers| >= 1
    && (s.canceled <==> s.failed || s.outer)
    && (!s.offering && s.next < s.n ==> s.canceled)
    && (s.offering && !Faulty(s) ==> forall w :: 0 <= w < |s.workers| ==> !s.workers[w].Exited?)
    && (s.closed ==> AllExited(s))
    && (s.returned ==> s.closed && s.channel == [])
  }

  ghost predicate Inv(f: nat -> seq<Result>, s: Pool) { Placed(s) && Told(f, s) && Orderly(s) }

  ghost predicate StepsTo(f: nat -> seq<Result>, s: Pool, a: Action, t: Pool) { Step(f, s, a) == Some(t) }

  /** What happens to the places when one hand and the rest change. */
  lemma Balance(held: multiset<nat>, after: multiset<nat>, before: multiset<nat>, now: multiset<nat>, rest: multiset<nat>, rest': multiset<nat>, new': multiset<nat>)
    requires after + before == held + now && rest' + now == rest + before + new'
    ensures after + rest' == held + rest + new'
  {
    forall k: nat
      ensures (after + rest')[k] == (held + rest + new')[k]
    {
      assert (after + before)[k] == (held + now)[k];
      assert (rest' + now)[k] == (rest + before + new')[k];
    }
  }

  /** Worker w's hand changes, and nothing else but what is queued. */
  lemma HandPlaced(s: Pool, t: Pool, w: nat, sent: multiset<nat>)
    requires Placed(s) && w < |s.workers| == |t.workers| && t.workers == s.workers[w := t.workers[w]] && t.taken == s.taken && t.n == s.n
    requires t.next <= t.n && Sent(t.next) == Sent(s.next) + sent
    requires Queued(t.channel) + t.workers[w].Hand() == Queued(s.channel) + s.workers[w].Hand() + sent
    ensures Placed(t)
  {
    HeldMoves(s.workers, w, t.workers[w]);
    Balance(Held(s.workers), Held(t.workers), s.workers[w].Hand(), t.workers[w].Hand(), Queued(s.channel), Queued(t.channel), sent);
    assert Held(t.workers) + Queued(t.channel) + t.taken == Held(s.workers) + Queued(s.channel) + sent + t.taken;
    assert Held(s.workers) + Queued(s.channel) + sent + t.taken == (Held(s.workers) + Queued(s.channel) + s.taken) + sent;
  }

  lemma HandPasses(s: Pool, t: Pool, w: nat)
    requires Placed(s) && w < |s.workers| == |t.workers| && t.workers == s.workers[w := t.workers[w]] && t.taken == s.taken && t.n == s.n
    requires t.next == s.next && Queued(t.channel) + t.workers[w].Hand() == Queued(s.channel) + s.workers[w].Hand()
    ensures Placed(t)
  {
    assert Queued(s.channel) + s.workers[w].Hand() + multiset{} == Queued(s.channel) + s.workers[w].Hand();
    assert Sent(s.next) + multiset{} == Sent(s.next);
    HandPlaced(s, t, w, multiset{});
  }

  lemma SendPlaced(f: nat -> seq<Result>, s: Pool, w: nat, t: Pool)
    requires Placed(s) && StepsTo(f, s, Send(w), t)
    ensures Placed(t)
  {
    assert Queued(s.channel) + multiset{} == Queued(s.channel);
    HandPlaced(s, t, w, multiset{s.next});
  }

  lemma FinishPlaced(f: nat -> seq<Result>, s: Pool, w: nat, ok: bool, cached: bool, t: Pool)
    requires Placed(s) && StepsTo(f, s, Finish(w, ok, cached), t)
    ensures Placed(t)
  {
    HandPasses(s, t, w);
  }

  lemma DeliverPlaced(f: nat -> seq<Result>, s: Pool, w: nat, t: Pool)
    requires Placed(s) && StepsTo(f, s, Deliver(w), t)
    ensures Placed(t)
  {
    MessageMoves(s, t, w, s.workers[w].message);
  }

  lemma MessageMoves(s: Pool, t: Pool, w: nat, m: Message)
    requires Placed(s) && w < |s.workers| == |t.workers| && t.workers == s.workers[w := t.workers[w]] && t.taken == s.taken && t.n == s.n
    requires t.next == s.next && s.workers[w] == Holding(m) && t.workers[w].Hand() == multiset{} && t.channel == s.channel + [m]
    ensures Placed(t)
  {
    QueuedGrows(s.channel, m);
    assert Queued(t.channel) + multiset{} == Queued(t.channel);
    HandPasses(s, t, w);
  }

  lemma LeavePlaced(f: nat -> seq<Result>, s: Pool, w: nat, t: Pool)
    requires Placed(s) && StepsTo(f, s, Leave(w), t)
    ensures Placed(t)
  {
    HandPasses(s, t, w);
  }

  lemma StepPlaced(f: nat -> seq<Result>, s: Pool, a: Action, t: Pool)
    requires Placed(s) && StepsTo(f, s, a, t)
    ensures Placed(t)
  {
    match a
    case Send(w) => SendPlaced(f, s, w, t);
    case Finish(w, ok, cached) => FinishPlaced(f, s, w, ok, cached, t);
    case Deliver(w) => DeliverPlaced(f, s, w, t);
    case Leave(w) => LeavePlaced(f, s, w, t);
    case Collect => CollectPlaced(s, t);
    case _ =>
  }

  lemma CollectPlaced(s: Pool, t: Pool)
    requires Placed(s) && s.channel != [] && t.next == s.next && t.n == s.n && t.workers == s.workers
    requires t.channel == s.channel[1..] && t.taken == s.taken + multiset{s.channel[0].chunk}
    ensures Placed(t)
  {
    assert Queued(s.channel) == multiset{s.channel[0].chunk} + Queued(s.channel[1..]);
  }

  lemma StepTold(f: nat -> seq<Result>, s: Pool, a: Action, t: Pool)
    requires Placed(s) && Told(f, s) && StepsTo(f, s, a, t)
    ensures Told(f, t)
  {
    if a.Collect? {
      HeadNotTaken(s);
      CollectTold(f, s, t);
    } else if a.Send? || a.Finish? || a.Deliver? || a.Leave? {
      HandTold(f, s, t, a.worker);
    }
  }

  /** Only worker w and the channel's end have changed, and both tell the truth. */
  lemma HandTold(f: nat -> seq<Result>, s: Pool, t: Pool, w: nat)
    requires Told(f, s) && w < |s.workers| == |t.workers| && t.workers == s.workers[w := t.workers[w]]
    requires t.taken == s.taken && t.received == s.received && t.failed == s.failed && t.completed == s.completed && t.usedCached == s.usedCached
    requires TrueAt(f, t.workers[w])
    requires t.channel == s.channel || (s.workers[w].Holding? && t.channel == s.channel + [s.workers[w].message])
    ensures Told(f, t)
  {
    assert TrueAt(f, s.workers[w]);
  }

  lemma HeadNotTaken(s: Pool)
    requires Placed(s) && s.channel != []
    ensures s.channel[0].chunk !in s.taken
  {
    var k := s.channel[0].chunk;
    ExactlyOnePlace(s, k);
    assert Queued(s.channel) == multiset{k} + Queued(s.channel[1..]);
  }

  lemma CollectTold(f: nat -> seq<Result>, s: Pool, t: Pool)
    requires Told(f, s) && s.channel != [] && s.channel[0].chunk !in s.taken
    requires t == Collected(s, s.channel[0]).(channel := s.channel[1..])
    ensures Told(f, t)
  {
    assert True(f, s.channel[0]);
    assert s.channel[0].chunk !in s.received;
  }

  lemma FaultyStays(f: nat -> seq<Result>, s: Pool, a: Action, t: Pool)
    requires Faulty(s) && StepsTo(f, s, a, t)
    ensures Faulty(t)
  {
    if !s.failed {
      var i :| 0 <= i < |s.channel| && s.channel[i].Failed?;
      if a.Collect? {
        if i > 0 {
          assert t.channel[i - 1].Failed?;
        }
      } else {
        assert t.channel[i].Failed?;
      }
    }
  }

  lemma StepOrderly(f: nat -> seq<Result>, s: Pool, a: Action, t: Pool)
    requires Orderly(s) && StepsTo(f, s, a, t)
    ensures Orderly(t)
  {
    if Faulty(s) {
      FaultyStays(f, s, a, t);
    } else if a.Deliver? && s.workers[a.worker].message.Failed? {
      assert t.channel[|s.channel|].Failed?;
    }
  }

  lemma StepKeeps(f: nat -> seq<Result>, s: Pool, a: Action, t: Pool)
    requires Inv(f, s) && StepsTo(f, s, a, t)
    ensures Inv(f, t)
  {
    StepPlaced(f, s, a, t);
    StepTold(f, s, a, t);
    StepOrderly(f, s, a, t);
  }

  // ---- runs ----

  type Relation = (Pool, Pool) -> bool

  /** The pool's steps, as a relation. */
  ghost function Steps(f: nat -> seq<Result>): Relation { (s, t) => exists a :: StepsTo(f, s, a, t) }

  ghost predicate ReachableBy(step: Relation, s: Pool, count: nat)
    decreases count
  {
    if count == 0 then Start(s) else exists p :: ReachableBy(step, p, count - 1) && step(p, s)
  }

  ghost predicate ReachableIn(f: nat -> seq<Result>, s: Pool, count: nat) { ReachableBy(Steps(f), s, count) }

  /** What holds at every start and is kept by every step, counted, holds of
      every run. */
  lemma {:induction false} Induct(step: Relation, inv: (Pool, int) -> bool, s: Pool, count: nat)
    requires ReachableBy(step, s, count)
    requires forall p :: Start(p) ==> inv(p, 0)
    requires forall p, t, m :: inv(p, m) && step(p, t) ==> inv(t, m + 1)
    ensures inv(s, count)
    decreases count
  {
    if count > 0 {
      var p :| ReachableBy(step, p, count - 1) && step(p, s);
      Induct(step, inv, p, count - 1);
    }
  }

  lemma AlwaysInv(f: nat -> seq<Result>, s: Pool, count: nat)
    requires ReachableIn(f, s, count)
    ensures Inv(f, s)
  {
    var inv: (Pool, int) -> bool := (p, m) => Inv(f, p);
    forall p | Start(p)
      ensures inv(p, 0)
    {
      StartInv(f, p);
    }
    forall p, t, m | inv(p, m) && Steps(f)(p, t)
      ensures inv(t, m + 1)
    {
      AnyStepKeeps(f, p, t);
    }
    Induct(Steps(f), inv, s, count);
  }

  lemma AnyStepKeeps(f: nat -> seq<Result>, s: Pool, t: Pool)
    requires Inv(f, s) && Steps(f)(s, t)
    ensures Inv(f, t)
  {
    var a :| StepsTo(f, s, a, t);
    StepKeeps(f, s, a, t);
  }

  lemma {:induction false} NoneHeld(workers: seq<Worker>)
    requires forall w :: 0 <= w < |workers| ==> workers[w].Hand() == multiset{}
    ensures Held(workers) == multiset{}
  {
    if workers != [] {
      NoneHeld(workers[..|workers| - 1]);
    }
  }

  lemma StartInv(f: nat -> seq<Result>, s: Pool)
    requires Start(s)
    ensures Inv(f, s)
  {
    NoneHeld(s.workers);
  }

  // ---- no deadlock ----

  lemma {:induction false} QueuedSize(channel: seq<Message>)
    ensures |Queued(channel)| == |channel|
  {
    if channel != [] {
      QueuedSize(channel[1..]);
    }
  }

  lemma {:induction false} SentSize(next: nat)
    ensures |Sent(next)| == next
  {
    if next > 0 {
      SentSize(next - 1);
    }
  }

  /** A worker with a message never finds the channel full. */
  lemma RoomToDeliver(s: Pool, w: nat)
    requires Placed(s) && w < |s.workers| && s.workers[w].Holding?
    ensures |s.channel| < s.n
  {
    HeldHas(s.workers, w);
    QueuedSize(s.channel);
    SentSize(s.next);
    assert |Held(s.workers)| >= 1 by {
      assert s.workers[w].message.chunk in Held(s.workers);
    }
    assert |Held(s.workers) + Queued(s.channel) + s.taken| == |Held(s.workers)| + |Queued(s.channel)| + |s.taken|;
  }

  /** Until it returns, the pool always has a step of its own to take. */
  lemma NeverStuck(f: nat -> seq<Result>, s: Pool, count: nat) returns (a: Action)
    requires ReachableIn(f, s, count) && !s.returned
    ensures !a.Cancel? && Step(f, s, a).Some?
  {
    AlwaysInv(f, s, count);
    if s.channel != [] {
      return Collect;
    }
    if w :| 0 <= w < |s.workers| && s.workers[w].Holding? {
      RoomToDeliver(s, w);
      return Deliver(w);
    }
    if w :| 0 <= w < |s.workers| && s.workers[w].Busy? {
      return Finish(w, true, false);
    }
    if w :| 0 <= w < |s.workers| && s.workers[w].Waiting? {
      a := if !s.offering then Leave(w) else if s.next < s.n then Send(w) else CloseJobs;
    } else {
      a := if s.closed then Return else CloseResults;
    }
  }

  // ---- every run ends ----

  function Weight(w: Worker): nat {
    match w
    case Waiting => 1
    case Busy(_) => 5
    case Holding(_) => 4
    case Exited => 0
  }

  function Load(workers: seq<Worker>): nat {
    if workers == [] then 0 else Load(workers[..|workers| - 1]) + Weight(workers[|workers| - 1])
  }

  function Flag(b: bool): nat { if b then 0 else 1 }

  /** What is left to do. */
  function Measure(s: Pool): int {
    (if s.offering then 5 * (s.n - s.next) + 1 else 0) + Load(s.workers) + 2 * |s.channel| + Flag(s.closed) + Flag(s.returned) + Flag(s.outer)
  }

  lemma {:induction false} LoadMoves(workers: seq<Worker>, w: nat, to: Worker)
    requires w < |workers|
    ensures Load(workers[w := to]) + Weight(workers[w]) == Load(workers) + Weight(to)
  {
    var last := |workers| - 1;
    if w < last {
      assert workers[w := to][..last] == workers[..last][w := to];
      LoadMoves(workers[..last], w, to);
    } else {
      assert workers[w := to][..last] == workers[..last];
    }
  }

  /** Nothing but worker w, the producer's place and the channel's end has changed. */
  lemma HandFalls(s: Pool, t: Pool, w: nat, next: nat, channel: seq<Message>)
    requires w < |s.workers| == |t.workers| && t == s.(workers := s.workers[w := t.workers[w]], next := next, channel := channel)
    requires (if s.offering then 5 * (s.next - next) else 0) + Weight(t.workers[w]) + 2 * |channel| < Weight(s.workers[w]) + 2 * |s.channel|
    ensures Measure(t) < Measure(s)
  {
    LoadMoves(s.workers, w, t.workers[w]);
  }

  /** Every step, a cancel too, leaves less to do. */
  lemma MeasureFalls(f: nat -> seq<Result>, s: Pool, a: Action, t: Pool)
    requires s.next <= s.n && StepsTo(f, s, a, t)
    ensures t.next <= t.n && t.n == s.n && |t.workers| == |s.workers| && 0 <= Measure(t) < Measure(s)
  {
    if a.Send? || a.Finish? || a.Deliver? || a.Leave? {
      HandStepFalls(f, s, a, t);
    }
  }

  lemma HandStepFalls(f: nat -> seq<Result>, s: Pool, a: Action, t: Pool)
    requires s.next <= s.n && StepsTo(f, s, a, t) && (a.Send? || a.Finish? || a.Deliver? || a.Leave?)
    ensures Measure(t) < Measure(s)
  {
    HandFalls(s, t, a.worker, t.next, t.channel);
  }

  lemma AnyStepFalls(f: nat -> seq<Result>, s: Pool, t: Pool)
    requires s.next <= s.n && Steps(f)(s, t)
    ensures t.next <= t.n && t.n == s.n && |t.workers| == |s.workers| && 0 <= Measure(t) < Measure(s)
  {
    var a :| StepsTo(f, s, a, t);
    MeasureFalls(f, s, a, t);
  }

  lemma {:induction false} WaitingLoad(workers: seq<Worker>)
    requires forall w :: 0 <= w < |workers| ==> workers[w].Waiting?
    ensures Load(workers) == |workers|
  {
    if workers != [] {
      WaitingLoad(workers[..|workers| - 1]);
    }
  }

  /** So many steps taken leave no more than so much to do. */
  ghost predicate Spent(s: Pool, count: int) {
    s.next <= s.n && 0 <= Measure(s) && count + Measure(s) <= 5 * s.n + |s.workers| + 4
  }

  lemma StepSpends(f: nat -> seq<Result>, s: Pool, t: Pool, count: int)
    requires Spent(s, count) && Steps(f)(s, t)
    ensures Spent(t, count + 1)
  {
    AnyStepFalls(f, s, t);
  }

  /** No run of n chunks on m workers takes more than 5n + m + 4 steps. */
  lemma RunsEnd(f: nat -> seq<Result>, s: Pool, count: nat)
    requires ReachableIn(f, s, count)
    ensures count <= 5 * s.n + |s.workers| + 4
  {
    var inv: (Pool, int) -> bool := (p, m) => Spent(p, m);
    forall p | Start(p)
      ensures inv(p, 0)
    {
      WaitingLoad(p.workers);
    }
    forall p, t, m | inv(p, m) && Steps(f)(p, t)
      ensures inv(t, m + 1)
    {
      StepSpends(f, p, t, m);
    }
    Induct(Steps(f), inv, s, count);
  }

  // ---- what a run delivers ----

  /** No worker outlives the call: when it returns every one of them is done. */
  lemma NoWorkerOutlives(f: nat -> seq<Result>, s: Pool, count: nat)
    requires ReachableIn(f, s, count) && s.returned
    ensures AllExited(s) && s.channel == []
  {
    AlwaysInv(f, s, count);
  }

  /** A call that returns no error has collected every chunk, once, with what
      the chunk gives. */
  lemma SuccessIsComplete(f: nat -> seq<Result>, s: Pool, count: nat)
    requires ReachableIn(f, s, count) && s.returned && !s.failed && !s.outer
    ensures forall k: nat :: k in s.received <==> k < s.n
    ensures forall k :: k in s.received ==> s.received[k] == f(k)
    ensures s.completed == s.n
  {
    AlwaysInv(f, s, count);
    AllTaken(s);
    forall k: nat
      ensures k in s.received <==> k < s.n
    {
      SentOnce(s.n, k);
    }
    KeysBelow(s.received, s.n);
  }

  lemma AllTaken(s: Pool)
    requires Placed(s) && Orderly(s) && s.returned && !s.failed && !s.outer
    ensures s.taken == Sent(s.n)
  {
    NoneHeld(s.workers);
    assert s.workers[0].Exited? && !Faulty(s);
    assert Queued([]) == multiset{};
  }

  lemma {:induction false} KeysBelow(m: map<nat, seq<Result>>, n: nat)
    requires forall k: nat :: k in m <==> k < n
    ensures |m| == n
    decreases n
  {
    if n == 0 {
      assert m == map[];
    } else {
      var rest := map k | k in m && k != n - 1 :: m[k];
      KeysBelow(rest, n - 1);
      assert m == rest[n - 1 := m[n - 1]];
    }
  }

  // ---- a failure is told ----

  /** These actions lead from a start to s. */
  ghost predicate Acted(f: nat -> seq<Result>, acts: seq<Action>, s: Pool)
    decreases |acts|, 1
  {
    if acts == [] then Start(s) else exists p :: ActedBy(f, acts, p, s)
  }

  ghost predicate ActedBy(f: nat -> seq<Result>, acts: seq<Action>, p: Pool, s: Pool)
    requires acts != []
    decreases |acts|, 0
  {
    Acted(f, acts[..|acts| - 1], p) && StepsTo(f, p, acts[|acts| - 1], s)
  }

  /** A chunk that could not be computed. */
  predicate Fails(a: Action) { a.Finish? && !a.ok }

  predicate HoldsFailure(w: Worker) { w.Holding? && w.message.Failed? }

  /** A failure is with a worker, in the channel, or set. */
  ghost predicate FailureKnown(s: Pool) {
    Faulty(s) || exists w :: 0 <= w < |s.workers| && HoldsFailure(s.workers[w])
  }

  lemma FailureArises(f: nat -> seq<Result>, s: Pool, a: Action, t: Pool)
    requires StepsTo(f, s, a, t) && Fails(a)
    ensures FailureKnown(t)
  {
    assert HoldsFailure(t.workers[a.worker]);
  }

  lemma FailureStays(f: nat -> seq<Result>, s: Pool, a: Action, t: Pool)
    requires StepsTo(f, s, a, t) && FailureKnown(s)
    ensures FailureKnown(t)
  {
    if Faulty(s) {
      FaultyStays(f, s, a, t);
    } else {
      var w :| 0 <= w < |s.workers| && HoldsFailure(s.workers[w]);
      if a.Deliver? && a.worker == w {
        assert t.channel[|s.channel|].Failed?;
      } else {
        assert t.workers[w] == s.workers[w];
      }
    }
  }

  lemma NoFailureArises(f: nat -> seq<Result>, s: Pool, a: Action, t: Pool)
    requires StepsTo(f, s, a, t) && !Fails(a) && !FailureKnown(s)
    ensures !FailureKnown(t)
  {
    forall w | 0 <= w < |t.workers|
      ensures !HoldsFailure(t.workers[w])
    {
      assert !HoldsFailure(s.workers[w]);
    }
    forall i | 0 <= i < |t.channel|
      ensures !t.channel[i].Failed?
    {
      if a.Deliver? && i == |s.channel| {
        assert !HoldsFailure(s.workers[a.worker]);
      } else {
        assert !s.channel[if a.Collect? then i + 1 else i].Failed?;
      }
    }
    assert s.channel != [] ==> !s.channel[0].Failed?;
  }

  lemma FailureNext(f: nat -> seq<Result>, s: Pool, a: Action, t: Pool)
    requires StepsTo(f, s, a, t)
    ensures FailureKnown(t) <==> FailureKnown(s) || Fails(a)
  {
    if Fails(a) {
      FailureArises(f, s, a, t);
    } else if FailureKnown(s) {
      FailureStays(f, s, a, t);
    } else {
      NoFailureArises(f, s, a, t);
    }
  }

  ghost predicate SomeFails(acts: seq<Action>) { exists i :: 0 <= i < |acts| && Fails(acts[i]) }

  lemma SomeFailsNext(acts: seq<Action>)
    requires acts != []
    ensures SomeFails(acts) <==> SomeFails(acts[..|acts| - 1]) || Fails(acts[|acts| - 1])
  {
    assert forall i :: 0 <= i < |acts| - 1 ==> acts[..|acts| - 1][i] == acts[i];
  }

  lemma BeforeLast(f: nat -> seq<Result>, acts: seq<Action>, s: Pool) returns (p: Pool)
    requires acts != [] && Acted(f, acts, s)
    ensures Acted(f, acts[..|acts| - 1], p) && StepsTo(f, p, acts[|acts| - 1], s)
  {
    p :| ActedBy(f, acts, p, s);
  }

  lemma StartKnowsNone(s: Pool)
    requires Start(s)
    ensures !FailureKnown(s)
  {}

  lemma {:induction false} FailureIsKnown(f: nat -> seq<Result>, acts: seq<Action>, s: Pool)
    requires Acted(f, acts, s)
    ensures FailureKnown(s) <==> SomeFails(acts)
    decreases |acts|
  {
    if acts == [] {
      StartKnowsNone(s);
    } else {
      var p := BeforeLast(f, acts, s);
      FailureIsKnown(f, acts[..|acts| - 1], p);
      FailureNext(f, p, acts[|acts| - 1], s);
      SomeFailsNext(acts);
    }
  }

  lemma ReachesNext(step: Relation, p: Pool, s: Pool, count: nat)
    requires ReachableBy(step, p, count) && step(p, s)
    ensures ReachableBy(step, s, count + 1)
  {}

  ghost predicate Includes(step: Relation, f: nat -> seq<Result>) {
    forall p, a, s :: StepsTo(f, p, a, s) ==> step(p, s)
  }

  lemma StepsInclude(f: nat -> seq<Result>)
    ensures Includes(Steps(f), f)
  {}

  lemma {:induction false} ActedReaches(f: nat -> seq<Result>, step: Relation, acts: seq<Action>, s: Pool)
    requires Includes(step, f) && Acted(f, acts, s)
    ensures ReachableBy(step, s, |acts|)
    decreases |acts|
  {
    if acts != [] {
      var p := BeforeLast(f, acts, s);
      ActedReaches(f, step, acts[..|acts| - 1], p);
      ReachesNext(step, p, s, |acts| - 1);
    }
  }

  /** A call that has returned reports a failure exactly when some chunk failed,
      however its goroutines interleaved. */
  lemma FailureIsTold(f: nat -> seq<Result>, acts: seq<Action>, s: Pool)
    requires Acted(f, acts, s) && s.returned
    ensures s.failed <==> SomeFails(acts)
  {
    FailureIsKnown(f, acts, s);
    StepsInclude(f);
    ActedReaches(f, Steps(f), acts, s);
    NoWorkerOutlives(f, s, |acts|);
    assert forall w :: 0 <= w < |s.workers| ==> !HoldsFailure(s.workers[w]);
  }
}
