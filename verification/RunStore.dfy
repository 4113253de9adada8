/** The browser run store as a protocol between tabs. Every await is a step, so
    a tab can die, be cancelled or be refused by the store between any two. */
module RunStore {
  import opened RunDocument
  import opened Options

  /** What the protocol leans on. */
  datatype Env = Env(
    locks: bool,       // navigator.locks exists
    readsFail: bool,   // a reload inside a writer can find the store unavailable
    putThrows: bool,   // a document's put can throw instead of failing
    inOrder: bool)     // the store runs transactions in the order they were issued

  /** An export's files by name: those the document holds as JSON and as text. */
  datatype Files = Files(jsons: set<string>, texts: set<string>)

  datatype Job = StartRun(startedAt: int) | Export(id: nat, files: Files) | Delete(id: nat)

  datatype What = ARun | AnExport

  /** Where a tab stands; everything but Idle is inside withStoreLock. */
  datatype Phase =
    | Idle
    | Sweeping(job: Job)
    | Listing(job: Job, loaded: Doc)
    | Reclaiming(job: Job, orphans: set<Artifact>)
    | Entered(job: Job)
    | Computing(run: StoredRun)
    | Saving(run: StoredRun)
    | MakingRoom(run: StoredRun)
    | MakingRoomCommit(run: StoredRun, current: Doc, evicted: Pending)
    | SavingAgain(run: StoredRun)
    | Saved(run: StoredRun)
    | Persisting(run: StoredRun, what: What)
    | PersistCommit(run: StoredRun, what: What, next: Pending)
    | EvictCommit(run: StoredRun, what: What, next: Pending, evicted: Pending)
    | DeleteCommit(next: Pending)

  /** A tab: its module state, and what it is doing. */
  datatype Tab = Tab(cache: Option<Doc>, swept: bool, phase: Phase)

  const NEW_TAB := Tab(None, false, Idle)

  /** The origin: its store, the deletes issued but not awaited, its tabs, and
      the id of every run a committed document ever held. */
  datatype State = State(store: Store, forgets: seq<set<Artifact>>, tabs: seq<Tab>, ever: set<nat>)

  datatype Action =
    | Begin(job: Job)         // enter withStoreLock
    | Load(ok: bool)          // a page reads the runs
    | Go(outcome: Outcome)    // the pending await settles
    | Stop                    // a cancel, or a failure outside the store
    | Crash                   // the tab dies
    | Forget(ok: bool)        // the store gets to the oldest unawaited delete

  function Raster(id: nat): Artifact { Artifact(id, "raster-bin") }

  /** The run computeRLS19Road stores: one artifact outside the document. */
  function NewRun(id: nat, startedAt: int): StoredRun {
    StoredRun(id, startedAt, false, map[
      Artifact(id, "receivers-json") := Json, Artifact(id, "receivers-csv") := Text,
      Artifact(id, "raster-meta") := Json, Raster(id) := Binary, Artifact(id, "summary") := Json])
  }

  function FileIds(id: nat, names: set<string>): set<Artifact> { set f | f in names :: Artifact(id, "export-" + f) }

  /** createExport's artifacts, all of them in the document, under names of their own. */
  function Exported(r: StoredRun, files: Files): StoredRun {
    var jsons, texts := FileIds(r.id, files.jsons), FileIds(r.id, files.texts);
    r.(artifacts := map a | a in r.artifacts.Keys + jsons + texts ::
         if a in texts then Text else if a in jsons then Json else r.artifacts[a])
  }

  // ---- steps ----

  /** reloadState: the stored document, or the tab's copy of an earlier one. */
  function Reload(s: State, t: Tab, ok: bool): Doc {
    if ok then s.store.Current() else if t.cache.Some? then t.cache.value else INITIAL_DOC
  }

  predicate Settled(env: Env, s: State) { env.inOrder ==> s.forgets == [] }

  /** The tab leaves the lock, its copy being what it is. */
  function Leave(s: State, i: nat, cache: Doc): State
    requires i < |s.tabs|
  {
    s.(tabs := s.tabs[i := Tab(Some(cache), s.tabs[i].swept, Idle)])
  }

  function Enter(s: State, i: nat, cache: Doc, phase: Phase): State
    requires i < |s.tabs|
  {
    s.(tabs := s.tabs[i := Tab(Some(cache), s.tabs[i].swept, phase)])
  }

  /** A run that failed to persist gives its bytes up, unawaited. */
  function GiveUp(s: State, run: StoredRun, what: What): State {
    if what.ARun? then s.(forgets := s.forgets + [run.Binaries()]) else s
  }

  function Commit(s: State, p: Pending, o: Outcome): State {
    s.(store := s.store.Forgetting(p, o), ever := if o.Ok? then s.ever + Ids(p.doc.runs) else s.ever)
  }

  function WithBytes(s: State, bytes: set<Artifact>): State { s.(store := s.store.(bytes := bytes)) }

  /** withStoreLock. */
  function StepBegin(env: Env, s: State, i: nat, job: Job): Option<State>
    requires i < |s.tabs|
  {
    var t := s.tabs[i];
    if !t.phase.Idle? || (env.locks && exists j :: 0 <= j < |s.tabs| && !s.tabs[j].phase.Idle?) then None
    else if !env.locks || t.swept then Some(s.(tabs := s.tabs[i := t.(phase := Entered(job))]))
    else Some(s.(tabs := s.tabs[i := t.(swept := true, phase := Sweeping(job))]))
  }

  /** sweepOrphanedArtifactBytes, await by await. */
  function StepSweep(s: State, i: nat, o: Outcome): Option<State>
    requires i < |s.tabs|
  {
    var t := s.tabs[i];
    match t.phase
    case Sweeping(job) =>
      var d := Reload(s, t, o.Ok?);
      Some(Enter(s, i, d, if o.Ok? then Listing(job, d) else Entered(job)))
    case Listing(job, loaded) =>
      var orphans := s.store.bytes - Named(loaded.runs);
      Some(Enter(s, i, loaded, if o.Ok? && orphans != {} then Reclaiming(job, orphans) else Entered(job)))
    case Reclaiming(job, orphans) =>
      var s' := if o.Ok? then WithBytes(s, s.store.bytes - orphans) else s;
      Some(s'.(tabs := s.tabs[i := t.(phase := Entered(job))]))
    case _ => None
  }

  /** The reload that opens each writer, and what the job makes of it. */
  function StepEntered(env: Env, s: State, i: nat, o: Outcome): Option<State>
    requires i < |s.tabs| && s.tabs[i].phase.Entered?
  {
    if !o.Ok? && !env.readsFail then None
    else
      var d := Reload(s, s.tabs[i], o.Ok?);
      match s.tabs[i].phase.job
      case StartRun(at) => Some(Enter(s, i, d, Computing(NewRun(d.mark + 1, at))))
      case Export(id, files) =>
        var found := FindRun(d.runs, id);
        if found.None? then Some(Leave(s, i, d))
        else Some(Enter(s, i, d, Persisting(Exported(found.value, files), AnExport)))
      case Delete(id) =>
        var found := FindRun(d.runs, id);
        if found.None? || found.value.running then Some(Leave(s, i, d))
        else
          var p := DropRun(d, found.value);
          Some(Enter(s, i, p.doc, DeleteCommit(p)))
  }

  /** saveRasterBytes: the bytes, and one eviction to make room for them. */
  function StepSave(env: Env, s: State, i: nat, o: Outcome): Option<State>
    requires i < |s.tabs|
  {
    var t := s.tabs[i];
    match t.phase
    case Computing(run) => Some(s.(tabs := s.tabs[i := t.(phase := Saving(run))]))
    case Saving(run) =>
      if o.Ok? then Some(WithBytes(s, s.store.bytes + run.Binaries()).(tabs := s.tabs[i := t.(phase := Saved(run))]))
      else if o.Quota? then Some(s.(tabs := s.tabs[i := t.(phase := MakingRoom(run))]))
      else Some(s.(tabs := s.tabs[i := t.(phase := Idle)]))
    case MakingRoom(run) =>
      if !o.Ok? && !env.readsFail then None
      else
        var d := Reload(s, t, o.Ok?);
        var evicted := EvictOldest(Pending(d, []), run.id);
        if evicted.None? then Some(Leave(s, i, d))
        else Some(Enter(s, i, evicted.value.doc, MakingRoomCommit(run, d, evicted.value)))
    case MakingRoomCommit(run, current, evicted) =>
      if o.Threw? && !env.putThrows then None
      else if o.Ok? then Some(Enter(Commit(s, evicted, o), i, evicted.doc, SavingAgain(run)))
      else Some(Leave(Commit(s, evicted, o), i, current))
    case SavingAgain(run) =>
      if o.Ok? then Some(WithBytes(s, s.store.bytes + run.Binaries()).(tabs := s.tabs[i := t.(phase := Saved(run))]))
      else Some(s.(tabs := s.tabs[i := t.(phase := Idle)]))
    case Saved(run) => Some(s.(tabs := s.tabs[i := t.(phase := Persisting(run, ARun))]))
    case _ => None
  }

  /** persistRun, with its one eviction, and deleteRun's write. */
  function StepPersist(env: Env, s: State, i: nat, o: Outcome): Option<State>
    requires i < |s.tabs|
  {
    var t := s.tabs[i];
    match t.phase
    case Persisting(run, what) =>
      if !o.Ok? && !env.readsFail then None
      else
        var next := SetRun(Reload(s, t, o.Ok?), run);
        Some(Enter(s, i, next.doc, PersistCommit(run, what, next)))
    case PersistCommit(run, what, next) =>
      if o.Threw? && !env.putThrows then None
      else if o.Ok? then Some(Leave(Commit(s, next, o), i, next.doc))
      else
        var evicted := EvictOldest(next, run.id);
        if o.Quota? && evicted.Some? then Some(Enter(s, i, evicted.value.doc, EvictCommit(run, what, next, evicted.value)))
        else Some(Leave(GiveUp(Commit(s, next, o), run, what), i, next.doc))
    case EvictCommit(run, what, next, evicted) =>
      if o.Threw? && !env.putThrows then None
      else if o.Ok? then Some(Leave(Commit(s, evicted, o), i, evicted.doc))
      else Some(Leave(GiveUp(Commit(s, evicted, o), run, what), i, next.doc))
    case DeleteCommit(next) =>
      if o.Threw? && !env.putThrows then None
      else Some(Leave(Commit(s, next, o), i, next.doc))
    case _ => None
  }

  function StepGo(env: Env, s: State, i: nat, o: Outcome): Option<State>
    requires i < |s.tabs|
  {
    match s.tabs[i].phase
    case Idle => None
    case Sweeping(_) => StepSweep(s, i, o)
    case Listing(_, _) => StepSweep(s, i, o)
    case Reclaiming(_, _) => StepSweep(s, i, o)
    case Entered(_) => StepEntered(env, s, i, o)
    case Persisting(_, _) => StepPersist(env, s, i, o)
    case PersistCommit(_, _, _) => StepPersist(env, s, i, o)
    case EvictCommit(_, _, _, _) => StepPersist(env, s, i, o)
    case DeleteCommit(_) => StepPersist(env, s, i, o)
    case _ => StepSave(env, s, i, o)
  }

  /** A run cancelled, or failing outside the store: before its bytes are
      written there is nothing to undo, after it they are given up. */
  function StepStop(s: State, i: nat): Option<State>
    requires i < |s.tabs|
  {
    var t := s.tabs[i];
    match t.phase
    case Entered(_) => Some(s.(tabs := s.tabs[i := t.(phase := Idle)]))
    case Computing(_) => Some(s.(tabs := s.tabs[i := t.(phase := Idle)]))
    case Saved(run) => Some(GiveUp(s, run, ARun).(tabs := s.tabs[i := t.(phase := Idle)]))
    case _ => None
  }

  /** What tab i does next; None where it cannot. */
  function Step(env: Env, s: State, i: nat, a: Action): Option<State>
    requires i < |s.tabs|
  {
    match a
    case Begin(job) => StepBegin(env, s, i, job)
    case Load(ok) =>
      var t := s.tabs[i];
      if t.cache.Some? then None
      else Some(s.(tabs := s.tabs[i := t.(cache := Some(Reload(s, t, ok)))]))
    case Go(o) => if Settled(env, s) then StepGo(env, s, i, o) else None
    case Stop => StepStop(s, i)
    case Crash => Some(s.(tabs := s.tabs[i := NEW_TAB]))
    case Forget(ok) =>
      if s.forgets == [] then None
      else
        var bytes := if ok then s.store.bytes - s.forgets[0] else s.store.bytes;
        Some(WithBytes(s, bytes).(forgets := s.forgets[1..]))
  }

  // ---- what every reachable state satisfies ----

  /** The committed document is well formed, what it names is stored, and no run
      it ever held has an id above its mark. */
  ghost predicate StoreSound(s: State) {
    var d := s.store.Current();
    WellFormed(d) && Named(d.runs) <= s.store.bytes && forall id :: id in s.ever ==> 1 <= id <= d.mark
  }

  /** A run no committed document has held, under the next id. */
  ghost predicate Unseen(d: Doc, run: StoredRun) {
    run.id == d.mark + 1 && run.OwnsArtifacts()
  }

  ghost predicate Storable(d: Doc, bytes: set<Artifact>, run: StoredRun, what: What) {
    && run.OwnsArtifacts() && run.id >= 1 && run.Binaries() <= bytes
    && (what.ARun? ==> Unseen(d, run))
    && forall q :: q in d.runs && q.id == run.id ==> q.Binaries() <= run.Binaries()
  }

  /** What a tab inside the lock knows of the store. */
  ghost predicate Informed(d: Doc, bytes: set<Artifact>, phase: Phase) {
    match phase
    case Listing(_, loaded) => loaded == d
    case Reclaiming(_, orphans) => orphans == bytes - Named(d.runs)
    case Computing(run) => Unseen(d, run)
    case Saving(run) => Unseen(d, run)
    case MakingRoom(run) => Unseen(d, run)
    case MakingRoomCommit(run, _, evicted) => Unseen(d, run) && Sound(d, bytes, evicted) && evicted.doc.mark == d.mark
    case SavingAgain(run) => Unseen(d, run)
    case Saved(run) => Unseen(d, run) && run.Binaries() <= bytes
    case Persisting(run, what) => Storable(d, bytes, run, what)
    case PersistCommit(run, what, next) => Sound(d, bytes, next) && (what.ARun? ==> Unseen(d, run))
    case EvictCommit(run, what, _, evicted) => Sound(d, bytes, evicted) && (what.ARun? ==> Unseen(d, run))
    case DeleteCommit(next) => Sound(d, bytes, next)
    case _ => true
  }

  ghost predicate Exclusive(s: State) {
    forall i, j :: 0 <= i < j < |s.tabs| ==> s.tabs[i].phase.Idle? || s.tabs[j].phase.Idle?
  }

  predicate AtDoor(phase: Phase) { phase.Idle? || phase.Sweeping? || phase.Entered? }

  ghost predicate TabSound(s: State, i: nat)
    requires i < |s.tabs|
  {
    && Informed(s.store.Current(), s.store.bytes, s.tabs[i].phase)
    && (s.forgets != [] ==> AtDoor(s.tabs[i].phase))
  }

  ghost predicate ForgetsSound(s: State) {
    forall f :: f in s.forgets ==> f !! Named(s.store.Current().runs)
  }

  ghost predicate Inv(s: State) {
    StoreSound(s) && Exclusive(s) && ForgetsSound(s) && forall i :: 0 <= i < |s.tabs| ==> TabSound(s, i)
  }

  const DEPENDABLE := Env(true, false, false, true)

  // ---- every step keeps it ----

  ghost predicate OthersIdle(s: State, i: nat) {
    forall j :: 0 <= j < |s.tabs| && j != i ==> s.tabs[j].phase.Idle?
  }

  function MarkOf(s: State): nat { s.store.Current().mark }

  /** s with tab i, and perhaps the store, moved on. */
  ghost predicate Moved(s: State, s': State, i: nat)
    requires i < |s.tabs|
  {
    && |s'.tabs| == |s.tabs|
    && (forall j :: 0 <= j < |s.tabs| && j != i ==> s'.tabs[j] == s.tabs[j])
    && MarkOf(s) <= MarkOf(s')
    && s.ever <= s'.ever
  }

  lemma MovedKeeps(s: State, s': State, i: nat)
    requires i < |s.tabs| && Inv(s) && Moved(s, s', i)
    requires OthersIdle(s, i) || (s'.tabs[i].phase.Idle? && s'.store == s.store && s'.forgets == s.forgets)
    requires StoreSound(s') && ForgetsSound(s') && TabSound(s', i)
    ensures Inv(s')
  {
    forall j | 0 <= j < |s'.tabs|
      ensures TabSound(s', j)
    {
      if j != i {
        assert TabSound(s, j);
      }
    }
  }

  lemma UnseenApart(d: Doc, run: StoredRun)
    requires WellFormed(d) && Unseen(d, run)
    ensures run.Binaries() !! Named(d.runs)
    ensures forall q :: q in d.runs ==> q.id != run.id
  {
    forall a | a in Named(d.runs)
      ensures a !in run.Binaries()
    {
      var q :| q in d.runs && a in q.Binaries();
      assert q.OwnsArtifacts();
    }
  }

  lemma NewRunUnseen(d: Doc, at: int)
    ensures Unseen(d, NewRun(d.mark + 1, at))
    ensures NewRun(d.mark + 1, at).Binaries() == {Raster(d.mark + 1)}
  {}

  /** Committing a sound change keeps the store sound, raises no id above the
      mark, and leaves no byte record unnamed that was named before. */
  lemma CommitSound(s: State, p: Pending)
    requires StoreSound(s) && Sound(s.store.Current(), s.store.bytes, p)
    ensures var s' := Commit(s, p, Ok);
      && StoreSound(s') && s'.store.Current() == p.doc
      && s'.store.bytes - Named(p.doc.runs) <= s.store.bytes - Named(s.store.Current().runs)
  {
    var s' := Commit(s, p, Ok);
    forall id | id in s'.ever
      ensures 1 <= id <= p.doc.mark
    {
      if id !in s.ever {
        var r :| r in p.doc.runs && r.id == id;
      }
    }
  }

  lemma BeginKeeps(s: State, i: nat, job: Job)
    requires i < |s.tabs| && Inv(s) && StepBegin(DEPENDABLE, s, i, job).Some?
    ensures Inv(StepBegin(DEPENDABLE, s, i, job).value) && Moved(s, StepBegin(DEPENDABLE, s, i, job).value, i)
  {
    var s' := StepBegin(DEPENDABLE, s, i, job).value;
    assert TabSound(s, i);
    MovedKeeps(s, s', i);
  }

  lemma SweepKeeps(s: State, i: nat, o: Outcome)
    requires Inside(s, i) && !s.tabs[i].phase.Idle? && StepSweep(s, i, o).Some?
    ensures Inv(StepSweep(s, i, o).value) && Moved(s, StepSweep(s, i, o).value, i)
  {
    var s' := StepSweep(s, i, o).value;
    assert TabSound(s, i);
    MovedKeeps(s, s', i);
  }

  lemma ExportNames(r: StoredRun, files: Files)
    requires r.OwnsArtifacts()
    ensures Exported(r, files).OwnsArtifacts() && Exported(r, files).Binaries() == r.Binaries()
  {
    forall f | f in files.jsons + files.texts
      ensures "export-" + f != "raster-bin"
    {
      assert ("export-" + f)[0] == 'e' && "raster-bin"[0] == 'r';
    }
  }

  lemma ExportStorable(d: Doc, bytes: set<Artifact>, r: StoredRun, files: Files)
    requires WellFormed(d) && Named(d.runs) <= bytes && r in d.runs
    ensures Storable(d, bytes, Exported(r, files), AnExport)
  {
    ExportNames(r, files);
    assert forall a :: a in r.Binaries() ==> a in Named(d.runs);
    forall q | q in d.runs && q.id == r.id
      ensures q == r
    {
      SameRun(d.runs, q, r);
    }
  }

  lemma EnteredKeeps(s: State, i: nat, o: Outcome)
    requires Inside(s, i) && s.tabs[i].phase.Entered? && StepEntered(DEPENDABLE, s, i, o).Some?
    ensures Inv(StepEntered(DEPENDABLE, s, i, o).value) && Moved(s, StepEntered(DEPENDABLE, s, i, o).value, i)
  {
    var s', d, bytes := StepEntered(DEPENDABLE, s, i, o).value, s.store.Current(), s.store.bytes;
    match s.tabs[i].phase.job {
      case StartRun(at) => NewRunUnseen(d, at);
      case Export(id, files) =>
        var found := FindRun(d.runs, id);
        if found.Some? {
          ExportStorable(d, bytes, found.value, files);
        }
      case Delete(id) =>
        var found := FindRun(d.runs, id);
        if found.Some? {
          DropRunSound(d, bytes, found.value);
        }
    }
    QuietKeeps(s, s', i);
  }

  /** Only tab i has moved. */
  ghost predicate OnlyTab(s: State, s': State, i: nat)
    requires i < |s.tabs|
  {
    |s'.tabs| == |s.tabs| && forall j :: 0 <= j < |s.tabs| && j != i ==> s'.tabs[j] == s.tabs[j]
  }

  /** Tab i, inside the lock with every delete settled. */
  ghost predicate Inside(s: State, i: nat) {
    i < |s.tabs| && Inv(s) && s.forgets == [] && OthersIdle(s, i)
  }

  lemma QuietKeeps(s: State, s': State, i: nat)
    requires Inside(s, i) && OnlyTab(s, s', i) && s'.store == s.store && s'.forgets == [] && s'.ever == s.ever
    requires Informed(s.store.Current(), s.store.bytes, s'.tabs[i].phase)
    ensures Inv(s') && Moved(s, s', i)
  {
    MovedKeeps(s, s', i);
  }

  lemma GiveUpKeeps(s: State, s': State, i: nat, run: StoredRun, what: What)
    requires Inside(s, i) && OnlyTab(s, s', i) && s'.store == s.store && s'.ever == s.ever
    requires s'.tabs[i].phase.Idle? && s'.forgets == GiveUp(s, run, what).forgets
    requires what.ARun? ==> Unseen(s.store.Current(), run)
    ensures Inv(s') && Moved(s, s', i)
  {
    if what.ARun? {
      UnseenApart(s.store.Current(), run);
    }
    MovedKeeps(s, s', i);
  }

  lemma BytesKeep(s: State, s': State, i: nat, run: StoredRun)
    requires Inside(s, i) && OnlyTab(s, s', i) && s'.forgets == [] && s'.ever == s.ever
    requires s'.store == Store(s.store.doc, s.store.bytes + run.Binaries())
    requires Unseen(s.store.Current(), run) && s'.tabs[i].phase == Saved(run)
    ensures Inv(s') && Moved(s, s', i)
  {
    MovedKeeps(s, s', i);
  }

  lemma CommitKeeps(s: State, s': State, i: nat, p: Pending)
    requires Inside(s, i) && OnlyTab(s, s', i) && Sound(s.store.Current(), s.store.bytes, p)
    requires s'.store == Commit(s, p, Ok).store && s'.ever == Commit(s, p, Ok).ever && s'.forgets == []
    requires s'.tabs[i].phase.Idle? || (s'.tabs[i].phase.SavingAgain? && Unseen(p.doc, s'.tabs[i].phase.run))
    ensures Inv(s') && Moved(s, s', i)
  {
    CommitSound(s, p);
    MovedKeeps(s, s', i);
  }

  lemma SaveKeeps(s: State, i: nat, o: Outcome)
    requires Inside(s, i) && !s.tabs[i].phase.Idle? && StepSave(DEPENDABLE, s, i, o).Some?
    ensures Inv(StepSave(DEPENDABLE, s, i, o).value) && Moved(s, StepSave(DEPENDABLE, s, i, o).value, i)
  {
    var s', d, bytes := StepSave(DEPENDABLE, s, i, o).value, s.store.Current(), s.store.bytes;
    assert TabSound(s, i);
    match s.tabs[i].phase {
      case Saving(run) => if o.Ok? { BytesKeep(s, s', i, run); } else { QuietKeeps(s, s', i); }
      case SavingAgain(run) => if o.Ok? { BytesKeep(s, s', i, run); } else { QuietKeeps(s, s', i); }
      case MakingRoom(run) =>
        NoChangeSound(d, bytes);
        if EvictOldest(Pending(d, []), run.id).Some? {
          EvictSound(d, bytes, Pending(d, []), run.id);
        }
        QuietKeeps(s, s', i);
      case MakingRoomCommit(_, _, evicted) => if o.Ok? { CommitKeeps(s, s', i, evicted); } else { QuietKeeps(s, s', i); }
      case Saved(run) =>
        UnseenApart(d, run);
        QuietKeeps(s, s', i);
      case _ => QuietKeeps(s, s', i);
    }
  }

  lemma PersistKeeps(s: State, i: nat, o: Outcome)
    requires Inside(s, i) && !s.tabs[i].phase.Idle? && StepPersist(DEPENDABLE, s, i, o).Some?
    ensures Inv(StepPersist(DEPENDABLE, s, i, o).value) && Moved(s, StepPersist(DEPENDABLE, s, i, o).value, i)
  {
    var s', d, bytes := StepPersist(DEPENDABLE, s, i, o).value, s.store.Current(), s.store.bytes;
    assert TabSound(s, i);
    match s.tabs[i].phase {
      case Persisting(run, _) =>
        SetRunSound(d, bytes, run);
        QuietKeeps(s, s', i);
      case PersistCommit(run, what, next) =>
        if o.Ok? {
          CommitKeeps(s, s', i, next);
        } else if o.Quota? && EvictOldest(next, run.id).Some? {
          EvictSound(d, bytes, next, run.id);
          QuietKeeps(s, s', i);
        } else {
          GiveUpKeeps(s, s', i, run, what);
        }
      case EvictCommit(run, what, _, evicted) =>
        if o.Ok? { CommitKeeps(s, s', i, evicted); } else { GiveUpKeeps(s, s', i, run, what); }
      case DeleteCommit(next) =>
        if o.Ok? { CommitKeeps(s, s', i, next); } else { QuietKeeps(s, s', i); }
    }
  }

  lemma StopKeeps(s: State, i: nat)
    requires i < |s.tabs| && Inv(s) && StepStop(s, i).Some?
    ensures Inv(StepStop(s, i).value) && Moved(s, StepStop(s, i).value, i)
  {
    var s' := StepStop(s, i).value;
    assert TabSound(s, i);
    if s.tabs[i].phase.Saved? {
      UnseenApart(s.store.Current(), s.tabs[i].phase.run);
    }
    MovedKeeps(s, s', i);
  }

  lemma ForgetKeeps(s: State, i: nat, ok: bool)
    requires i < |s.tabs| && Inv(s) && Step(DEPENDABLE, s, i, Forget(ok)).Some?
    ensures Inv(Step(DEPENDABLE, s, i, Forget(ok)).value) && Moved(s, Step(DEPENDABLE, s, i, Forget(ok)).value, i)
  {
    var s' := Step(DEPENDABLE, s, i, Forget(ok)).value;
    assert s.forgets[0] in s.forgets;
    assert forall f :: f in s'.forgets ==> f in s.forgets;
    forall j | 0 <= j < |s'.tabs|
      ensures TabSound(s', j)
    {
      assert TabSound(s, j);
    }
  }

  /** On a dependable browser every step of every tab keeps the invariant, and
      the high-water mark never falls. */
  lemma StepKeeps(s: State, i: nat, a: Action)
    requires i < |s.tabs| && Inv(s) && Step(DEPENDABLE, s, i, a).Some?
    ensures Inv(Step(DEPENDABLE, s, i, a).value) && Moved(s, Step(DEPENDABLE, s, i, a).value, i)
  {
    var s' := Step(DEPENDABLE, s, i, a).value;
    assert TabSound(s, i);
    match a
    case Begin(job) => BeginKeeps(s, i, job);
    case Load(_) => MovedKeepsPhase(s, s', i);
    case Go(o) =>
      match s.tabs[i].phase {
        case Idle =>
        case Sweeping(_) => SweepKeeps(s, i, o);
        case Listing(_, _) => SweepKeeps(s, i, o);
        case Reclaiming(_, _) => SweepKeeps(s, i, o);
        case Entered(_) => EnteredKeeps(s, i, o);
        case Persisting(_, _) => PersistKeeps(s, i, o);
        case PersistCommit(_, _, _) => PersistKeeps(s, i, o);
        case EvictCommit(_, _, _, _) => PersistKeeps(s, i, o);
        case DeleteCommit(_) => PersistKeeps(s, i, o);
        case _ => SaveKeeps(s, i, o);
      }
    case Stop => StopKeeps(s, i);
    case Crash => MovedKeeps(s, s', i);
    case Forget(ok) => ForgetKeeps(s, i, ok);
  }

  lemma MovedKeepsPhase(s: State, s': State, i: nat)
    requires i < |s.tabs| && Inv(s) && Moved(s, s', i)
    requires s'.store == s.store && s'.forgets == s.forgets && s'.ever == s.ever && s'.tabs[i].phase == s.tabs[i].phase
    ensures Inv(s')
  {
    forall j | 0 <= j < |s'.tabs|
      ensures TabSound(s', j)
    {
      assert TabSound(s, j);
    }
  }

  // ---- runs of the protocol ----

  /** An empty store, or one this protocol left, with no tab at work. */
  ghost predicate Start(s: State) {
    StoreSound(s) && s.forgets == [] && forall i :: 0 <= i < |s.tabs| ==> s.tabs[i] == NEW_TAB
  }

  ghost predicate StepsTo(env: Env, s: State, i: nat, a: Action, s': State) {
    i < |s.tabs| && Step(env, s, i, a) == Some(s')
  }

  ghost predicate ReachableIn(env: Env, s: State, n: nat)
    decreases n
  {
    if n == 0 then Start(s) else exists p, i, a :: ReachableIn(env, p, n - 1) && StepsTo(env, p, i, a, s)
  }

  ghost predicate Reachable(env: Env, s: State) { exists n: nat :: ReachableIn(env, s, n) }

  lemma {:induction false} SoundIn(s: State, n: nat)
    requires ReachableIn(DEPENDABLE, s, n)
    ensures Inv(s)
    decreases n
  {
    if n > 0 {
      var p, i, a :| ReachableIn(DEPENDABLE, p, n - 1) && StepsTo(DEPENDABLE, p, i, a, s);
      SoundIn(p, n - 1);
      StepKeeps(p, i, a);
    }
  }

  /** Safety over all runs, however tabs interleave, die, are cancelled or are
      refused space. */
  lemma AlwaysSound(s: State)
    requires Reachable(DEPENDABLE, s)
    ensures Inv(s)
  {
    var n: nat :| ReachableIn(DEPENDABLE, s, n);
    SoundIn(s, n);
  }

  /** Whatever documents a run commits, the mark never falls and no id is
      forgotten. */
  lemma MarkNeverFalls(s: State, i: nat, a: Action, s': State)
    requires Reachable(DEPENDABLE, s) && StepsTo(DEPENDABLE, s, i, a, s')
    ensures MarkOf(s) <= MarkOf(s') && s.ever <= s'.ever
  {
    AlwaysSound(s);
    StepKeeps(s, i, a);
  }

  /** The run a tab has minted and not yet stored. */
  function Minted(phase: Phase): Option<StoredRun> {
    match phase
    case Computing(run) => Some(run)
    case Saving(run) => Some(run)
    case MakingRoom(run) => Some(run)
    case MakingRoomCommit(run, _, _) => Some(run)
    case SavingAgain(run) => Some(run)
    case Saved(run) => Some(run)
    case Persisting(run, ARun) => Some(run)
    case PersistCommit(run, ARun, _) => Some(run)
    case EvictCommit(run, ARun, _, _) => Some(run)
    case _ => None
  }

  /** A minted id differs from every id ever committed, whatever was deleted or
      evicted since, and at most one tab holds one. */
  lemma MintedIsFresh(s: State, i: nat)
    requires Reachable(DEPENDABLE, s) && i < |s.tabs| && Minted(s.tabs[i].phase).Some?
    ensures Minted(s.tabs[i].phase).value.id !in s.ever + Ids(s.store.Current().runs)
    ensures OthersIdle(s, i)
  {
    AlwaysSound(s);
    assert TabSound(s, i);
    UnseenApart(s.store.Current(), Minted(s.tabs[i].phase).value);
  }

  /** Bytes written ahead of their document stay until it is written: no sweep,
      late delete or other tab takes them. */
  lemma WrittenBytesStay(s: State, i: nat)
    requires Reachable(DEPENDABLE, s) && i < |s.tabs| && s.tabs[i].phase.Saved?
    ensures s.tabs[i].phase.run.Binaries() <= s.store.bytes
  {
    AlwaysSound(s);
    assert TabSound(s, i);
  }

  lemma SweptBytes(bytes: set<Artifact>, named: set<Artifact>)
    requires named <= bytes
    ensures bytes - (bytes - named) == named
    ensures bytes - named == {} ==> bytes == named
  {
    assert forall a :: a in bytes && a !in named ==> a in bytes - named;
  }

  /** A sweep that succeeds leaves exactly the bytes the document names. */
  lemma SweepLeavesTheNamed(s: State, i: nat, s': State)
    requires Reachable(DEPENDABLE, s) && StepsTo(DEPENDABLE, s, i, Go(Ok), s')
    requires s.tabs[i].phase.Listing? || s.tabs[i].phase.Reclaiming?
    ensures s'.store.doc == s.store.doc
    ensures s'.tabs[i].phase.Entered? ==> s'.store.bytes == Named(s'.store.Current().runs)
  {
    AlwaysSound(s);
    assert TabSound(s, i);
    SweptBytes(s.store.bytes, Named(s.store.Current().runs));
  }

  /** Only a put of bytes can leave bytes unnamed: no commit, eviction, delete
      or failure turns a named record into an orphan. */
  lemma OnlySavesOrphan(s: State, i: nat, a: Action, s': State)
    requires Reachable(DEPENDABLE, s) && StepsTo(DEPENDABLE, s, i, a, s')
    requires !(a == Go(Ok) && (s.tabs[i].phase.Saving? || s.tabs[i].phase.SavingAgain?))
    ensures s'.store.bytes - Named(s'.store.Current().runs) <= s.store.bytes - Named(s.store.Current().runs)
  {
    AlwaysSound(s);
    assert TabSound(s, i);
    if a.Go? && a.outcome.Ok? {
      match s.tabs[i].phase {
        case MakingRoomCommit(_, _, evicted) => CommitSound(s, evicted);
        case PersistCommit(_, _, next) => CommitSound(s, next);
        case EvictCommit(_, _, _, evicted) => CommitSound(s, evicted);
        case DeleteCommit(next) => CommitSound(s, next);
        case _ =>
      }
    }
  }

  // ---- exactly what it leans on ----

  ghost predicate SafeOn(env: Env) {
    forall s :: Reachable(env, s) ==> StoreSound(s)
  }

  /** A set of states closed under steps, standing for the reachable ones. */
  ghost predicate Closed(env: Env, reach: State -> bool) {
    forall s, i, a, s' :: reach(s) && StepsTo(env, s, i, a, s') ==> reach(s')
  }

  lemma Take(env: Env, reach: State -> bool, s: State, i: nat, a: Action) returns (s': State)
    requires Closed(env, reach) && reach(s) && i < |s.tabs| && Step(env, s, i, a).Some?
    ensures s' == Step(env, s, i, a).value && reach(s')
  {
    s' := Step(env, s, i, a).value;
    assert StepsTo(env, s, i, a, s');
  }

  lemma ReachableSteps(env: Env, s: State, i: nat, a: Action, s': State)
    requires Reachable(env, s) && StepsTo(env, s, i, a, s')
    ensures Reachable(env, s')
  {
    var n: nat :| ReachableIn(env, s, n);
    var m := n + 1;
    assert ReachableIn(env, s, m - 1);
    assert ReachableIn(env, s', m);
  }

  lemma ReachableClosed(env: Env) returns (reach: State -> bool)
    ensures Closed(env, reach) && reach(TWO_TABS)
    ensures forall s :: reach(s) ==> Reachable(env, s)
  {
    reach := s => Reachable(env, s);
    assert StoreSound(TWO_TABS) by {
      assert Named([]) == {};
    }
    assert ReachableIn(env, TWO_TABS, 0);
    forall s, i, a, s' | reach(s) && StepsTo(env, s, i, a, s')
      ensures reach(s')
    {
      ReachableSteps(env, s, i, a, s');
    }
  }

  /** An origin nothing was ever stored in, open in two tabs. */
  const TWO_TABS := State(Store(None, {}), [], [NEW_TAB, NEW_TAB], {})

  predicate AllIdle(s: State) { forall i :: 0 <= i < |s.tabs| ==> s.tabs[i].phase.Idle? }

  /** A tab gets to its job, its sweep failing if it has one to make. */
  lemma GetIn(env: Env, reach: State -> bool, s: State, i: nat, job: Job) returns (s': State)
    requires Closed(env, reach) && reach(s) && i < |s.tabs| && (env.inOrder ==> s.forgets == [])
    requires if env.locks then AllIdle(s) else s.tabs[i].phase.Idle?
    ensures reach(s') && s'.store == s.store && s'.forgets == s.forgets && OnlyTab(s, s', i)
    ensures s'.tabs[i].phase == Entered(job)
    ensures s'.tabs[i].cache == s.tabs[i].cache || (s.tabs[i].cache.None? && s'.tabs[i].cache == Some(INITIAL_DOC))
  {
    s' := Take(env, reach, s, i, Begin(job));
    if s'.tabs[i].phase.Sweeping? {
      s' := Take(env, reach, s', i, Go(Failed));
    }
  }

  const ONE_RUN := Doc([NewRun(1, 0)], 1)

  /** The first run of a store without a document, up to having its bytes written. */
  lemma WriteFirst(env: Env, reach: State -> bool, s: State) returns (s': State)
    requires Closed(env, reach) && reach(s) && |s.tabs| == 2 && AllIdle(s) && s.store.doc == None && (env.inOrder ==> s.forgets == [])
    ensures reach(s') && OnlyTab(s, s', 0) && s'.forgets == s.forgets
    ensures s'.tabs[0].phase == Saved(NewRun(1, 0)) && s'.store == Store(None, s.store.bytes + {Raster(1)})
  {
    s' := GetIn(env, reach, s, 0, StartRun(0));
    s' := Take(env, reach, s', 0, Go(Ok));
    NewRunUnseen(INITIAL_DOC, 0);
    s' := Take(env, reach, s', 0, Go(Ok));
    s' := Take(env, reach, s', 0, Go(Ok));
  }

  lemma FirstCommit()
    ensures SetRun(INITIAL_DOC, NewRun(1, 0)) == Pending(ONE_RUN, [])
    ensures Named(ONE_RUN.runs) == {Raster(1)}
  {
    var r := NewRun(1, 0);
    NewRunUnseen(INITIAL_DOC, 0);
    assert Without([], 1) + [r] == [r] && [r][..0] == [];
    assert SortNewest([r]) == [r];
    OneNames(r);
  }

  lemma SecondWrite()
    ensures Exported(NewRun(1, 0), Files({}, {})) == NewRun(1, 0)
    ensures SetRun(ONE_RUN, NewRun(1, 0)) == Pending(ONE_RUN, [])
  {
    var r := NewRun(1, 0);
    assert Without([r], 1) == [] && [] + [r] == [r] && [r][..0] == [];
    assert SortNewest([r]) == [r];
  }

  lemma CommitFirst(env: Env, reach: State -> bool, s: State) returns (s': State)
    requires Closed(env, reach) && reach(s) && |s.tabs| == 2 && s.tabs[0].phase == Saved(NewRun(1, 0)) && s.store == Store(None, {Raster(1)})
    requires env.inOrder ==> s.forgets == []
    ensures reach(s') && OnlyTab(s, s', 0) && s'.forgets == s.forgets
    ensures s'.tabs[0].phase.Idle? && s'.store == Store(Some(ONE_RUN), {Raster(1)})
  {
    FirstCommit();
    s' := ReachCommit(env, reach, s, NewRun(1, 0), Pending(ONE_RUN, []));
    s' := CommitOne(env, reach, s', 0, ARun);
  }

  /** A run with its bytes written gets to its document's write. */
  lemma ReachCommit(env: Env, reach: State -> bool, s: State, run: StoredRun, next: Pending) returns (s': State)
    requires Closed(env, reach) && reach(s) && |s.tabs| > 0 && s.tabs[0].phase == Saved(run) && SetRun(s.store.Current(), run) == next
    requires env.inOrder ==> s.forgets == []
    ensures reach(s') && OnlyTab(s, s', 0) && s'.forgets == s.forgets && s'.store == s.store
    ensures s'.tabs[0].phase == PersistCommit(run, ARun, next)
  {
    s' := Take(env, reach, s, 0, Go(Ok));
    s' := Take(env, reach, s', 0, Go(Ok));
  }

  /** The document of one run is written. */
  lemma CommitOne(env: Env, reach: State -> bool, s: State, i: nat, what: What) returns (s': State)
    requires Closed(env, reach) && reach(s) && i < |s.tabs|
    requires s.tabs[i].phase == PersistCommit(NewRun(1, 0), what, Pending(ONE_RUN, []))
    requires env.inOrder ==> s.forgets == []
    ensures reach(s') && OnlyTab(s, s', i) && s'.forgets == s.forgets
    ensures s'.tabs[i].phase.Idle? && s'.store == Store(Some(ONE_RUN), s.store.bytes)
  {
    s' := Take(env, reach, s, i, Go(Ok));
    assert Named([]) == {};
  }

  /** The document names the one run's raster, and its bytes are gone. */
  predicate Lost(s: State) {
    Raster(1) in Named(s.store.Current().runs) && Raster(1) !in s.store.bytes
  }

  /** A tab deletes the one run, its write ending as given. */
  lemma DeleteOne(env: Env, reach: State -> bool, s: State, i: nat, o: Outcome) returns (s': State)
    requires Closed(env, reach) && reach(s) && i < |s.tabs| && s.store == Store(Some(ONE_RUN), {Raster(1)}) && s.forgets == []
    requires if env.locks then AllIdle(s) else s.tabs[i].phase.Idle?
    requires o.Ok? || (o.Threw? && env.putThrows)
    ensures reach(s') && OnlyTab(s, s', i) && s'.forgets == [] && s'.tabs[i].phase.Idle?
    ensures s'.store == Store(Some(if o.Ok? then Doc([], 1) else ONE_RUN), {})
  {
    FirstCommit();
    s' := GetIn(env, reach, s, i, Delete(1));
    s' := Take(env, reach, s', i, Go(Ok));
    assert DropRun(ONE_RUN, NewRun(1, 0)) == Pending(Doc([], 1), [NewRun(1, 0)]);
    s' := Take(env, reach, s', i, Go(o));
  }

  /** A document whose put throws has already asked for its deletes. */
  lemma ThrownPutBreaks(env: Env, reach: State -> bool) returns (s': State)
    requires env.putThrows && Closed(env, reach) && reach(TWO_TABS)
    ensures reach(s') && Lost(s')
  {
    s' := WriteFirst(env, reach, TWO_TABS);
    s' := CommitFirst(env, reach, s');
    s' := DeleteOne(env, reach, s', 0, Threw);
    FirstCommit();
  }

  /** A delete that overtakes its place takes the bytes of the run that minted
      the same id again. */
  lemma LateDeleteBreaks(env: Env, reach: State -> bool) returns (s': State)
    requires !env.inOrder && Closed(env, reach) && reach(TWO_TABS)
    ensures reach(s') && Lost(s')
  {
    s' := WriteFirst(env, reach, TWO_TABS);
    NewRunUnseen(INITIAL_DOC, 0);
    s' := Take(env, reach, s', 0, Stop);
    assert s'.forgets == [{Raster(1)}];
    s' := WriteFirst(env, reach, s');
    s' := CommitFirst(env, reach, s');
    s' := Take(env, reach, s', 0, Forget(true));
    FirstCommit();
  }

  /** A tab exports the one run, reading it from the store or, when the store is
      unavailable, from its copy, up to its write. */
  lemma ExportOne(env: Env, reach: State -> bool, s: State, i: nat, o: Outcome) returns (s': State)
    requires Closed(env, reach) && reach(s) && i < |s.tabs| && s.forgets == []
    requires if env.locks then AllIdle(s) else s.tabs[i].phase.Idle?
    requires if o.Ok? then s.store.doc == Some(ONE_RUN) else env.readsFail && s.tabs[i].cache == Some(ONE_RUN)
    ensures reach(s') && OnlyTab(s, s', i) && s'.forgets == [] && s'.store == s.store
    ensures s'.tabs[i].phase == PersistCommit(NewRun(1, 0), AnExport, Pending(ONE_RUN, []))
  {
    s' := GetIn(env, reach, s, i, Export(1, Files({}, {})));
    SecondWrite();
    s' := Take(env, reach, s', i, Go(o));
    assert s'.tabs[i].phase == Persisting(NewRun(1, 0), AnExport);
    s' := RewriteOne(env, reach, s', i, o);
  }

  lemma RewriteOne(env: Env, reach: State -> bool, s: State, i: nat, o: Outcome) returns (s': State)
    requires Closed(env, reach) && reach(s) && i < |s.tabs| && s.forgets == []
    requires s.tabs[i].phase == Persisting(NewRun(1, 0), AnExport)
    requires if o.Ok? then s.store.doc == Some(ONE_RUN) else env.readsFail && s.tabs[i].cache == Some(ONE_RUN)
    ensures reach(s') && OnlyTab(s, s', i) && s'.forgets == [] && s'.store == s.store
    ensures s'.tabs[i].phase == PersistCommit(NewRun(1, 0), AnExport, Pending(ONE_RUN, []))
  {
    SecondWrite();
    s' := Take(env, reach, s, i, Go(o));
  }

  /** A tab that reads its own copy writes back a run another tab deleted. */
  lemma FailedReadBreaks(env: Env, reach: State -> bool) returns (s': State)
    requires env.readsFail && Closed(env, reach) && reach(TWO_TABS)
    ensures reach(s') && Lost(s')
  {
    s' := WriteFirst(env, reach, TWO_TABS);
    s' := CommitFirst(env, reach, s');
    s' := Take(env, reach, s', 1, Load(true));
    s' := DeleteOne(env, reach, s', 0, Ok);
    s' := ExportOne(env, reach, s', 1, Failed);
    s' := CommitOne(env, reach, s', 1, AnExport);
    FirstCommit();
  }

  /** Without a lock one tab writes back a run another deletes meanwhile. */
  lemma NoLockBreaks(env: Env, reach: State -> bool) returns (s': State)
    requires !env.locks && Closed(env, reach) && reach(TWO_TABS)
    ensures reach(s') && Lost(s')
  {
    s' := WriteFirst(env, reach, TWO_TABS);
    s' := CommitFirst(env, reach, s');
    s' := ExportOne(env, reach, s', 1, Ok);
    s' := DeleteOne(env, reach, s', 0, Ok);
    s' := CommitOne(env, reach, s', 1, AnExport);
    FirstCommit();
  }

  /** Every run keeps the store sound exactly when the browser has locks, a
      writer's reload reaches the store, a put fails rather than throws, and
      transactions run in the order they were issued. */
  lemma SafeExactlyWhenDependable(env: Env)
    ensures SafeOn(env) <==> env == DEPENDABLE
  {
    if env == DEPENDABLE {
      forall s | Reachable(env, s)
        ensures StoreSound(s)
      {
        AlwaysSound(s);
      }
    } else {
      var reach := ReachableClosed(env);
      var s' := Breaks(env, reach);
      assert reach(s') && !StoreSound(s');
    }
  }

  lemma Breaks(env: Env, reach: State -> bool) returns (s': State)
    requires env != DEPENDABLE && Closed(env, reach) && reach(TWO_TABS)
    ensures reach(s') && Lost(s')
  {
    if !env.locks {
      s' := NoLockBreaks(env, reach);
    } else if env.readsFail {
      s' := FailedReadBreaks(env, reach);
    } else if env.putThrows {
      s' := ThrownPutBreaks(env, reach);
    } else {
      s' := LateDeleteBreaks(env, reach);
    }
  }
}
