/** What a writer that is not disturbed does to the store, from the lock it takes
    to the lock it leaves. */
module RunEffects {
  import opened RunDocument
  import opened RunStore
  import opened Options

  /** Taking these actions, tab i leads from s to t. */
  ghost predicate Runs(env: Env, i: nat, s: State, acts: seq<Action>, t: State)
    decreases |acts|
  {
    if acts == [] then s == t else exists u :: StepsTo(env, s, i, acts[0], u) && Runs(env, i, u, acts[1..], t)
  }

  lemma RunsOne(env: Env, i: nat, s: State, a: Action, t: State)
    requires StepsTo(env, s, i, a, t)
    ensures Runs(env, i, s, [a], t)
  {
    assert Runs(env, i, t, [a][1..], t);
  }

  lemma {:induction false} RunsJoin(env: Env, i: nat, s: State, a: seq<Action>, t: State, b: seq<Action>, u: State)
    requires Runs(env, i, s, a, t) && Runs(env, i, t, b, u)
    ensures Runs(env, i, s, a + b, u)
    decreases |a|
  {
    if a == [] {
      assert a + b == b;
    } else {
      var v :| StepsTo(env, s, i, a[0], v) && Runs(env, i, v, a[1..], t);
      RunsJoin(env, i, v, a[1..], t, b, u);
      assert (a + b)[1..] == a[1..] + b;
    }
  }

  lemma RunsTwo(env: Env, i: nat, s: State, a: Action, t: State, b: Action, u: State)
    requires StepsTo(env, s, i, a, t) && StepsTo(env, t, i, b, u)
    ensures Runs(env, i, s, [a, b], u)
  {
    RunsOne(env, i, s, a, t);
    RunsOne(env, i, t, b, u);
    RunsJoin(env, i, s, [a], t, [b], u);
    assert [a, b] == [a] + [b];
  }

  function Taken(env: Env, s: State, i: nat, a: Action): State
    requires i < |s.tabs| && Step(env, s, i, a).Some?
  {
    Step(env, s, i, a).value
  }

  const OK: Action := Go(Ok)

  // ---- where a tab gets ----

  /** No tab is writing, nothing is left to forget, and the tab has swept. */
  ghost predicate Quiet(env: Env, s: State, i: nat) {
    i < |s.tabs| && AllIdle(s) && s.forgets == [] && (env.locks ==> s.tabs[i].swept)
  }

  /** No other tab is writing. */
  ghost predicate Alone(s: State, i: nat) {
    i < |s.tabs| && s.forgets == [] && forall j :: 0 <= j < |s.tabs| && j != i ==> s.tabs[j].phase.Idle?
  }

  /** Tab i has come to this phase, the store is this, and the other tabs are as they were. */
  ghost predicate Comes(s: State, t: State, i: nat, phase: Phase, store: Store) {
    && i < |s.tabs| == |t.tabs| && t.tabs[i].phase == phase && t.forgets == [] && t.store == store
    && forall j :: 0 <= j < |s.tabs| && j != i ==> t.tabs[j] == s.tabs[j]
  }

  lemma Enters(env: Env, s: State, i: nat, job: Job) returns (t: State)
    requires Quiet(env, s, i)
    ensures Runs(env, i, s, [Begin(job)], t) && Comes(s, t, i, Entered(job), s.store) && Alone(t, i)
  {
    t := Taken(env, s, i, Begin(job));
    RunsOne(env, i, s, Begin(job), t);
  }

  lemma Mints(env: Env, s: State, i: nat, at: int) returns (u: State)
    requires Alone(s, i) && s.tabs[i].phase == Entered(StartRun(at))
    ensures Runs(env, i, s, [OK, OK], u) && Comes(s, u, i, Saving(NewRun(s.store.Current().mark + 1, at)), s.store) && Alone(u, i)
  {
    var t := Taken(env, s, i, OK);
    u := Taken(env, t, i, OK);
    RunsTwo(env, i, s, OK, t, OK, u);
  }

  lemma WritesBytes(env: Env, s: State, i: nat, run: StoredRun) returns (u: State)
    requires Alone(s, i) && (s.tabs[i].phase == Saving(run) || s.tabs[i].phase == SavingAgain(run))
    ensures Runs(env, i, s, [OK, OK], u)
    ensures Comes(s, u, i, Persisting(run, ARun), Store(s.store.doc, s.store.bytes + run.Binaries())) && Alone(u, i)
  {
    var t := Taken(env, s, i, OK);
    u := Taken(env, t, i, OK);
    RunsTwo(env, i, s, OK, t, OK, u);
  }

  /** The store with this document, and without the bytes it gives up. */
  function Written(bytes: set<Artifact>, p: Pending): Store { Store(Some(p.doc), bytes - Named(p.dropped)) }

  /** A run's document write, once its bytes lie in the store. */
  lemma Persists(env: Env, s: State, i: nat, run: StoredRun, what: What) returns (u: State)
    requires Alone(s, i) && s.tabs[i].phase == Persisting(run, what)
    ensures Runs(env, i, s, [OK, OK], u) && Comes(s, u, i, Idle, Written(s.store.bytes, SetRun(s.store.Current(), run)))
  {
    var t := Taken(env, s, i, OK);
    u := Taken(env, t, i, OK);
    RunsTwo(env, i, s, OK, t, OK, u);
  }

  /** Making room: the oldest run other than this one goes, with its bytes. */
  lemma MakesRoom(env: Env, s: State, i: nat, run: StoredRun) returns (v: State)
    requires Alone(s, i) && s.tabs[i].phase == Saving(run) && EvictOldest(Pending(s.store.Current(), []), run.id).Some?
    ensures Runs(env, i, s, [Go(Quota), OK, OK], v) && Alone(v, i)
    ensures Comes(s, v, i, SavingAgain(run), Written(s.store.bytes, EvictOldest(Pending(s.store.Current(), []), run.id).value))
  {
    var t := Taken(env, s, i, Go(Quota));
    var u := Taken(env, t, i, OK);
    v := Taken(env, u, i, OK);
    RunsTwo(env, i, s, Go(Quota), t, OK, u);
    RunsOne(env, i, u, OK, v);
    RunsJoin(env, i, s, [Go(Quota), OK], u, [OK], v);
    assert [Go(Quota), OK, OK] == [Go(Quota), OK] + [OK];
  }

  lemma GivesUp(env: Env, s: State, i: nat, run: StoredRun) returns (v: State)
    requires Alone(s, i) && s.tabs[i].phase == Persisting(run, ARun)
    ensures Runs(env, i, s, [OK, Go(Failed), Forget(true)], v)
    ensures Comes(s, v, i, Idle, Store(s.store.doc, s.store.bytes - run.Binaries()))
  {
    var t := Taken(env, s, i, OK);
    var u := Taken(env, t, i, Go(Failed));
    v := Taken(env, u, i, Forget(true));
    RunsTwo(env, i, s, OK, t, Go(Failed), u);
    RunsOne(env, i, u, Forget(true), v);
    RunsJoin(env, i, s, [OK, Go(Failed)], u, [Forget(true)], v);
    assert [OK, Go(Failed), Forget(true)] == [OK, Go(Failed)] + [Forget(true)];
  }

  // ---- whole jobs ----

  lemma RasterIs(id: nat, at: int)
    ensures NewRun(id, at).Binaries() == {Raster(id)}
  {}

  lemma Starts(env: Env, s: State, i: nat, at: int) returns (t: State)
    requires Quiet(env, s, i)
    ensures Runs(env, i, s, [Begin(StartRun(at)), OK, OK], t) && Alone(t, i)
    ensures Comes(s, t, i, Saving(NewRun(s.store.Current().mark + 1, at)), s.store)
  {
    var u := Enters(env, s, i, StartRun(at));
    t := Mints(env, u, i, at);
    RunsJoin(env, i, s, [Begin(StartRun(at))], u, [OK, OK], t);
    assert [Begin(StartRun(at)), OK, OK] == [Begin(StartRun(at))] + [OK, OK];
  }

  lemma Saves(env: Env, s: State, i: nat, run: StoredRun) returns (t: State)
    requires Alone(s, i) && (s.tabs[i].phase == Saving(run) || s.tabs[i].phase == SavingAgain(run))
    ensures Runs(env, i, s, [OK, OK, OK, OK], t)
    ensures Comes(s, t, i, Idle, Written(s.store.bytes + run.Binaries(), SetRun(s.store.Current(), run)))
  {
    var u := WritesBytes(env, s, i, run);
    t := Persists(env, u, i, run, ARun);
    RunsJoin(env, i, s, [OK, OK], u, [OK, OK], t);
    assert [OK, OK, OK, OK] == [OK, OK] + [OK, OK];
  }

  /** A run that is started, and that nothing disturbs, is stored under the next
      id: the document becomes the old one with the run set, and the bytes gain
      its raster and lose those of the runs that fall off. */
  lemma RunIsStored(env: Env, s: State, i: nat, at: int) returns (t: State)
    requires Quiet(env, s, i)
    ensures Runs(env, i, s, [Begin(StartRun(at)), OK, OK] + [OK, OK, OK, OK], t)
    ensures var d := s.store.Current();
            Comes(s, t, i, Idle, Written(s.store.bytes + {Raster(d.mark + 1)}, SetRun(d, NewRun(d.mark + 1, at))))
  {
    var run := NewRun(s.store.Current().mark + 1, at);
    RasterIs(run.id, at);
    var u := Starts(env, s, i, at);
    t := Saves(env, u, i, run);
    RunsJoin(env, i, s, [Begin(StartRun(at)), OK, OK], u, [OK, OK, OK, OK], t);
  }

  /** Refused space for its bytes, a run makes room first: the oldest run is given
      up with its bytes, and then the run is stored as any other. */
  lemma RunMakesRoom(env: Env, s: State, i: nat, at: int) returns (t: State)
    requires Quiet(env, s, i)
    requires EvictOldest(Pending(s.store.Current(), []), s.store.Current().mark + 1).Some?
    ensures Runs(env, i, s, [Begin(StartRun(at)), OK, OK] + [Go(Quota), OK, OK] + [OK, OK, OK, OK], t)
    ensures var d := s.store.Current();
            var e := EvictOldest(Pending(d, []), d.mark + 1).value;
            Comes(s, t, i, Idle, Written(s.store.bytes - Named(e.dropped) + {Raster(d.mark + 1)}, SetRun(e.doc, NewRun(d.mark + 1, at))))
  {
    var run := NewRun(s.store.Current().mark + 1, at);
    RasterIs(run.id, at);
    var u := Starts(env, s, i, at);
    var v := MakesRoom(env, u, i, run);
    t := Saves(env, v, i, run);
    RunsJoin(env, i, s, [Begin(StartRun(at)), OK, OK], u, [Go(Quota), OK, OK], v);
    RunsJoin(env, i, s, [Begin(StartRun(at)), OK, OK] + [Go(Quota), OK, OK], v, [OK, OK, OK, OK], t);
  }

  /** A run that cannot be written leaves the document as it was and, once the
      store has forgotten its bytes, the bytes too. */
  lemma FailedRunLeavesNothing(env: Env, s: State, i: nat, at: int) returns (t: State)
    requires Quiet(env, s, i)
    ensures Runs(env, i, s, [Begin(StartRun(at)), OK, OK] + [OK, OK] + [OK, Go(Failed), Forget(true)], t)
    ensures Comes(s, t, i, Idle, Store(s.store.doc, s.store.bytes - {Raster(s.store.Current().mark + 1)}))
  {
    var run := NewRun(s.store.Current().mark + 1, at);
    RasterIs(run.id, at);
    var u := Starts(env, s, i, at);
    var v := WritesBytes(env, u, i, run);
    t := GivesUp(env, v, i, run);
    RunsJoin(env, i, s, [Begin(StartRun(at)), OK, OK], u, [OK, OK], v);
    RunsJoin(env, i, s, [Begin(StartRun(at)), OK, OK] + [OK, OK], v, [OK, Go(Failed), Forget(true)], t);
    assert s.store.bytes + run.Binaries() - run.Binaries() == s.store.bytes - run.Binaries();
  }

  lemma FindsTheRun(runs: seq<StoredRun>, id: nat, q: StoredRun)
    requires Distinct(runs) && q in runs && q.id == id
    ensures FindRun(runs, id) == Some(q)
  {
    if FindRun(runs, id).Some? {
      SameRun(runs, FindRun(runs, id).value, q);
    }
  }

  predicate IsFile(r: StoredRun, f: string, e: Encoding) {
    Artifact(r.id, "export-" + f) in r.artifacts && r.artifacts[Artifact(r.id, "export-" + f)] == e
  }

  /** The run with the export's files held in the document, and otherwise as it was. */
  lemma ExportAdds(q: StoredRun, files: Files)
    ensures var e := Exported(q, files);
            && e.id == q.id && e.startedAt == q.startedAt && e.running == q.running
            && (forall f :: f in files.texts ==> IsFile(e, f, Text))
            && (forall f :: f in files.jsons - files.texts ==> IsFile(e, f, Json))
            && forall a :: a in e.artifacts && (forall f :: f in files.jsons + files.texts ==> a != Artifact(q.id, "export-" + f)) ==>
                 a in q.artifacts && e.artifacts[a] == q.artifacts[a]
    ensures q.artifacts.Keys <= Exported(q, files).artifacts.Keys
  {
    forall f | f in files.jsons - files.texts
      ensures IsFile(Exported(q, files), f, Json)
    {
      assert Artifact(q.id, "export-" + f) in FileIds(q.id, files.jsons);
      forall g | g in files.texts
        ensures "export-" + f != "export-" + g
      {
        assert ("export-" + f)[7..] == f && ("export-" + g)[7..] == g;
      }
    }
    forall f | f in files.texts
      ensures IsFile(Exported(q, files), f, Text)
    {
      assert Artifact(q.id, "export-" + f) in FileIds(q.id, files.texts);
    }
  }

  /** An export adds its files to the run it names. */
  lemma ExportIsStored(env: Env, s: State, i: nat, q: StoredRun, files: Files) returns (t: State)
    requires Quiet(env, s, i) && Distinct(s.store.Current().runs) && q in s.store.Current().runs
    ensures Runs(env, i, s, [Begin(Export(q.id, files))] + [OK] + [OK, OK], t)
    ensures Comes(s, t, i, Idle, Written(s.store.bytes, SetRun(s.store.Current(), Exported(q, files))))
  {
    FindsTheRun(s.store.Current().runs, q.id, q);
    var u := Enters(env, s, i, Export(q.id, files));
    var v := Taken(env, u, i, OK);
    RunsOne(env, i, u, OK, v);
    t := Persists(env, v, i, Exported(q, files), AnExport);
    RunsJoin(env, i, s, [Begin(Export(q.id, files))], u, [OK], v);
    RunsJoin(env, i, s, [Begin(Export(q.id, files))] + [OK], v, [OK, OK], t);
  }

  /** A delete takes out the run it names, and its bytes. */
  lemma DeleteIsDone(env: Env, s: State, i: nat, q: StoredRun) returns (t: State)
    requires Quiet(env, s, i) && Distinct(s.store.Current().runs) && q in s.store.Current().runs && !q.running
    ensures Runs(env, i, s, [Begin(Delete(q.id))] + [OK, OK], t)
    ensures Comes(s, t, i, Idle, Written(s.store.bytes, DropRun(s.store.Current(), q)))
  {
    FindsTheRun(s.store.Current().runs, q.id, q);
    var u := Enters(env, s, i, Delete(q.id));
    var v := Taken(env, u, i, OK);
    t := Taken(env, v, i, OK);
    RunsTwo(env, i, u, OK, v, OK, t);
    RunsJoin(env, i, s, [Begin(Delete(q.id))], u, [OK, OK], t);
  }
}
