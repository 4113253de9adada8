/** The stored document of browser mode: the runs it keeps, what replacing,
    evicting and deleting a run give up, and the store the document shares with
    the byte records. Run run-NNNN is its number; times are instants. */
module RunDocument {
  import opened Options

  const MAX_STORED_RUNS := 20

  datatype Encoding = Json | Text | Binary

  /** artifact-run-NNNN-suffix. */
  datatype Artifact = Artifact(run: nat, suffix: string)

  datatype StoredRun = StoredRun(id: nat, startedAt: int, running: bool, artifacts: map<Artifact, Encoding>) {

    /** The artifacts whose bytes lie outside the document. */
    function Binaries(): set<Artifact> { set a | a in artifacts && artifacts[a] == Binary }

    /** Its artifacts carry its id, and only its raster lies outside. */
    predicate OwnsArtifacts() {
      forall a :: a in artifacts ==> a.run == id && (artifacts[a] == Binary ==> a.suffix == "raster-bin")
    }
  }

  datatype Doc = Doc(runs: seq<StoredRun>, mark: nat)

  /** A document yet to be written, and the runs writing it gives up. */
  datatype Pending = Pending(doc: Doc, dropped: seq<StoredRun>)

  const INITIAL_DOC := Doc([], 0)

  /** binaryArtifactIDs. */
  function Named(runs: seq<StoredRun>): set<Artifact> {
    set r, a | r in runs && a in r.Binaries() :: a
  }

  function Ids(runs: seq<StoredRun>): set<nat> { set r | r in runs :: r.id }

  predicate Distinct(runs: seq<StoredRun>) {
    forall i, j :: 0 <= i < j < |runs| ==> runs[i].id != runs[j].id
  }

  predicate NewestFirst(runs: seq<StoredRun>) {
    forall i, j :: 0 <= i < j < |runs| ==> runs[i].startedAt >= runs[j].startedAt
  }

  predicate Ordered(runs: seq<StoredRun>) { Distinct(runs) && NewestFirst(runs) }

  predicate WellFormed(d: Doc) {
    && |d.runs| <= MAX_STORED_RUNS && Ordered(d.runs)
    && forall r :: r in d.runs ==> r.OwnsArtifacts() && 1 <= r.id <= d.mark
  }

  // ---- replacing a run ----

  /** The runs other than id. */
  function Without(runs: seq<StoredRun>, id: nat): seq<StoredRun> {
    if runs == [] then []
    else
      var n := |runs| - 1;
      if runs[n].id == id then Without(runs[..n], id) else Without(runs[..n], id) + [runs[n]]
  }

  /** Places r after every run at least as new. */
  function InsertNewest(runs: seq<StoredRun>, r: StoredRun): seq<StoredRun> {
    if runs == [] || runs[|runs| - 1].startedAt >= r.startedAt then runs + [r]
    else InsertNewest(runs[..|runs| - 1], r) + [runs[|runs| - 1]]
  }

  /** The stable sort by start time, newest first. */
  function SortNewest(runs: seq<StoredRun>): seq<StoredRun> {
    if runs == [] then [] else InsertNewest(SortNewest(runs[..|runs| - 1]), runs[|runs| - 1])
  }

  function Max(a: nat, b: nat): nat { if a >= b then a else b }

  function Candidates(d: Doc, r: StoredRun): seq<StoredRun> { SortNewest(Without(d.runs, r.id) + [r]) }

  /** setRun. */
  function SetRun(d: Doc, r: StoredRun): Pending {
    var sorted := Candidates(d, r);
    var kept := if |sorted| > MAX_STORED_RUNS then MAX_STORED_RUNS else |sorted|;
    Pending(Doc(sorted[..kept], Max(d.mark, r.id)), sorted[kept..])
  }

  /** The index of the last run other than keep, or -1. */
  function LastOther(runs: seq<StoredRun>, keep: nat): (k: int)
    ensures -1 <= k < |runs|
    ensures k >= 0 ==> runs[k].id != keep
    ensures forall i :: k < i < |runs| ==> runs[i].id == keep
  {
    if runs == [] then -1
    else if runs[|runs| - 1].id != keep then |runs| - 1
    else LastOther(runs[..|runs| - 1], keep)
  }

  /** evictOldestRun. */
  function EvictOldest(p: Pending, keep: nat): Option<Pending> {
    var k := LastOther(p.doc.runs, keep);
    if k < 0 then None
    else Some(Pending(Doc(RemoveAt(p.doc.runs, k), p.doc.mark), p.dropped + [p.doc.runs[k]]))
  }

  function FindRun(runs: seq<StoredRun>, id: nat): (r: Option<StoredRun>)
    ensures r.Some? ==> r.value in runs && r.value.id == id
    ensures r.None? ==> id !in Ids(runs)
  {
    if runs == [] then None
    else if runs[0].id == id then Some(runs[0])
    else FindRun(runs[1..], id)
  }

  /** deleteRun's change: the mark is left alone. */
  function DropRun(d: Doc, r: StoredRun): Pending {
    Pending(Doc(Without(d.runs, r.id), d.mark), [r])
  }

  // ---- what the list operations keep ----

  lemma SnocOrdered(runs: seq<StoredRun>, r: StoredRun)
    requires Ordered(runs) && forall q :: q in runs ==> q.id != r.id && q.startedAt >= r.startedAt
    ensures Ordered(runs + [r])
  {
    forall i, j | 0 <= i < j < |runs + [r]|
      ensures (runs + [r])[i].id != (runs + [r])[j].id && (runs + [r])[i].startedAt >= (runs + [r])[j].startedAt
    {
      assert runs[i] in runs;
    }
  }

  lemma LastOfOrdered(runs: seq<StoredRun>)
    requires runs != [] && Ordered(runs)
    ensures Ordered(runs[..|runs| - 1])
    ensures forall q :: q in runs[..|runs| - 1] ==> q.id != runs[|runs| - 1].id && q.startedAt >= runs[|runs| - 1].startedAt
  {}

  lemma {:induction false} WithoutMembers(runs: seq<StoredRun>, id: nat)
    ensures forall r :: r in Without(runs, id) <==> r in runs && r.id != id
    ensures |Without(runs, id)| <= |runs|
    ensures id in Ids(runs) ==> |Without(runs, id)| < |runs|
  {
    if runs != [] {
      var rest, last := runs[..|runs| - 1], runs[|runs| - 1];
      WithoutMembers(rest, id);
      assert forall r :: r in runs <==> r in rest || r == last;
      assert last.id != id && id in Ids(runs) ==> id in Ids(rest);
    }
  }

  lemma {:induction false} WithoutOrdered(runs: seq<StoredRun>, id: nat)
    requires Ordered(runs)
    ensures Ordered(Without(runs, id))
  {
    if runs != [] {
      LastOfOrdered(runs);
      WithoutOrdered(runs[..|runs| - 1], id);
      WithoutMembers(runs[..|runs| - 1], id);
      SnocOrdered(Without(runs[..|runs| - 1], id), runs[|runs| - 1]);
    }
  }

  lemma {:induction false} InsertMembers(runs: seq<StoredRun>, r: StoredRun)
    ensures |InsertNewest(runs, r)| == |runs| + 1
    ensures forall q :: q in InsertNewest(runs, r) <==> q in runs || q == r
  {
    if runs != [] && runs[|runs| - 1].startedAt < r.startedAt {
      InsertMembers(runs[..|runs| - 1], r);
      assert runs == runs[..|runs| - 1] + [runs[|runs| - 1]];
    }
  }

  lemma {:induction false} InsertOrdered(runs: seq<StoredRun>, r: StoredRun)
    requires Ordered(runs) && forall q :: q in runs ==> q.id != r.id
    ensures Ordered(InsertNewest(runs, r))
  {
    if runs == [] {
    } else if runs[|runs| - 1].startedAt >= r.startedAt {
      SnocOrdered(runs, r);
    } else {
      LastOfOrdered(runs);
      InsertOrdered(runs[..|runs| - 1], r);
      InsertMembers(runs[..|runs| - 1], r);
      SnocOrdered(InsertNewest(runs[..|runs| - 1], r), runs[|runs| - 1]);
    }
  }

  lemma {:induction false} SortKeeps(runs: seq<StoredRun>)
    requires Distinct(runs)
    ensures |SortNewest(runs)| == |runs|
    ensures forall q :: q in SortNewest(runs) <==> q in runs
    ensures Ordered(SortNewest(runs))
  {
    if runs != [] {
      var rest, last := runs[..|runs| - 1], runs[|runs| - 1];
      SortKeeps(rest);
      assert runs == rest + [last];
      InsertMembers(SortNewest(rest), last);
      InsertOrdered(SortNewest(rest), last);
    }
  }

  lemma DistinctSnoc(runs: seq<StoredRun>, r: StoredRun)
    requires Distinct(runs) && forall q :: q in runs ==> q.id != r.id
    ensures Distinct(runs + [r])
  {}

  lemma CandidatesKeep(d: Doc, r: StoredRun)
    requires WellFormed(d)
    ensures |Candidates(d, r)| <= |d.runs| + 1 && (r.id in Ids(d.runs) ==> |Candidates(d, r)| <= |d.runs|)
    ensures forall q :: q in Candidates(d, r) <==> (q in d.runs && q.id != r.id) || q == r
    ensures Ordered(Candidates(d, r))
  {
    WithoutMembers(d.runs, r.id);
    WithoutOrdered(d.runs, r.id);
    DistinctSnoc(Without(d.runs, r.id), r);
    SortKeeps(Without(d.runs, r.id) + [r]);
  }

  /** Runs of a distinct list on either side of a cut name different artifacts. */
  lemma CutDisjoint(runs: seq<StoredRun>, k: nat)
    requires k <= |runs| && Distinct(runs) && forall r :: r in runs ==> r.OwnsArtifacts()
    ensures Named(runs[..k]) !! Named(runs[k..])
  {
    forall a | a in Named(runs[..k])
      ensures a !in Named(runs[k..])
    {
      var q :| q in runs[..k] && a in q.Binaries();
      var i :| 0 <= i < k && runs[..k][i] == q;
      assert runs[i].OwnsArtifacts();
      forall r | r in runs[k..]
        ensures a !in r.Binaries()
      {
        var j :| 0 <= j < |runs| - k && runs[k..][j] == r;
        assert runs[k + j].OwnsArtifacts() && runs[i].id != runs[k + j].id;
      }
    }
  }

  lemma NamedApart(a: seq<StoredRun>, b: seq<StoredRun>)
    ensures Named(a + b) == Named(a) + Named(b)
  {
    forall x | x in Named(a) + Named(b)
      ensures x in Named(a + b)
    {
      if x in Named(a) {
        var r :| r in a && x in r.Binaries();
        assert r in a + b;
      } else {
        var r :| r in b && x in r.Binaries();
        assert r in a + b;
      }
    }
  }

  // ---- sound changes ----

  /** A change that may be committed over d: the new document is well formed and
      names only stored bytes, none of which it gives up, and what it stops
      naming it gives up. */
  ghost predicate Sound(d: Doc, bytes: set<Artifact>, p: Pending) {
    && WellFormed(p.doc) && d.mark <= p.doc.mark
    && Named(p.doc.runs) <= bytes && Named(p.doc.runs) !! Named(p.dropped)
    && Named(d.runs) <= Named(p.doc.runs) + Named(p.dropped)
  }

  /** Storing a run whose bytes are there is sound. */
  lemma SetRunSound(d: Doc, bytes: set<Artifact>, r: StoredRun)
    requires WellFormed(d) && Named(d.runs) <= bytes
    requires r.OwnsArtifacts() && r.id >= 1 && r.Binaries() <= bytes
    requires forall q :: q in d.runs && q.id == r.id ==> q.Binaries() <= r.Binaries()
    ensures Sound(d, bytes, SetRun(d, r))
  {
    var sorted, p := Candidates(d, r), SetRun(d, r);
    var kept := |p.doc.runs|;
    CandidatesKeep(d, r);
    assert sorted == p.doc.runs + p.dropped;
    CutDisjoint(sorted, kept);
    NamedApart(p.doc.runs, p.dropped);
    assert forall q :: q in p.doc.runs ==> q in sorted;
    assert r in sorted;
    forall a | a in Named(d.runs)
      ensures a in Named(sorted)
    {
      var q :| q in d.runs && a in q.Binaries();
      if q.id != r.id {
        assert q in sorted;
      }
    }
    forall a | a in Named(p.doc.runs)
      ensures a in bytes
    {
      var q :| q in p.doc.runs && a in q.Binaries();
      assert q in sorted;
      assert q != r ==> q in d.runs && a in Named(d.runs);
    }
  }

  function RemoveAt(runs: seq<StoredRun>, k: nat): seq<StoredRun>
    requires k < |runs|
  {
    runs[..k] + runs[k + 1..]
  }

  lemma RemoveAtKeeps(runs: seq<StoredRun>, k: nat)
    requires k < |runs| && Ordered(runs)
    ensures Ordered(RemoveAt(runs, k))
    ensures forall q :: q in RemoveAt(runs, k) <==> q in runs && q.id != runs[k].id
  {
    forall q | q in runs && q.id != runs[k].id
      ensures q in RemoveAt(runs, k)
    {
      var i :| 0 <= i < |runs| && runs[i] == q;
      assert RemoveAt(runs, k)[if i < k then i else i - 1] == q;
    }
  }

  lemma RemoveAtNames(runs: seq<StoredRun>, k: nat)
    requires k < |runs| && Ordered(runs) && forall r :: r in runs ==> r.OwnsArtifacts()
    ensures Named(runs) == Named(RemoveAt(runs, k)) + runs[k].Binaries()
    ensures Named(RemoveAt(runs, k)) !! runs[k].Binaries()
  {
    RemoveAtKeeps(runs, k);
    assert runs[k] in runs;
    forall a | a in Named(runs)
      ensures a in Named(RemoveAt(runs, k)) || a in runs[k].Binaries()
    {
      var q :| q in runs && a in q.Binaries();
      if q.id == runs[k].id {
        SameRun(runs, q, runs[k]);
      } else {
        assert q in RemoveAt(runs, k);
      }
    }
    forall a | a in Named(RemoveAt(runs, k))
      ensures a in Named(runs) && a !in runs[k].Binaries()
    {
      var q :| q in RemoveAt(runs, k) && a in q.Binaries();
      assert q in runs && q.OwnsArtifacts() && runs[k].OwnsArtifacts();
    }
  }

  /** Evicting keeps a change sound, and drops exactly one run, not keep. */
  lemma EvictSound(d: Doc, bytes: set<Artifact>, p: Pending, keep: nat)
    requires Sound(d, bytes, p) && EvictOldest(p, keep).Some?
    ensures Sound(d, bytes, EvictOldest(p, keep).value)
    ensures |EvictOldest(p, keep).value.doc.runs| == |p.doc.runs| - 1
    ensures keep in Ids(p.doc.runs) ==> keep in Ids(EvictOldest(p, keep).value.doc.runs)
  {
    var k, runs, e := LastOther(p.doc.runs, keep), p.doc.runs, EvictOldest(p, keep).value;
    RemoveAtKeeps(runs, k);
    RemoveAtNames(runs, k);
    NamedApart(p.dropped, [runs[k]]);
    OneNames(runs[k]);
    if keep in Ids(runs) {
      var q :| q in runs && q.id == keep;
      assert q in RemoveAt(runs, k);
    }
  }

  lemma OneNames(r: StoredRun)
    ensures Named([r]) == r.Binaries()
  {
    assert r in [r];
  }

  /** Leaving a document as it is changes nothing. */
  lemma NoChangeSound(d: Doc, bytes: set<Artifact>)
    requires WellFormed(d) && Named(d.runs) <= bytes
    ensures Sound(d, bytes, Pending(d, []))
  {}

  lemma DropRunSound(d: Doc, bytes: set<Artifact>, r: StoredRun)
    requires WellFormed(d) && Named(d.runs) <= bytes && r in d.runs
    ensures Sound(d, bytes, DropRun(d, r))
    ensures Ids(DropRun(d, r).doc.runs) == Ids(d.runs) - {r.id}
  {
    var p := DropRun(d, r);
    WithoutMembers(d.runs, r.id);
    WithoutOrdered(d.runs, r.id);
    OneNames(r);
    forall a | a in Named(d.runs)
      ensures a in Named(p.doc.runs) + r.Binaries()
    {
      var q :| q in d.runs && a in q.Binaries();
      if q.id == r.id {
        SameRun(d.runs, q, r);
      } else {
        assert q in p.doc.runs;
      }
    }
    forall a | a in Named(p.doc.runs)
      ensures a in Named(d.runs) && a !in r.Binaries()
    {
      var q :| q in p.doc.runs && a in q.Binaries();
      assert q in d.runs && q.OwnsArtifacts() && r.OwnsArtifacts();
    }
    forall i | i in Ids(d.runs) - {r.id}
      ensures i in Ids(p.doc.runs)
    {
      var q :| q in d.runs && q.id == i;
      assert q in p.doc.runs;
    }
  }

  lemma SameRun(runs: seq<StoredRun>, q: StoredRun, r: StoredRun)
    requires Distinct(runs) && q in runs && r in runs && q.id == r.id
    ensures q == r
  {}

  // ---- when a stored run stays ----

  /** How many of the runs are at least as new as a time. */
  function AtLeastAsNew(runs: seq<StoredRun>, at: int): nat {
    if runs == [] then 0
    else AtLeastAsNew(runs[..|runs| - 1], at) + if runs[|runs| - 1].startedAt >= at then 1 else 0
  }

  /** Among runs sorted newest first, those at least as new come first. */
  lemma {:induction false} InsertPlace(runs: seq<StoredRun>, r: StoredRun)
    requires NewestFirst(runs)
    ensures AtLeastAsNew(runs, r.startedAt) <= |runs|
    ensures |InsertNewest(runs, r)| == |runs| + 1
    ensures InsertNewest(runs, r)[AtLeastAsNew(runs, r.startedAt)] == r
  {
    if runs != [] {
      var rest := runs[..|runs| - 1];
      InsertPlace(rest, r);
      if runs[|runs| - 1].startedAt >= r.startedAt {
        AllAsNew(runs, r.startedAt);
      }
    }
  }

  lemma {:induction false} AllAsNew(runs: seq<StoredRun>, at: int)
    requires forall i :: 0 <= i < |runs| ==> runs[i].startedAt >= at
    ensures AtLeastAsNew(runs, at) == |runs|
  {
    if runs != [] {
      AllAsNew(runs[..|runs| - 1], at);
    }
  }

  lemma {:induction false} SortedAlready(runs: seq<StoredRun>)
    requires NewestFirst(runs)
    ensures SortNewest(runs) == runs
  {
    if runs != [] {
      SortedAlready(runs[..|runs| - 1]);
    }
  }

  /** A run just stored is kept exactly when fewer than the cap of the other
      stored runs are at least as new: a run stamped by a clock that went back
      can be dropped by the write that stores it. */
  lemma KeptExactlyWhenNewEnough(d: Doc, r: StoredRun)
    requires WellFormed(d)
    ensures r in SetRun(d, r).doc.runs <==> AtLeastAsNew(Without(d.runs, r.id), r.startedAt) < MAX_STORED_RUNS
  {
    var others, sorted := Without(d.runs, r.id), Candidates(d, r);
    WithoutOrdered(d.runs, r.id);
    SortedAlready(others);
    assert (others + [r])[..|others|] == others;
    InsertPlace(others, r);
    CandidatesKeep(d, r);
    KeptAt(sorted, AtLeastAsNew(others, r.startedAt), |SetRun(d, r).doc.runs|);
  }

  lemma KeptAt(sorted: seq<StoredRun>, k: nat, kept: nat)
    requires Distinct(sorted) && k < |sorted| && kept <= |sorted|
    ensures sorted[k] in sorted[..kept] <==> k < kept
  {
    if k < kept {
      assert sorted[..kept][k] == sorted[k];
    } else {
      forall i | 0 <= i < kept
        ensures sorted[..kept][i] != sorted[k]
      {
        assert sorted[i].id != sorted[k].id;
      }
    }
  }

  // ---- what the list operations do, over the runs and their times ----

  /** x stands before y in the list. */
  ghost predicate Follows(runs: seq<StoredRun>, x: StoredRun, y: StoredRun) {
    exists i, j :: 0 <= i < j < |runs| && runs[i] == x && runs[j] == y
  }

  /** x comes before y when the runs, with r added at the end, are put newest
      first and runs of one time stay in order. */
  ghost predicate Earlier(runs: seq<StoredRun>, r: StoredRun, x: StoredRun, y: StoredRun) {
    || x.startedAt > y.startedAt
    || (x.startedAt == y.startedAt && x != r && (y == r || Follows(runs, x, y)))
  }

  /** The runs that come before q once r has replaced the run of its id. */
  ghost function Ahead(runs: seq<StoredRun>, r: StoredRun, q: StoredRun): set<StoredRun> {
    set x | x in runs + [r] && (x == r || x.id != r.id) && x != q && Earlier(runs, r, x, q)
  }

  lemma {:induction false} WithoutFollows(runs: seq<StoredRun>, id: nat, i: nat, j: nat)
    requires i < j < |Without(runs, id)|
    ensures Follows(runs, Without(runs, id)[i], Without(runs, id)[j])
  {
    var n, all := |runs| - 1, Without(runs, id);
    var rest := Without(runs[..n], id);
    WithoutMembers(runs[..n], id);
    if j < |rest| {
      WithoutFollows(runs[..n], id, i, j);
      var a, b :| 0 <= a < b < n && runs[..n][a] == all[i] && runs[..n][b] == all[j];
      assert runs[a] == all[i] && runs[b] == all[j];
    } else {
      assert rest[i] in rest;
      var a :| 0 <= a < n && runs[..n][a] == all[i];
      assert runs[a] == all[i] && runs[n] == all[j];
    }
  }

  lemma {:induction false} WithoutLength(runs: seq<StoredRun>, id: nat)
    requires Distinct(runs)
    ensures |Without(runs, id)| == if id in Ids(runs) then |runs| - 1 else |runs|
  {
    if runs != [] {
      var rest, last := runs[..|runs| - 1], runs[|runs| - 1];
      WithoutLength(rest, id);
      assert forall q :: q in runs <==> q in rest || q == last;
      if last.id == id {
        assert id !in Ids(rest);
        assert last in runs;
      } else {
        assert id in Ids(runs) <==> id in Ids(rest);
      }
    }
  }

  /** Inserting puts r between the runs at least as new and the older ones. */
  lemma {:induction false} InsertSplits(runs: seq<StoredRun>, r: StoredRun) returns (k: nat)
    requires NewestFirst(runs)
    ensures k <= |runs| && InsertNewest(runs, r) == runs[..k] + [r] + runs[k..]
    ensures forall i :: 0 <= i < |runs| ==> (i < k <==> runs[i].startedAt >= r.startedAt)
  {
    var n := |runs|;
    if runs == [] || runs[n - 1].startedAt >= r.startedAt {
      return n;
    }
    k := InsertSplits(runs[..n - 1], r);
    assert runs[..n - 1][..k] == runs[..k] && runs[..n - 1][k..] + [runs[n - 1]] == runs[k..];
    assert forall i :: 0 <= i < n - 1 ==> runs[..n - 1][i] == runs[i];
  }

  lemma SplicedEarlier(runs: seq<StoredRun>, others: seq<StoredRun>, r: StoredRun, k: nat, i: nat, j: nat)
    requires k <= |others| && i < j <= |others|
    requires forall a :: 0 <= a < |others| ==> others[a] != r && (a < k <==> others[a].startedAt >= r.startedAt)
    requires NewestFirst(others)
    requires forall a, b :: 0 <= a < b < |others| ==> Follows(runs, others[a], others[b])
    ensures Earlier(runs, r, (others[..k] + [r] + others[k..])[i], (others[..k] + [r] + others[k..])[j])
  {
    if i != k && j != k {
      assert Follows(runs, others[if i < k then i else i - 1], others[if j < k then j else j - 1]);
    }
  }

  lemma CandidatesEarlier(d: Doc, r: StoredRun, i: nat, j: nat)
    requires WellFormed(d) && i < j < |Candidates(d, r)|
    ensures Earlier(d.runs, r, Candidates(d, r)[i], Candidates(d, r)[j])
  {
    var others := Without(d.runs, r.id);
    WithoutOrdered(d.runs, r.id);
    WithoutMembers(d.runs, r.id);
    SortedAlready(others);
    assert (others + [r])[..|others|] == others;
    var k := InsertSplits(others, r);
    forall a, b | 0 <= a < b < |others|
      ensures Follows(d.runs, others[a], others[b])
    {
      WithoutFollows(d.runs, r.id, a, b);
    }
    forall a | 0 <= a < |others|
      ensures others[a] != r
    {
      assert others[a] in others;
    }
    SplicedEarlier(d.runs, others, r, k, i, j);
  }

  /** Storing a run replaces the run of its id, puts all newest first with runs
      of one time in their order and r last among them, and keeps the first 20. */
  lemma SetRunExactly(d: Doc, r: StoredRun)
    requires WellFormed(d)
    ensures var p := SetRun(d, r); var all := p.doc.runs + p.dropped;
            && Distinct(all)
            && (forall q :: q in all <==> q == r || (q in d.runs && q.id != r.id))
            && (forall i, j :: 0 <= i < j < |all| ==> Earlier(d.runs, r, all[i], all[j]))
            && |all| == (if r.id in Ids(d.runs) then |d.runs| else |d.runs| + 1)
            && |p.doc.runs| == (if |all| <= 20 then |all| else 20)
            && p.doc.mark == (if r.id > d.mark then r.id else d.mark)
  {
    var p := SetRun(d, r);
    assert p.doc.runs + p.dropped == Candidates(d, r);
    CandidatesKeep(d, r);
    WithoutLength(d.runs, r.id);
    DistinctSnoc(Without(d.runs, r.id), r) by {
      WithoutMembers(d.runs, r.id);
      WithoutOrdered(d.runs, r.id);
    }
    SortKeeps(Without(d.runs, r.id) + [r]);
    forall i, j | 0 <= i < j < |Candidates(d, r)|
      ensures Earlier(d.runs, r, Candidates(d, r)[i], Candidates(d, r)[j])
    {
      CandidatesEarlier(d, r, i, j);
    }
  }

  lemma FollowsOnce(runs: seq<StoredRun>, x: StoredRun, y: StoredRun)
    requires Distinct(runs) && Follows(runs, x, y)
    ensures !Follows(runs, y, x)
  {
    var i, j :| 0 <= i < j < |runs| && runs[i] == x && runs[j] == y;
    forall k, l | 0 <= k < l < |runs| && runs[k] == y
      ensures runs[l] != x
    {
      assert k == j by {
        assert runs[k].id == runs[j].id;
      }
    }
  }

  lemma EarlierOnce(runs: seq<StoredRun>, r: StoredRun, x: StoredRun, y: StoredRun)
    requires Distinct(runs) && x.id != y.id && Earlier(runs, r, x, y)
    ensures !Earlier(runs, r, y, x)
  {
    if Follows(runs, x, y) {
      FollowsOnce(runs, x, y);
    }
  }

  lemma {:induction false} DistinctCount(runs: seq<StoredRun>)
    requires Distinct(runs)
    ensures |set q | q in runs| == |runs|
  {
    if runs != [] {
      var rest, last := runs[..|runs| - 1], runs[|runs| - 1];
      DistinctCount(rest);
      assert last !in rest;
      assert (set q | q in runs) == (set q | q in rest) + {last};
    }
  }

  /** In a list put in that order, those ahead of an element are those before it. */
  lemma AheadStandBefore(runs: seq<StoredRun>, r: StoredRun, all: seq<StoredRun>, k: nat, i: nat)
    requires Distinct(runs) && Distinct(all) && k < |all| && i < |all|
    requires forall q :: q in all <==> q == r || (q in runs && q.id != r.id)
    requires forall i, j :: 0 <= i < j < |all| ==> Earlier(runs, r, all[i], all[j])
    ensures all[i] in Ahead(runs, r, all[k]) <==> i < k
  {
    assert all[i] in all;
    if i < k {
      assert Earlier(runs, r, all[i], all[k]) && all[i].id != all[k].id;
    } else if i > k {
      assert all[i].id != all[k].id;
      EarlierOnce(runs, r, all[k], all[i]);
    }
  }

  lemma AheadCounts(runs: seq<StoredRun>, r: StoredRun, all: seq<StoredRun>, k: nat)
    requires Distinct(runs) && Distinct(all) && k < |all|
    requires forall q :: q in all <==> q == r || (q in runs && q.id != r.id)
    requires forall i, j :: 0 <= i < j < |all| ==> Earlier(runs, r, all[i], all[j])
    ensures |Ahead(runs, r, all[k])| == k
  {
    forall i | 0 <= i < |all|
      ensures all[i] in Ahead(runs, r, all[k]) <==> i < k
    {
      AheadStandBefore(runs, r, all, k, i);
    }
    forall x
      ensures x in Ahead(runs, r, all[k]) <==> x in all[..k]
    {
      if x in Ahead(runs, r, all[k]) {
        assert x in all;
        var i :| 0 <= i < |all| && all[i] == x;
        assert all[..k][i] == x;
      }
    }
    assert Ahead(runs, r, all[k]) == set x | x in all[..k];
    DistinctCount(all[..k]);
  }

  /** A run is kept exactly when fewer than 20 runs come before it. */
  lemma KeptExactly(d: Doc, r: StoredRun, q: StoredRun)
    requires WellFormed(d) && (q == r || (q in d.runs && q.id != r.id))
    ensures q in SetRun(d, r).doc.runs <==> |Ahead(d.runs, r, q)| < 20
  {
    var p := SetRun(d, r);
    var all := p.doc.runs + p.dropped;
    SetRunExactly(d, r);
    assert q in all;
    var k :| 0 <= k < |all| && all[k] == q;
    AheadCounts(d.runs, r, all, k);
    KeptAt(all, k, |p.doc.runs|);
    assert all[..|p.doc.runs|] == p.doc.runs;
  }

  lemma RemoveAtFollows(runs: seq<StoredRun>, k: nat, i: nat, j: nat)
    requires k < |runs| && i < j < |runs| - 1
    ensures Follows(runs, RemoveAt(runs, k)[i], RemoveAt(runs, k)[j])
  {
    var a, b := if i < k then i else i + 1, if j < k then j else j + 1;
    assert runs[a] == RemoveAt(runs, k)[i] && runs[b] == RemoveAt(runs, k)[j];
  }

  lemma LastOtherIsLast(runs: seq<StoredRun>, keep: nat, q: StoredRun)
    requires Ordered(runs) && q in runs && q.id != keep
    ensures LastOther(runs, keep) >= 0
    ensures q == runs[LastOther(runs, keep)]
            || (Follows(runs, q, runs[LastOther(runs, keep)]) && q.startedAt >= runs[LastOther(runs, keep)].startedAt)
  {
    var i :| 0 <= i < |runs| && runs[i] == q;
    assert i <= LastOther(runs, keep);
  }

  /** Evicting gives up the last of the runs other than keep, the oldest of them,
      and refuses exactly when there is none. */
  lemma EvictExactly(p: Pending, keep: nat)
    requires Ordered(p.doc.runs)
    ensures EvictOldest(p, keep).None? <==> forall q :: q in p.doc.runs ==> q.id == keep
    ensures EvictOldest(p, keep).Some? ==>
              var e := EvictOldest(p, keep).value;
              && |e.dropped| == |p.dropped| + 1 && e.dropped[..|p.dropped|] == p.dropped && e.doc.mark == p.doc.mark
              && var victim := e.dropped[|p.dropped|];
                 && victim in p.doc.runs && victim.id != keep
                 && |e.doc.runs| == |p.doc.runs| - 1
                 && (forall q :: q in e.doc.runs <==> q in p.doc.runs && q != victim)
                 && (forall i, j :: 0 <= i < j < |e.doc.runs| ==> Follows(p.doc.runs, e.doc.runs[i], e.doc.runs[j]))
                 && forall q :: q in e.doc.runs && q.id != keep ==>
                      Follows(p.doc.runs, q, victim) && q.startedAt >= victim.startedAt
  {
    var runs, k := p.doc.runs, LastOther(p.doc.runs, keep);
    forall q | q in runs && q.id != keep
      ensures k >= 0 && (q == runs[k] || (Follows(runs, q, runs[k]) && q.startedAt >= runs[k].startedAt))
    {
      LastOtherIsLast(runs, keep, q);
    }
    if k >= 0 {
      assert runs[k] in runs;
      RemoveAtKeeps(runs, k);
      forall q | q in runs && q.id == runs[k].id
        ensures q == runs[k]
      {
        SameRun(runs, q, runs[k]);
      }
      forall i, j | 0 <= i < j < |runs| - 1
        ensures Follows(runs, RemoveAt(runs, k)[i], RemoveAt(runs, k)[j])
      {
        RemoveAtFollows(runs, k, i, j);
      }
    }
  }

  /** Deleting takes exactly the run out and leaves the mark alone. */
  lemma DropRunExactly(d: Doc, r: StoredRun)
    requires WellFormed(d) && r in d.runs
    ensures var p := DropRun(d, r);
            && p.dropped == [r] && p.doc.mark == d.mark
            && |p.doc.runs| == |d.runs| - 1
            && (forall q :: q in p.doc.runs <==> q in d.runs && q != r)
            && forall i, j :: 0 <= i < j < |p.doc.runs| ==> Follows(d.runs, p.doc.runs[i], p.doc.runs[j])
  {
    var p := DropRun(d, r);
    WithoutMembers(d.runs, r.id);
    WithoutLength(d.runs, r.id);
    forall q | q in d.runs && q.id == r.id
      ensures q == r
    {
      SameRun(d.runs, q, r);
    }
    forall i, j | 0 <= i < j < |p.doc.runs|
      ensures Follows(d.runs, p.doc.runs[i], p.doc.runs[j])
    {
      WithoutFollows(d.runs, r.id, i, j);
    }
  }

  // ---- the store ----

  /** How a transaction ended: committed, aborted for lack of space or otherwise,
      or its put threw, which rejects the promise without aborting. */
  datatype Outcome = Ok | Quota | Failed | Threw

  datatype Store = Store(doc: Option<Doc>, bytes: set<Artifact>) {

    function Current(): Doc { if doc.Some? then doc.value else INITIAL_DOC }

    /** The document transaction: both halves, neither, or, when the put throws
        after the deletes were requested, the deletes alone. */
    function Forgetting(p: Pending, o: Outcome): Store {
      match o
      case Ok => Store(Some(p.doc), bytes - Named(p.dropped))
      case Threw => Store(doc, bytes - Named(p.dropped))
      case _ => this
    }
  }

  /** The object store of one origin and its write transactions. */
  class ObjectStore {
    var doc: Option<Doc>
    var bytes: set<Artifact>

    function Value(): Store
      reads this
    {
      Store(doc, bytes)
    }

    constructor ()
      ensures Value() == Store(None, {})
    {
      doc, bytes := None, {};
    }

    /** savePersistedStateForgetting: the deletes, then the put, in one transaction. */
    method SaveForgetting(p: Pending, ids: seq<Artifact>, o: Outcome)
      requires forall a :: a in ids <==> a in Named(p.dropped)
      modifies this
      ensures Value() == old(Value()).Forgetting(p, o)
    {
      var before := bytes;
      for i := 0 to |ids|
        invariant doc == old(doc) && bytes == before - set a | a in ids[..i]
      {
        bytes := bytes - {ids[i]};
        assert ids[..i + 1] == ids[..i] + [ids[i]];
      }
      assert ids[..|ids|] == ids;
      match o
      case Ok => doc := Some(p.doc);
      case Threw =>
      case _ => bytes := before;
    }

    /** saveArtifactBytes. */
    method SaveBytes(a: Artifact, o: Outcome)
      modifies this
      ensures Value() == Store(old(doc), if o.Ok? then old(bytes) + {a} else old(bytes))
    {
      if o.Ok? {
        bytes := bytes + {a};
      }
    }

    /** deleteArtifactBytes. */
    method DeleteBytes(ids: seq<Artifact>, o: Outcome)
      modifies this
      ensures Value() == Store(old(doc), if o.Ok? then old(bytes) - set a | a in ids else old(bytes))
    {
      if o.Ok? {
        for i := 0 to |ids|
          invariant doc == old(doc) && bytes == old(bytes) - set a | a in ids[..i]
        {
          bytes := bytes - {ids[i]};
          assert ids[..i + 1] == ids[..i] + [ids[i]];
        }
        assert ids[..|ids|] == ids;
      }
    }
  }
}
