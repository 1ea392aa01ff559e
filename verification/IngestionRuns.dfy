/**
 Every store state that any number of ingestion coordinators can reach
 (`IngestionCoordinator.execute` in quant_data/ingestion.py): committed tables, one
 working copy at a time, rollback, failure records and crashes.
 */
module IngestionRuns {
  import opened Wrappers
  import opened IngestionTables
  import opened IngestionCoordinator

  // ----- what a committed store is -----

  /** No running row is ever committed, and no run is also a recorded failure. */
  ghost predicate RunsFinished(t: Tables) {
    forall r :: r in t.runs ==> t.runs[r].status == Succeeded && r !in t.failures
  }

  ghost predicate OnePerIdentity(t: Tables) {
    forall r, q ::
      r in t.runs && q in t.runs && r != q ==>
      t.runs[r].dataset != t.runs[q].dataset || t.runs[r].identity != t.runs[q].identity
  }

  predicate CheckpointOk(t: Tables, d: string)
    requires d in t.registry
  {
    var g := t.registry[d];
    && (g.lastRun.None? <==> g.lastIdentity.None?)
    && (g.lastRun.Some? ==>
          && g.lastRun.value in t.runs
          && g.lastIdentity == Some(t.runs[g.lastRun.value].identity)
          && OutputRow(g.lastRun.value, d, t.runs[g.lastRun.value].identity) in t.outputs)
  }

  /** The registry names succeeded runs that declared the dataset as an output. */
  ghost predicate CheckpointsOk(t: Tables) {
    forall d :: d in t.registry ==> CheckpointOk(t, d)
  }

  /** The rows of a snapshot carry the ordinals 1 to n, each once. */
  ghost predicate Numbered(t: Tables, snapshot: string) {
    exists ids ::
      && ids != [] && DistinctTexts(ids)
      && forall m :: m in t.members && m.snapshot == snapshot <==> m in MemberRows(snapshot, ids)
  }

  ghost predicate SnapshotsNumbered(t: Tables) {
    && (forall s :: s in t.snapshots ==> Numbered(t, s))
    && (forall m :: m in t.members ==>
          m.snapshot in t.snapshots && m.artifact in t.artifacts
          && t.snapshots[m.snapshot].run == t.artifacts[m.artifact].run)
  }

  /** A run's artifact and snapshot are its own, and the snapshot holds the artifact. */
  ghost predicate LineageOk(t: Tables, r: string)
    requires r in t.runs
  {
    var row := t.runs[r];
    && row.artifact.Some? && row.artifact.value in t.artifacts && t.artifacts[row.artifact.value].run == r
    && row.snapshot.Some? && row.snapshot.value in t.snapshots && t.snapshots[row.snapshot.value].run == r
    && OutputRow(r, row.dataset, row.identity) in t.outputs
    && exists m :: m in t.members && m.snapshot == row.snapshot.value && m.artifact == row.artifact.value
  }

  ghost predicate LineagesOk(t: Tables) {
    forall r :: r in t.runs ==> LineageOk(t, r)
  }

  predicate QualityRefsOk(t: Tables, q: QualityRow) {
    && (q.artifact.Some? ==> q.artifact.value in t.artifacts && t.artifacts[q.artifact.value].run == q.run)
    && (q.snapshot.Some? ==> q.snapshot.value in t.snapshots && t.snapshots[q.snapshot.value].run == q.run)
  }

  /** Quality results refer to rows of their own run only. */
  ghost predicate QualityInsideRuns(t: Tables) {
    forall x :: x in t.quality ==> QualityRefsOk(t, t.quality[x])
  }

  /** Every row belongs to a run: the foreign keys. */
  ghost predicate RowsOwned(t: Tables) {
    && (forall o :: o in t.outputs ==> o.run in t.runs)
    && (forall a :: a in t.artifacts ==> t.artifacts[a].run in t.runs)
    && (forall s :: s in t.snapshots ==> t.snapshots[s].run in t.runs)
    && (forall q :: q in t.quality ==> t.quality[q].run in t.runs)
  }

  ghost predicate Consistent(t: Tables) {
    && RunsFinished(t) && OnePerIdentity(t) && CheckpointsOk(t)
    && SnapshotsNumbered(t) && LineagesOk(t) && QualityInsideRuns(t) && RowsOwned(t)
  }

  // ----- a committed call keeps it -----

  lemma RunsKept(t: Tables, v: Tables, req: Request, result: WriteResult)
    requires Adds(t, v, req, result) && RunsFinished(t) && OnePerIdentity(t)
    ensures RunsFinished(v) && OnePerIdentity(v)
  {
    hide RegistryMoved, OutputRows, ArtifactRows, MemberRows, QualityRows, Distinct, ArtifactIds;
  }

  lemma OwnersKept(t: Tables, v: Tables, req: Request, result: WriteResult)
    requires Adds(t, v, req, result) && RowsOwned(t)
    ensures RowsOwned(v)
  {
    hide RegistryMoved, OutputRows, ArtifactRows, MemberRows, QualityRows, Distinct, ArtifactIds, IdentityTaken;
  }

  lemma CheckpointsKept(t: Tables, v: Tables, req: Request, result: WriteResult)
    requires Adds(t, v, req, result) && CheckpointsOk(t)
    ensures CheckpointsOk(v)
  {
    hide ArtifactRows, MemberRows, QualityRows, OutputRows, ArtifactIds;
    forall d | d in v.registry ensures CheckpointOk(v, d) {
      assert CheckpointOk(t, d);
    }
  }

  lemma SnapshotsKept(t: Tables, v: Tables, req: Request, result: WriteResult)
    requires Adds(t, v, req, result) && SnapshotsNumbered(t)
    requires SnapshotOk(result.snapshot, req.identity, Distinct(req.outputs), ArtifactIds(result.artifacts))
    ensures SnapshotsNumbered(v)
  {
    hide RegistryMoved, OutputRows, QualityRows, Distinct, IdentityTaken, DistinctTexts;
    var s := result.snapshot;
    forall x | x in v.snapshots ensures Numbered(v, x) {
      if x == s.id {
        NewSnapshotNumbered(t, v, s.id, s.artifactIds);
      } else {
        OldSnapshotNumbered(t, v, x, s.id, s.artifactIds);
      }
    }
    hide Numbered;
    forall m | m in v.members
      ensures m.snapshot in v.snapshots && m.artifact in v.artifacts
              && v.snapshots[m.snapshot].run == v.artifacts[m.artifact].run
    {
      if m in t.members {
        assert m.snapshot in t.snapshots && m.artifact in t.artifacts;
      } else {
        assert m in MemberRows(s.id, s.artifactIds);
        assert m.artifact in ArtifactRows(req.run, result.artifacts);
      }
    }
  }

  lemma NewSnapshotNumbered(t: Tables, v: Tables, snapshot: string, ids: seq<string>)
    requires v.members == t.members + MemberRows(snapshot, ids) && ids != [] && DistinctTexts(ids)
    requires forall m :: m in t.members ==> m.snapshot != snapshot
    ensures Numbered(v, snapshot)
  {
    assert forall m :: m in v.members && m.snapshot == snapshot <==> m in MemberRows(snapshot, ids);
  }

  lemma OldSnapshotNumbered(t: Tables, v: Tables, x: string, snapshot: string, ids: seq<string>)
    requires v.members == t.members + MemberRows(snapshot, ids) && x != snapshot && Numbered(t, x)
    ensures Numbered(v, x)
  {
    var old_ids :| old_ids != [] && DistinctTexts(old_ids)
      && forall m :: m in t.members && m.snapshot == x <==> m in MemberRows(x, old_ids);
    assert forall m :: m in v.members && m.snapshot == x <==> m in MemberRows(x, old_ids);
  }

  lemma LineagesKept(t: Tables, v: Tables, req: Request, result: WriteResult)
    requires Adds(t, v, req, result) && LineagesOk(t)
    requires req.dataset in req.outputs
    requires exists m :: m in v.members && m.snapshot == result.snapshot.id && m.artifact == result.artifacts[0].id
    ensures LineagesOk(v)
  {
    hide RegistryMoved, QualityRows, IdentityTaken, DistinctTexts, MemberRows, LineageOk, OutputRows, ArtifactRows;
    forall r | r in v.runs ensures LineageOk(v, r) {
      if r == req.run {
        NewLineage(t, v, req, result);
      } else {
        assert LineageOk(t, r);
        OldLineage(t, v, r);
      }
    }
  }

  lemma NewLineage(t: Tables, v: Tables, req: Request, result: WriteResult)
    requires Adds(t, v, req, result) && req.dataset in req.outputs
    requires exists m :: m in v.members && m.snapshot == result.snapshot.id && m.artifact == result.artifacts[0].id
    ensures LineageOk(v, req.run)
  {
    hide RegistryMoved, QualityRows, IdentityTaken, DistinctTexts, MemberRows;
    assert result.artifacts[0].id in ArtifactRows(req.run, result.artifacts);
  }

  lemma OldLineage(t: Tables, v: Tables, r: string)
    requires r in t.runs && LineageOk(t, r) && r in v.runs && v.runs[r] == t.runs[r]
    requires t.outputs <= v.outputs && t.members <= v.members
    requires forall a :: a in t.artifacts ==> a in v.artifacts && v.artifacts[a] == t.artifacts[a]
    requires forall x :: x in t.snapshots ==> x in v.snapshots && v.snapshots[x] == t.snapshots[x]
    ensures LineageOk(v, r)
  {
  }

  lemma {:induction false} NewQualityRefs(run: string, quality: seq<QualityWrite>, id: string, outputs: seq<string>,
                                          artifactIds: seq<string>, snapshot: string)
    requires forall i :: 0 <= i < |quality| ==> QualityOk(quality[i], outputs, artifactIds, snapshot)
    requires id in QualityRows(run, quality)
    ensures var row := QualityRows(run, quality)[id];
      && row.run == run
      && (row.artifact.Some? ==> row.artifact.value in artifactIds)
      && (row.snapshot.Some? ==> row.snapshot.value == snapshot)
  {
    var n := |quality| - 1;
    assert QualityOk(quality[n], outputs, artifactIds, snapshot);
    if id != quality[n].id { NewQualityRefs(run, quality[..n], id, outputs, artifactIds, snapshot); }
  }

  lemma QualityKept(t: Tables, v: Tables, req: Request, result: WriteResult)
    requires Adds(t, v, req, result) && QualityInsideRuns(t)
    requires AllQualityOk(result.quality, Distinct(req.outputs), ArtifactIds(result.artifacts), result.snapshot.id)
    ensures QualityInsideRuns(v)
  {
    hide RegistryMoved, OutputRows, IdentityTaken, MemberRows, QualityRows, Distinct, QualityOk;
    forall x | x in v.quality ensures QualityRefsOk(v, v.quality[x]) {
      if x in QualityRows(req.run, result.quality) {
        NewQualityRefs(req.run, result.quality, x, Distinct(req.outputs), ArtifactIds(result.artifacts),
                       result.snapshot.id);
      } else {
        assert QualityRefsOk(t, t.quality[x]);
      }
    }
  }

  /** Committing a call keeps the store consistent. */
  lemma SuccessKeeps(t: Tables, req: Request, result: WriteResult)
    requires Consistent(t) && RequestOk(req)
    requires Opened(t, req).Ok? && Published(Opened(t, req).value, req, Ok(result)).Ok?
    ensures Consistent(Published(Opened(t, req).value, req, Ok(result)).value)
  {
    hide Opened, Published, Verdict, Adds, RunsFinished, OnePerIdentity, CheckpointsOk, SnapshotsNumbered, LineagesOk,
         QualityInsideRuns,
         RowsOwned, SnapshotOk, AllQualityOk;
    var v := Published(Opened(t, req).value, req, Ok(result)).value;
    SuccessAdds(t, req, result);
    VerdictFacts(result, req.identity, Distinct(req.outputs));
    RunsKept(t, v, req, result);
    OwnersKept(t, v, req, result);
    CheckpointsKept(t, v, req, result);
    SnapshotsKept(t, v, req, result);
    LineagesKept(t, v, req, result);
    QualityKept(t, v, req, result);
  }

  /** Recording a failure adds one row and keeps the store consistent. */
  lemma FailureKeeps(t: Tables, req: Request, e: Raised)
    requires Consistent(t) && InsertFailure(t, req, e).Ok?
    ensures Consistent(InsertFailure(t, req, e).value)
  {
    hide InsertFailure, Consistent;
    var v := InsertFailure(t, req, e).value;
    FailureRecorded(t, req, e);
    SameFinished(t, v, req.run);
    SameCheckpoints(t, v);
    SameSnapshots(t, v);
    SameLineages(t, v);
    SameQuality(t, v);
    AllConsistent(t, v);
  }

  lemma FailureRecorded(t: Tables, req: Request, e: Raised)
    requires InsertFailure(t, req, e).Ok?
    ensures req.run !in t.runs && req.run !in t.failures
    ensures var v := InsertFailure(t, req, e).value;
      v == t.(failures := v.failures) && v.failures.Keys == t.failures.Keys + {req.run}
      && forall f :: f in t.failures ==> v.failures[f] == t.failures[f]
  {
  }

  lemma SameFinished(t: Tables, v: Tables, run: string)
    requires v.runs == t.runs && run !in t.runs && v.failures.Keys == t.failures.Keys + {run}
    ensures RunsFinished(t) && OnePerIdentity(t) ==> RunsFinished(v) && OnePerIdentity(v)
  {
  }

  lemma SameCheckpoints(t: Tables, v: Tables)
    requires v == t.(failures := v.failures)
    ensures CheckpointsOk(t) ==> CheckpointsOk(v)
  {
    if CheckpointsOk(t) {
      forall d | d in v.registry ensures CheckpointOk(v, d) { assert CheckpointOk(t, d); }
    }
  }

  lemma SameSnapshots(t: Tables, v: Tables)
    requires v == t.(failures := v.failures)
    ensures SnapshotsNumbered(t) ==> SnapshotsNumbered(v)
  {
    hide MemberRows, DistinctTexts;
    if SnapshotsNumbered(t) {
      forall s | s in v.snapshots ensures Numbered(v, s) { assert Numbered(t, s); }
    }
  }

  lemma SameLineages(t: Tables, v: Tables)
    requires v == t.(failures := v.failures)
    ensures LineagesOk(t) ==> LineagesOk(v)
  {
    if LineagesOk(t) {
      forall r | r in v.runs ensures LineageOk(v, r) { assert LineageOk(t, r); }
    }
  }

  lemma SameQuality(t: Tables, v: Tables)
    requires v == t.(failures := v.failures)
    ensures QualityInsideRuns(t) ==> QualityInsideRuns(v)
    ensures RowsOwned(t) ==> RowsOwned(v)
  {
    if QualityInsideRuns(t) {
      forall x | x in v.quality ensures QualityRefsOk(v, v.quality[x]) { assert QualityRefsOk(t, t.quality[x]); }
    }
  }

  lemma AllConsistent(t: Tables, v: Tables)
    requires Consistent(t)
    requires RunsFinished(t) && OnePerIdentity(t) ==> RunsFinished(v) && OnePerIdentity(v)
    requires CheckpointsOk(t) ==> CheckpointsOk(v)
    requires SnapshotsNumbered(t) ==> SnapshotsNumbered(v)
    requires LineagesOk(t) ==> LineagesOk(v)
    requires QualityInsideRuns(t) ==> QualityInsideRuns(v)
    requires RowsOwned(t) ==> RowsOwned(v)
    ensures Consistent(v)
  {
    hide RunsFinished, OnePerIdentity, CheckpointsOk, SnapshotsNumbered, LineagesOk, QualityInsideRuns, RowsOwned;
  }

  // ----- the machine -----

  type Pid = int

  datatype Outcome = Refused | Unchanged | Committed(run: string) | Failed(e: Raised)

  datatype Proc =
    | Idle
    | Checked(req: Request)                                     // the replay gate was open
    | Begun(req: Request)                                       // BEGIN IMMEDIATE
    | Started(req: Request, work: Tables)                       // the running row is in the working copy
    | Written(req: Request, result: WriteResult, work: Tables)  // all rows are
    | RolledBack(req: Request, e: Raised)                       // to be recorded as a failure
    | Done(outcome: Outcome)

  /** The committed tables, SQLite's one writer, and the coordinators. A coordinator also
      takes the store's file lock or shows that its caller holds it; these runs do not
      need it. */
  datatype World = World(tables: Tables, writer: Option<Pid>, procs: map<Pid, Proc>)

  datatype Event =
    | Check(p: Pid, req: Request)
    | Begin(p: Pid)
    | BeginFails(p: Pid)
    | Recheck(p: Pid)                                           // duplicate, identity, outputs, running row
    | WriteAll(p: Pid, writer: Result<WriteResult, Raised>)
    | CommitFails(p: Pid)
    | Commit(p: Pid)
    | Record(p: Pid)
    | RecordFails(p: Pid)
    | Finish(p: Pid)
    | Crash(p: Pid)

  function At(w: World, p: Pid): Proc {
    if p in w.procs then w.procs[p] else Idle
  }

  predicate Writing(proc: Proc) {
    proc.Begun? || proc.Started? || proc.Written?
  }

  predicate Enabled(w: World, e: Event) {
    var proc := At(w, e.p);
    match e
    case Check(_, _) => proc.Idle?
    case Begin(_) => proc.Checked? && w.writer == None
    case BeginFails(_) => proc.Checked?
    case Recheck(_) => proc.Begun?
    case WriteAll(_, _) => proc.Started?
    case CommitFails(_) => proc.Written?
    case Commit(_) => proc.Written?
    case Record(_) => proc.RolledBack? && w.writer == None
    case RecordFails(_) => proc.RolledBack?
    case Finish(_) => proc.Done?
    case Crash(_) => !proc.Idle?
  }

  function Move(w: World, p: Pid, proc: Proc): World {
    World(w.tables, if Writing(proc) then Some(p) else if w.writer == Some(p) then None else w.writer,
          w.procs[p := proc])
  }

  function Apply(w: World, e: Event): World
    requires Enabled(w, e)
  {
    var proc := At(w, e.p);
    match e
    case Check(p, req) =>
      if !RequestOk(req) then Move(w, p, Done(Refused))
      else if AlreadyPublished(w.tables, req.dataset, req.identity) then Move(w, p, Done(Unchanged))
      else Move(w, p, Checked(req))
    case Begin(p) => Move(w, p, Begun(proc.req))
    case BeginFails(p) => Move(w, p, Done(Failed(SqliteError)))
    case Recheck(p) =>
      if AlreadyPublished(w.tables, proc.req.dataset, proc.req.identity) then Move(w, p, Done(Unchanged))
      else
        (match Opened(w.tables, proc.req)
         case Err(error) => Move(w, p, Done(Failed(error)))
         case Ok(work) => Move(w, p, Started(proc.req, work)))
    case WriteAll(p, writer) =>
      (match Published(proc.work, proc.req, writer)
       case Err(error) => Move(w, p, RolledBack(proc.req, error))
       case Ok(work) => Move(w, p, Written(proc.req, writer.value, work)))
    case CommitFails(p) => Move(w, p, RolledBack(proc.req, SqliteError))
    case Commit(p) => Move(w, p, Done(Committed(proc.req.run))).(tables := proc.work)
    case Record(p) =>
      (match InsertFailure(w.tables, proc.req, proc.e)
       case Err(_) => Move(w, p, Done(Failed(Conflict)))
       case Ok(tables) => Move(w, p, Done(Failed(proc.e))).(tables := tables))
    case RecordFails(p) => Move(w, p, Done(Failed(Conflict)))
    case Finish(p) => Move(w, p, Idle)
    case Crash(p) => Move(w, p, Idle)
  }

  ghost predicate Legal(w: World, events: seq<Event>)
    decreases events
  {
    events == [] || (Enabled(w, events[0]) && Legal(Apply(w, events[0]), events[1..]))
  }

  function Run(w: World, events: seq<Event>): World
    requires Legal(w, events)
    decreases events
  {
    if events == [] then w else Run(Apply(w, events[0]), events[1..])
  }

  // ----- every reachable store -----

  ghost predicate OneWriter(w: World) {
    forall p :: Writing(At(w, p)) <==> w.writer == Some(p)
  }

  /** A working copy is the committed tables and the writer's own rows, nothing else. */
  ghost predicate Knows(w: World, proc: Proc) {
    match proc
    case Checked(req) => RequestOk(req)
    case Begun(req) => RequestOk(req)
    case Started(req, work) => RequestOk(req) && Opened(w.tables, req) == Ok(work)
    case Written(req, result, work) =>
      RequestOk(req) && Opened(w.tables, req).Ok? && Published(Opened(w.tables, req).value, req, Ok(result)) == Ok(work)
    case _ => true
  }

  ghost predicate Inv(w: World) {
    Consistent(w.tables) && OneWriter(w) && forall p :: p in w.procs ==> Knows(w, w.procs[p])
  }

  lemma OneWriterKept(w: World, e: Event)
    requires OneWriter(w) && Enabled(w, e)
    ensures OneWriter(Apply(w, e))
  {
    hide Opened, Published, InsertFailure, AlreadyPublished, RequestOk;
    var next := Apply(w, e);
    forall p ensures Writing(At(next, p)) <==> next.writer == Some(p) {
      assert Writing(At(w, p)) <==> w.writer == Some(p);
      assert Writing(At(w, e.p)) <==> w.writer == Some(e.p);
      if p != e.p { assert At(next, p) == At(w, p); }
    }
  }

  /** The tables change only by committing a working copy or recording a failure. */
  lemma TablesChange(w: World, e: Event)
    requires Enabled(w, e) && Apply(w, e).tables != w.tables
    ensures e.Commit? || e.Record?
    ensures e.Commit? ==> e == Commit(e.p) && At(w, e.p).Written? && Apply(w, e).tables == At(w, e.p).work
    ensures e.Record? ==>
      At(w, e.p).RolledBack? && InsertFailure(w.tables, At(w, e.p).req, At(w, e.p).e) == Ok(Apply(w, e).tables)
  {
    hide Opened, Published, InsertFailure, AlreadyPublished, RequestOk;
  }

  lemma TablesKept(w: World, e: Event)
    requires Inv(w) && Enabled(w, e)
    ensures Consistent(Apply(w, e).tables)
  {
    hide Opened, Published, InsertFailure, AlreadyPublished, RequestOk, Consistent, Apply, OneWriter;
    if Apply(w, e).tables != w.tables {
      TablesChange(w, e);
      var proc := At(w, e.p);
      assert Knows(w, proc);
      if e.Commit? {
        SuccessKeeps(w.tables, proc.req, proc.result);
      } else {
        FailureKeeps(w.tables, proc.req, proc.e);
      }
    }
  }

  /** Only the writer's working copy depends on the committed tables. */
  lemma KnowledgeKept(w: World, e: Event, p: Pid)
    requires OneWriter(w) && Enabled(w, e) && (p in w.procs ==> Knows(w, w.procs[p])) && Knows(w, At(w, e.p))
    ensures Knows(Apply(w, e), At(Apply(w, e), p))
  {
    hide Opened, Published, InsertFailure, AlreadyPublished, RequestOk;
    var next := Apply(w, e);
    assert Writing(At(w, p)) <==> w.writer == Some(p);
    assert Writing(At(w, e.p)) <==> w.writer == Some(e.p);
    if e.WriteAll? { PublishedNeedsWriter(At(w, e.p).work, At(w, e.p).req, e.writer); }
    if p != e.p { assert At(next, p) == At(w, p); }
  }

  lemma PublishedNeedsWriter(t: Tables, req: Request, writer: Result<WriteResult, Raised>)
    ensures Published(t, req, writer).Ok? ==> writer == Ok(writer.value)
  {
    hide ControlRows, Verdict, InsertOutputs, Distinct;
  }

  lemma InvKept(w: World, e: Event)
    requires Inv(w) && Enabled(w, e)
    ensures Inv(Apply(w, e))
  {
    var next := Apply(w, e);
    TablesKept(w, e);
    OneWriterKept(w, e);
    hide Apply, Consistent, Enabled;
    assert Knows(w, At(w, e.p));
    forall p | p in next.procs ensures Knows(next, next.procs[p]) {
      KnowledgeKept(w, e, p);
    }
  }

  /** Over any interleaving of coordinators, failures and crashes the store stays
      consistent. */
  lemma {:induction false} EveryStoreIsConsistent(w: World, events: seq<Event>)
    requires Inv(w) && Legal(w, events)
    ensures Inv(Run(w, events)) && Consistent(Run(w, events).tables)
    decreases events
  {
    if events != [] {
      InvKept(w, events[0]);
      hide Inv, Enabled, Apply, Consistent;
      EveryStoreIsConsistent(Apply(w, events[0]), events[1..]);
    }
  }

  /** An identity that has succeeded is never published again: neither the first look nor the
      one behind BEGIN lets its call through, whoever published it in between. */
  lemma ReplayIsUnchanged(w: World, p: Pid, req: Request, r: string)
    requires RequestOk(req) && r in w.tables.runs
    requires w.tables.runs[r].dataset == req.dataset && w.tables.runs[r].identity == req.identity
    requires w.tables.runs[r].status == Succeeded
    ensures At(w, p).Idle? ==> At(Apply(w, Check(p, req)), p) == Done(Unchanged)
    ensures At(w, p) == Begun(req) ==> At(Apply(w, Recheck(p)), p) == Done(Unchanged)
  {
    hide Opened, Published, InsertFailure, RequestOk;
  }

  /** Where SQLite fails at BEGIN or at COMMIT its own error is raised; behind a failed record
      a conflict is. */
  lemma DatabaseFaults(w: World, p: Pid)
    ensures Enabled(w, BeginFails(p)) ==> At(Apply(w, BeginFails(p)), p) == Done(Failed(SqliteError))
    ensures Enabled(w, CommitFails(p)) ==>
      At(Apply(w, CommitFails(p)), p) == RolledBack(At(w, p).req, SqliteError)
    ensures Enabled(w, RecordFails(p)) ==> At(Apply(w, RecordFails(p)), p) == Done(Failed(Conflict))
  {
    hide Opened, Published, InsertFailure, AlreadyPublished, RequestOk;
  }

  /** A crash anywhere leaves the committed tables, and frees the database for others. */
  lemma CrashRollsBack(w: World, p: Pid)
    requires !At(w, p).Idle? && OneWriter(w)
    ensures Enabled(w, Crash(p)) && Apply(w, Crash(p)).tables == w.tables && At(Apply(w, Crash(p)), p).Idle?
    ensures Writing(At(w, p)) ==> Apply(w, Crash(p)).writer == None
  {
    hide Opened, Published, InsertFailure, AlreadyPublished, RequestOk;
    assert Writing(At(w, p)) <==> w.writer == Some(p);
  }

  /** A store with registered datasets and no runs yet. */
  predicate Fresh(t: Tables) {
    && t.runs == map[] && t.outputs == {} && t.artifacts == map[] && t.snapshots == map[] && t.members == {}
    && t.quality == map[] && t.failures == map[]
    && forall d :: d in t.registry ==> t.registry[d].lastRun == None && t.registry[d].lastIdentity == None
  }

  lemma FreshStart(t: Tables)
    requires Fresh(t)
    ensures Inv(World(t, None, map[]))
  {
  }

  /** Committed rows stay as they are; only the checkpoints and the writer's own tables move. */
  ghost predicate Extends(t: Tables, v: Tables) {
    && (forall r :: r in t.runs ==> r in v.runs && v.runs[r] == t.runs[r])
    && t.outputs <= v.outputs && t.members <= v.members
    && (forall a :: a in t.artifacts ==> a in v.artifacts && v.artifacts[a] == t.artifacts[a])
    && (forall x :: x in t.snapshots ==> x in v.snapshots && v.snapshots[x] == t.snapshots[x])
    && (forall q :: q in t.quality ==> q in v.quality && v.quality[q] == t.quality[q])
    && (forall f :: f in t.failures ==> f in v.failures && v.failures[f] == t.failures[f])
  }

  lemma AddsExtends(t: Tables, v: Tables, req: Request, result: WriteResult)
    requires Adds(t, v, req, result)
    ensures Extends(t, v)
  {
    hide RegistryMoved, IdentityTaken, Distinct, QualityRows, MemberRows, ArtifactRows, OutputRows;
  }

  /** A commit adds exactly the one run its coordinator prepared, rows included. */
  lemma CommitAdds(w: World, p: Pid)
    requires Inv(w) && At(w, p).Written?
    ensures Adds(w.tables, At(w, p).work, At(w, p).req, At(w, p).result)
    ensures Enabled(w, Commit(p)) && Apply(w, Commit(p)).tables == At(w, p).work
  {
    hide Adds, Consistent, Apply, Enabled, OneWriter, Opened, Published, RequestOk;
    assert Knows(w, At(w, p));
    CommittedWork(w, p);
    SuccessAdds(w.tables, At(w, p).req, At(w, p).result);
  }

  lemma CommittedWork(w: World, p: Pid)
    requires At(w, p).Written?
    ensures Enabled(w, Commit(p)) && Apply(w, Commit(p)).tables == At(w, p).work
  {
    hide Opened, Published, AlreadyPublished, InsertFailure, RequestOk;
  }

  lemma StepExtends(w: World, e: Event)
    requires Inv(w) && Enabled(w, e)
    ensures Extends(w.tables, Apply(w, e).tables)
  {
    hide Enabled, Apply, Inv, Adds, InsertFailure;
    if Apply(w, e).tables != w.tables {
      TablesChange(w, e);
      if e.Commit? {
        CommitAdds(w, e.p);
        AddsExtends(w.tables, At(w, e.p).work, At(w, e.p).req, At(w, e.p).result);
      } else {
        FailureRecorded(w.tables, At(w, e.p).req, At(w, e.p).e);
      }
    }
  }

  /** Nothing committed is ever changed or lost. */
  lemma {:induction false} RunExtends(w: World, events: seq<Event>)
    requires Inv(w) && Legal(w, events)
    ensures Extends(w.tables, Run(w, events).tables)
    decreases events
  {
    hide Inv, Enabled, Apply, Extends;
    if events == [] {
      ExtendsItself(w.tables);
    } else {
      var next := Apply(w, events[0]);
      StepExtends(w, events[0]);
      InvKept(w, events[0]);
      RunExtends(next, events[1..]);
      ExtendsTransitive(w.tables, next.tables, Run(w, events).tables);
    }
  }

  lemma ExtendsItself(t: Tables)
    ensures Extends(t, t)
  {
  }

  lemma ExtendsTransitive(t: Tables, u: Tables, v: Tables)
    requires Extends(t, u) && Extends(u, v)
    ensures Extends(t, v)
  {
  }
}
