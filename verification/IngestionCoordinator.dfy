/**
 One call of `IngestionCoordinator.execute` in quant_data/ingestion.py: what it checks,
 in which order, the rows it writes, and what a committed call adds to the store.
 */
module IngestionCoordinator {
  import opened Wrappers
  import opened IngestionTables

  // ----- checks on the writer's result -----

  predicate DistinctTexts(ids: seq<string>) {
    forall i, j :: 0 <= i < j < |ids| ==> ids[i] != ids[j]
  }

  function ArtifactIds(artifacts: seq<ArtifactWrite>): (r: seq<string>)
    ensures |r| == |artifacts|
    ensures forall i :: 0 <= i < |r| ==> r[i] == artifacts[i].id
  {
    if artifacts == [] then [] else ArtifactIds(artifacts[..|artifacts| - 1]) + [artifacts[|artifacts| - 1].id]
  }

  predicate ArtifactOk(a: ArtifactWrite, outputs: seq<string>) {
    a.wellFormed && a.id != "" && a.dataset in outputs
  }

  predicate SnapshotOk(s: SnapshotWrite, identity: string, outputs: seq<string>, artifactIds: seq<string>) {
    && s.wellFormed && s.id != "" && s.dataset in outputs && s.identity == identity && s.state == ValidatedState
    && s.artifactIds != [] && DistinctTexts(s.artifactIds)
    && forall i :: 0 <= i < |s.artifactIds| ==> s.artifactIds[i] in artifactIds
  }

  predicate QualityOk(q: QualityWrite, outputs: seq<string>, artifactIds: seq<string>, snapshot: string) {
    && q.wellFormed && q.id != "" && q.subject != "" && q.dataset in outputs
    && (q.artifact.Some? ==> q.artifact.value in artifactIds)
    && (q.snapshot.Some? ==> q.snapshot.value == snapshot)
    && (q.kind == ArtifactSubject ==> q.artifact == Some(q.subject))
    && (q.kind == SnapshotSubject ==> q.snapshot == Some(q.subject))
  }

  predicate AllQualityOk(quality: seq<QualityWrite>, outputs: seq<string>, artifactIds: seq<string>, snapshot: string) {
    && (forall i :: 0 <= i < |quality| ==> QualityOk(quality[i], outputs, artifactIds, snapshot))
    && (forall i, j :: 0 <= i < j < |quality| ==> quality[i].id != quality[j].id)
  }

  /** What `_validate_control_write` raises, if anything. */
  function Verdict(result: WriteResult, identity: string, outputs: seq<string>): Option<Raised> {
    var ids := ArtifactIds(result.artifacts);
    if result.artifacts == [] || !DistinctTexts(ids) then Some(Invalid)
    else if exists i :: 0 <= i < |result.artifacts| && !ArtifactOk(result.artifacts[i], outputs) then Some(Invalid)
    else if result.outcome == PartialOutcome then Some(PartialPublication)
    else if result.outcome == RejectedOutcome then Some(RejectedPublication)
    else if result.outcome == OtherOutcome then Some(Invalid)
    else if result.snapshot.state == RejectedState then Some(RejectedPublication)
    else if !SnapshotOk(result.snapshot, identity, outputs, ids) then Some(Invalid)
    else if !AllQualityOk(result.quality, outputs, ids, result.snapshot.id) then Some(Invalid)
    else None
  }

  /** `_validate_control_write`, with the set of quality ids it keeps. */
  method ValidateControlWrite(result: WriteResult, identity: string, outputs: seq<string>)
    returns (r: Option<Raised>)
    ensures r == Verdict(result, identity, outputs)
  {
    hide SnapshotOk, QualityOk, ArtifactOk, DistinctTexts;
    var ids := ArtifactIds(result.artifacts);
    if result.artifacts == [] || !DistinctTexts(ids) { return Some(Invalid); }
    for i := 0 to |result.artifacts|
      invariant forall k :: 0 <= k < i ==> ArtifactOk(result.artifacts[k], outputs)
    {
      if !ArtifactOk(result.artifacts[i], outputs) { return Some(Invalid); }
    }
    if result.outcome == PartialOutcome { return Some(PartialPublication); }
    if result.outcome == RejectedOutcome { return Some(RejectedPublication); }
    if result.outcome != SucceededOutcome { return Some(Invalid); }
    if result.snapshot.state == RejectedState { return Some(RejectedPublication); }
    if !SnapshotOk(result.snapshot, identity, outputs, ids) { return Some(Invalid); }
    var qualityIds: set<string> := {};
    for i := 0 to |result.quality|
      invariant forall k :: 0 <= k < i ==> QualityOk(result.quality[k], outputs, ids, result.snapshot.id)
      invariant forall id :: id in qualityIds <==> exists k :: 0 <= k < i && result.quality[k].id == id
      invariant forall j, k :: 0 <= j < k < i ==> result.quality[j].id != result.quality[k].id
    {
      var q := result.quality[i];
      if q.id in qualityIds || !QualityOk(q, outputs, ids, result.snapshot.id) { return Some(Invalid); }
      qualityIds := qualityIds + {q.id};
    }
    r := None;
  }

  // ----- what the checks ask for -----

  predicate HasArtifact(result: WriteResult, id: string) {
    exists a :: a in result.artifacts && a.id == id
  }

  /** At least one artifact, under distinct ids, each of a declared output. */
  predicate EvidenceGood(result: WriteResult, outputs: seq<string>) {
    && |result.artifacts| > 0
    && (forall a :: a in result.artifacts ==> a.wellFormed && |a.id| > 0 && a.dataset in outputs)
    && (forall i, j :: 0 <= i < |result.artifacts| && 0 <= j < |result.artifacts| && i != j ==>
          result.artifacts[i].id != result.artifacts[j].id)
  }

  /** A validated snapshot of this identity, made of artifacts of this write. */
  predicate SnapshotGood(result: WriteResult, identity: string, outputs: seq<string>) {
    var s := result.snapshot;
    && s.state.ValidatedState? && s.identity == identity
    && s.wellFormed && |s.id| > 0 && s.dataset in outputs && |s.artifactIds| > 0
    && (forall id :: id in s.artifactIds ==> HasArtifact(result, id))
    && (forall i, j :: 0 <= i < |s.artifactIds| && 0 <= j < |s.artifactIds| && i != j ==>
          s.artifactIds[i] != s.artifactIds[j])
  }

  /** A quality result refers to an artifact or the snapshot of this write, and to the one
      that it is about. */
  predicate QualityGood(result: WriteResult, q: QualityWrite, outputs: seq<string>) {
    && q.wellFormed && |q.id| > 0 && q.dataset in outputs && |q.subject| > 0
    && (q.artifact.None? || HasArtifact(result, q.artifact.value))
    && q.snapshot in {None, Some(result.snapshot.id)}
    && (match q.kind
        case ArtifactSubject => q.artifact.Some? && q.subject == q.artifact.value
        case SnapshotSubject => q.snapshot.Some? && q.subject == result.snapshot.id
        case _ => true)
  }

  predicate AllQualityGood(result: WriteResult, outputs: seq<string>) {
    && (forall q :: q in result.quality ==> QualityGood(result, q, outputs))
    && (forall i, j :: 0 <= i < |result.quality| && 0 <= j < |result.quality| && i != j ==>
          result.quality[i].id != result.quality[j].id)
  }

  /** A write that can be published as succeeded. */
  predicate WriteGood(result: WriteResult, identity: string, outputs: seq<string>) {
    && EvidenceGood(result, outputs) && result.outcome.SucceededOutcome?
    && SnapshotGood(result, identity, outputs) && AllQualityGood(result, outputs)
  }

  lemma {:induction false} IdIsArtifact(result: WriteResult, id: string)
    ensures id in ArtifactIds(result.artifacts) <==> HasArtifact(result, id)
  {
    var ids := ArtifactIds(result.artifacts);
    if id in ids {
      var i :| 0 <= i < |ids| && ids[i] == id;
      assert result.artifacts[i] in result.artifacts;
    }
    if HasArtifact(result, id) {
      var a :| a in result.artifacts && a.id == id;
      var i :| 0 <= i < |result.artifacts| && result.artifacts[i] == a;
      assert ids[i] == id;
    }
  }

  lemma {:induction false} EvidenceExactly(result: WriteResult, outputs: seq<string>)
    ensures EvidenceGood(result, outputs) <==>
      && result.artifacts != [] && DistinctTexts(ArtifactIds(result.artifacts))
      && forall i :: 0 <= i < |result.artifacts| ==> ArtifactOk(result.artifacts[i], outputs)
  {
    var ids := ArtifactIds(result.artifacts);
    assert forall i :: 0 <= i < |ids| ==> ids[i] == result.artifacts[i].id;
  }

  lemma {:induction false} SnapshotExactlyGood(result: WriteResult, identity: string, outputs: seq<string>)
    ensures SnapshotGood(result, identity, outputs) <==>
      SnapshotOk(result.snapshot, identity, outputs, ArtifactIds(result.artifacts))
  {
    hide HasArtifact;
    var s, ids := result.snapshot, ArtifactIds(result.artifacts);
    forall id ensures id in ids <==> HasArtifact(result, id) { IdIsArtifact(result, id); }
    assert (forall i :: 0 <= i < |s.artifactIds| ==> s.artifactIds[i] in ids) <==>
           (forall id :: id in s.artifactIds ==> HasArtifact(result, id));
  }

  lemma {:induction false} OneQualityGood(result: WriteResult, q: QualityWrite, outputs: seq<string>)
    ensures QualityGood(result, q, outputs) <==>
      QualityOk(q, outputs, ArtifactIds(result.artifacts), result.snapshot.id)
  {
    hide HasArtifact;
    if q.artifact.Some? { IdIsArtifact(result, q.artifact.value); }
  }

  lemma {:induction false} QualityExactlyGood(result: WriteResult, outputs: seq<string>)
    ensures AllQualityGood(result, outputs) <==>
      AllQualityOk(result.quality, outputs, ArtifactIds(result.artifacts), result.snapshot.id)
  {
    hide QualityGood, QualityOk;
    var ids := ArtifactIds(result.artifacts);
    forall q ensures QualityGood(result, q, outputs) <==> QualityOk(q, outputs, ids, result.snapshot.id) {
      OneQualityGood(result, q, outputs);
    }
    assert (forall i :: 0 <= i < |result.quality| ==> QualityOk(result.quality[i], outputs, ids, result.snapshot.id))
      <==> forall q :: q in result.quality ==> QualityGood(result, q, outputs);
  }

  /** Which fault the checks raise, for every write: none exactly for a good write; a
      partial run and a rejected one are told apart from a bad record, but only behind
      good evidence. */
  lemma {:induction false} VerdictExactly(result: WriteResult, identity: string, outputs: seq<string>)
    ensures Verdict(result, identity, outputs) == None <==> WriteGood(result, identity, outputs)
    ensures Verdict(result, identity, outputs) == Some(PartialPublication) <==>
      EvidenceGood(result, outputs) && result.outcome.PartialOutcome?
    ensures Verdict(result, identity, outputs) == Some(RejectedPublication) <==>
      && EvidenceGood(result, outputs)
      && (result.outcome.RejectedOutcome? || (result.outcome.SucceededOutcome? && result.snapshot.state.RejectedState?))
    ensures Verdict(result, identity, outputs) in
      {None, Some(PartialPublication), Some(RejectedPublication), Some(Invalid)}
  {
    hide EvidenceGood, SnapshotOk, AllQualityGood, AllQualityOk, ArtifactIds, DistinctTexts, ArtifactOk;
    EvidenceExactly(result, outputs);
    SnapshotExactlyGood(result, identity, outputs);
    QualityExactlyGood(result, outputs);
  }

  /** Only which outputs are declared counts, not how often or where. */
  lemma GoodForSameOutputs(result: WriteResult, identity: string, outputs: seq<string>, others: seq<string>)
    requires forall d :: d in outputs <==> d in others
    ensures EvidenceGood(result, outputs) <==> EvidenceGood(result, others)
    ensures WriteGood(result, identity, outputs) <==> WriteGood(result, identity, others)
  {
    hide HasArtifact;
    forall q ensures QualityGood(result, q, outputs) <==> QualityGood(result, q, others) {}
    hide QualityGood;
  }

  // ----- the rows of one call, as folds -----

  function InsertOutputs(t: Tables, run: string, identity: string, outputs: seq<string>): Result<Tables, Raised> {
    if outputs == [] then Ok(t)
    else
      var n := |outputs| - 1;
      match InsertOutputs(t, run, identity, outputs[..n])
      case Err(e) => Err(e)
      case Ok(u) => InsertOutput(u, run, outputs[n], identity)
  }

  function InsertArtifacts(t: Tables, run: string, artifacts: seq<ArtifactWrite>): Result<Tables, Raised> {
    if artifacts == [] then Ok(t)
    else
      var n := |artifacts| - 1;
      match InsertArtifacts(t, run, artifacts[..n])
      case Err(e) => Err(e)
      case Ok(u) => InsertArtifact(u, run, artifacts[n])
  }

  /** Ordinals count from 1 (`enumerate(..., start=1)`). */
  function InsertMembers(t: Tables, snapshot: string, ids: seq<string>): Result<Tables, Raised> {
    if ids == [] then Ok(t)
    else
      var n := |ids| - 1;
      match InsertMembers(t, snapshot, ids[..n])
      case Err(e) => Err(e)
      case Ok(u) => InsertMember(u, snapshot, ids[n], n + 1)
  }

  function InsertAllQuality(t: Tables, run: string, quality: seq<QualityWrite>): Result<Tables, Raised> {
    if quality == [] then Ok(t)
    else
      var n := |quality| - 1;
      match InsertAllQuality(t, run, quality[..n])
      case Err(e) => Err(e)
      case Ok(u) => InsertQuality(u, run, quality[n])
  }

  function Checkpoints(t: Tables, outputs: seq<string>, run: string, identity: string): Result<Tables, Raised> {
    if outputs == [] then Ok(t)
    else
      var n := |outputs| - 1;
      match Checkpoints(t, outputs[..n], run, identity)
      case Err(e) => Err(e)
      case Ok(u) => Checkpoint(u, outputs[n], run, identity)
  }

  // ----- a call, from BEGIN to COMMIT -----

  /** `tuple(dict.fromkeys(ids))`: first appearances, in order. */
  function Distinct(ids: seq<string>): (r: seq<string>)
    ensures DistinctTexts(r)
    ensures forall d :: d in r <==> d in ids
  {
    if ids == [] then []
    else
      var n := |ids| - 1;
      var front := Distinct(ids[..n]);
      assert ids == ids[..n] + [ids[n]];
      if ids[n] in front then front else front + [ids[n]]
  }

  predicate RequestOk(req: Request) {
    && req.wellFormed && req.run != "" && req.dataset != ""
    && (forall i :: 0 <= i < |req.outputs| ==> req.outputs[i] != "") && req.dataset in req.outputs
  }

  predicate OutputsRegistered(t: Tables, outputs: seq<string>) {
    forall i :: 0 <= i < |outputs| ==> outputs[i] in t.registry && t.registry[outputs[i]].active
  }

  /** Behind the replay gate, up to the running row. What fails here leaves no trace. */
  function Opened(t: Tables, req: Request): Result<Tables, Raised> {
    if req.run in t.failures then Err(Conflict)
    else if !OutputsRegistered(t, Distinct(req.outputs)) then Err(Conflict)
    else InsertRun(t, req)
  }

  /** The canonical dataset is an output, and no name is empty. */
  predicate RequestGood(req: Request) {
    req.wellFormed && "" !in [req.run, req.dataset] + req.outputs && req.dataset in req.outputs
  }

  lemma RequestExactly(req: Request)
    ensures RequestOk(req) <==> RequestGood(req)
  {
    assert forall d :: d in [req.run, req.dataset] + req.outputs <==>
      d == req.run || d == req.dataset || d in req.outputs;
    assert "" in req.outputs <==> exists i :: 0 <= i < |req.outputs| && req.outputs[i] == "";
  }

  /** A new run id, an identity that no run of the dataset has, registered outputs. */
  predicate CanOpen(t: Tables, req: Request) {
    && req.binding.None? && req.run !in t.failures && req.run !in t.runs
    && (forall r :: r in t.runs ==> t.runs[r].dataset != req.dataset || t.runs[r].identity != req.identity)
    && req.dataset in t.registry
    && (forall d :: d in req.outputs ==> d in t.registry && t.registry[d].active)
  }

  lemma PublishedCannotOpen(t: Tables, req: Request)
    requires AlreadyPublished(t, req.dataset, req.identity)
    ensures !CanOpen(t, req)
  {
  }

  /** When the running row goes in. */
  lemma {:induction false} OpenedExactly(t: Tables, req: Request)
    ensures Opened(t, req).Ok? <==> CanOpen(t, req)
    ensures req.run in t.failures ==> Opened(t, req) == Err(Conflict)
    ensures (exists d :: d in req.outputs && (d !in t.registry || !t.registry[d].active)) ==>
      Opened(t, req) == Err(Conflict)
    ensures Opened(t, req).Err? && req.run !in t.failures &&
            (forall d :: d in req.outputs ==> d in t.registry && t.registry[d].active) ==>
      Opened(t, req).error == if req.binding.Some? then req.binding.value else SqliteError
  {
    var outputs := Distinct(req.outputs);
    if forall d :: d in req.outputs ==> d in t.registry && t.registry[d].active {
      assert forall i :: 0 <= i < |outputs| ==> outputs[i] in req.outputs;
    }
    if OutputsRegistered(t, outputs) {
      forall d | d in req.outputs ensures d in t.registry && t.registry[d].active {
        var i :| 0 <= i < |outputs| && outputs[i] == d;
      }
    }
    hide Distinct;
  }

  function ControlRows(t: Tables, run: string, result: WriteResult): Result<Tables, Raised> {
    match InsertArtifacts(t, run, result.artifacts)
    case Err(e) => Err(e)
    case Ok(t1) =>
      match InsertSnapshot(t1, run, result.snapshot)
      case Err(e) => Err(e)
      case Ok(t2) =>
        match InsertMembers(t2, result.snapshot.id, result.snapshot.artifactIds)
        case Err(e) => Err(e)
        case Ok(t3) => InsertAllQuality(t3, run, result.quality)
  }

  /** Between the running row and COMMIT. What fails here is recorded. */
  function Published(t: Tables, req: Request, writer: Result<WriteResult, Raised>): Result<Tables, Raised> {
    var outputs := Distinct(req.outputs);
    match InsertOutputs(t, req.run, req.identity, outputs)
    case Err(e) => Err(e)
    case Ok(t1) =>
      match writer
      case Err(e) => Err(e)
      case Ok(result) =>
        if result.written < 0 then Err(Invalid)
        else match Verdict(result, req.identity, outputs)
          case Some(e) => Err(e)
          case None =>
            match ControlRows(t1.(domain := result.domain), req.run, result)
            case Err(e) => Err(e)
            case Ok(t2) =>
              if result.warnings.Some? then Err(result.warnings.value)
              else match MarkSucceeded(t2, req.run, result.artifacts[0].id, result.snapshot.id, result.written)
              case Err(e) => Err(e)
              case Ok(t3) => Checkpoints(t3, outputs, req.run, req.identity)
  }

  // ----- the folds in closed form -----

  function OutputRows(run: string, identity: string, outputs: seq<string>): (r: set<OutputRow>)
    ensures forall o :: o in r <==> o.run == run && o.identity == identity && o.dataset in outputs
  {
    set d | d in outputs :: OutputRow(run, d, identity)
  }

  function ArtifactRows(run: string, artifacts: seq<ArtifactWrite>): (r: map<string, ArtifactRow>)
    ensures forall id :: id in r <==> id in ArtifactIds(artifacts)
    ensures forall id :: id in r ==> r[id].run == run
  {
    if artifacts == [] then map[]
    else
      var n := |artifacts| - 1;
      ArtifactRows(run, artifacts[..n])[artifacts[n].id := ArtifactRow(run, artifacts[n].dataset)]
  }

  /** The rows of a snapshot whose artifacts are `ids`: ordinals exactly 1 to n. */
  function MemberRows(snapshot: string, ids: seq<string>): (r: set<MemberRow>)
    ensures forall m :: m in r <==>
      m.snapshot == snapshot && 1 <= m.ordinal <= |ids| && ids[m.ordinal - 1] == m.artifact
  {
    set i | 0 <= i < |ids| :: MemberRow(snapshot, ids[i], i + 1)
  }

  function QualityRows(run: string, quality: seq<QualityWrite>): (r: map<string, QualityRow>)
    ensures forall id :: id in r ==> r[id].run == run
  {
    if quality == [] then map[]
    else
      var n := |quality| - 1;
      QualityRows(run, quality[..n])[quality[n].id := RowOf(run, quality[n])]
  }

  lemma {:induction false} OutputsInserted(t: Tables, run: string, identity: string, outputs: seq<string>)
    requires InsertOutputs(t, run, identity, outputs).Ok?
    ensures InsertOutputs(t, run, identity, outputs).value ==
      t.(outputs := t.outputs + OutputRows(run, identity, outputs))
  {
    if outputs == [] {
      assert t.outputs + OutputRows(run, identity, []) == t.outputs;
    } else {
      hide OutputRows;
      var n := |outputs| - 1;
      OutputsInserted(t, run, identity, outputs[..n]);
      assert outputs == outputs[..n] + [outputs[n]];
      OneOutputRow(run, identity, outputs[..n], outputs[n]);
      assert t.outputs + OutputRows(run, identity, outputs) ==
        (t.outputs + OutputRows(run, identity, outputs[..n])) + {OutputRow(run, outputs[n], identity)};
    }
  }

  lemma OneOutputRow(run: string, identity: string, outputs: seq<string>, d: string)
    ensures OutputRows(run, identity, outputs + [d]) ==
      OutputRows(run, identity, outputs) + {OutputRow(run, d, identity)}
  {
  }

  lemma MergeUpdate<K, V>(a: map<K, V>, b: map<K, V>, k: K, v: V)
    ensures a + b[k := v] == (a + b)[k := v]
    ensures forall x :: x in (a + b)[k := v] <==> x in a || x in b || x == k
  {
  }

  lemma {:induction false} ArtifactsInserted(t: Tables, run: string, artifacts: seq<ArtifactWrite>)
    requires InsertArtifacts(t, run, artifacts).Ok?
    ensures InsertArtifacts(t, run, artifacts).value ==
      t.(artifacts := t.artifacts + ArtifactRows(run, artifacts))
    ensures forall id :: id in ArtifactRows(run, artifacts) ==> id !in t.artifacts
  {
    hide ArtifactIds, DeclaredOutput;
    if artifacts == [] {
      assert t.artifacts + map[] == t.artifacts;
    } else {
      var n := |artifacts| - 1;
      ArtifactsInserted(t, run, artifacts[..n]);
      MergeUpdate(t.artifacts, ArtifactRows(run, artifacts[..n]), artifacts[n].id,
                  ArtifactRow(run, artifacts[n].dataset));
    }
  }

  lemma {:induction false} MembersInserted(t: Tables, snapshot: string, ids: seq<string>)
    requires InsertMembers(t, snapshot, ids).Ok?
    ensures InsertMembers(t, snapshot, ids).value == t.(members := t.members + MemberRows(snapshot, ids))
  {
    if ids == [] {
      assert t.members + MemberRows(snapshot, []) == t.members;
    } else {
      var n := |ids| - 1;
      MembersInserted(t, snapshot, ids[..n]);
      assert MemberRows(snapshot, ids) == MemberRows(snapshot, ids[..n]) + {MemberRow(snapshot, ids[n], n + 1)};
      assert t.members + MemberRows(snapshot, ids) ==
        (t.members + MemberRows(snapshot, ids[..n])) + {MemberRow(snapshot, ids[n], n + 1)};
    }
  }

  lemma {:induction false} QualityInserted(t: Tables, run: string, quality: seq<QualityWrite>)
    requires InsertAllQuality(t, run, quality).Ok?
    ensures InsertAllQuality(t, run, quality).value == t.(quality := t.quality + QualityRows(run, quality))
    ensures forall id :: id in QualityRows(run, quality) ==> id !in t.quality
  {
    if quality == [] {
      assert t.quality + map[] == t.quality;
    } else {
      var n := |quality| - 1;
      QualityInserted(t, run, quality[..n]);
      var u := InsertAllQuality(t, run, quality[..n]).value;
      QualityStep(u, run, quality[n]);
      hide InsertQuality, RowOf;
      MergeUpdate(t.quality, QualityRows(run, quality[..n]), quality[n].id, RowOf(run, quality[n]));
    }
  }

  lemma QualityStep(t: Tables, run: string, q: QualityWrite)
    requires InsertQuality(t, run, q).Ok?
    ensures InsertQuality(t, run, q).value == t.(quality := t.quality[q.id := RowOf(run, q)])
    ensures q.id !in t.quality && DeclaredOutput(t, run, q.dataset)
    ensures q.artifact.Some? ==> q.artifact.value in t.artifacts && t.artifacts[q.artifact.value].run == run
    ensures q.snapshot.Some? ==> q.snapshot.value in t.snapshots && t.snapshots[q.snapshot.value].run == run
  {
  }

  ghost predicate RegistryMoved(t: Tables, v: Tables, outputs: seq<string>, run: string, identity: string) {
    && v.registry.Keys == t.registry.Keys
    && forall d :: d in t.registry ==>
         v.registry[d] ==
         if d in outputs then Registration(t.registry[d].active, Some(run), Some(identity)) else t.registry[d]
  }

  lemma CheckpointsLast(t: Tables, outputs: seq<string>, run: string, identity: string) returns (u: Tables)
    requires outputs != [] && Checkpoints(t, outputs, run, identity).Ok?
    ensures Checkpoints(t, outputs[..|outputs| - 1], run, identity) == Ok(u)
    ensures Checkpoints(t, outputs, run, identity) == Checkpoint(u, outputs[|outputs| - 1], run, identity)
  {
    hide Checkpoint;
    u := Checkpoints(t, outputs[..|outputs| - 1], run, identity).value;
  }

  lemma CheckpointMoves(t: Tables, u: Tables, front: seq<string>, d: string, run: string, identity: string)
    requires u == t.(registry := u.registry) && RegistryMoved(t, u, front, run, identity)
    requires Checkpoint(u, d, run, identity).Ok?
    ensures var v := Checkpoint(u, d, run, identity).value;
      v == t.(registry := v.registry) && RegistryMoved(t, v, front + [d], run, identity)
  {
  }

  lemma {:induction false} RegistryUpdated(t: Tables, outputs: seq<string>, run: string, identity: string)
    requires Checkpoints(t, outputs, run, identity).Ok?
    ensures var v := Checkpoints(t, outputs, run, identity).value;
      v == t.(registry := v.registry) && RegistryMoved(t, v, outputs, run, identity)
  {
    if outputs != [] {
      hide Checkpoints, Checkpoint, RegistryMoved;
      var n := |outputs| - 1;
      var u := CheckpointsLast(t, outputs, run, identity);
      RegistryUpdated(t, outputs[..n], run, identity);
      CheckpointMoves(t, u, outputs[..n], outputs[n], run, identity);
      assert outputs == outputs[..n] + [outputs[n]];
    }
  }

  // ----- what a committed call adds -----

  /** Exactly one run with its rows; nothing that was there is touched except the
      checkpoints of the declared outputs. */
  ghost predicate Adds(t: Tables, v: Tables, req: Request, result: WriteResult) {
    var outputs := Distinct(req.outputs);
    && result.artifacts != []
    && req.run !in t.runs && req.run !in t.failures && !IdentityTaken(t, req.dataset, req.identity)
    && v.runs == t.runs[req.run := RunRow(req.dataset, req.identity, Succeeded, Some(result.artifacts[0].id),
                                           Some(result.snapshot.id), result.written)]
    && v.outputs == t.outputs + OutputRows(req.run, req.identity, outputs)
    && v.artifacts == t.artifacts + ArtifactRows(req.run, result.artifacts)
    && (forall id :: id in ArtifactIds(result.artifacts) ==> id !in t.artifacts)
    && result.snapshot.id !in t.snapshots
    && v.snapshots == t.snapshots[result.snapshot.id := SnapshotRow(req.run, result.snapshot.dataset, req.identity)]
    && v.members == t.members + MemberRows(result.snapshot.id, result.snapshot.artifactIds)
    && v.quality == t.quality + QualityRows(req.run, result.quality)
    && (forall id :: id in QualityRows(req.run, result.quality) ==> id !in t.quality)
    && v.failures == t.failures
    && RegistryMoved(t, v, outputs, req.run, req.identity)
    && v.domain == result.domain
  }

  /** The artifact, member and quality rows of a committed call, field by field. */
  lemma {:induction false} AddedRowsExactly(t: Tables, v: Tables, req: Request, result: WriteResult)
    requires Adds(t, v, req, result) && EvidenceGood(result, req.outputs) && AllQualityGood(result, req.outputs)
    ensures forall a :: a in result.artifacts ==>
      a.id in v.artifacts && v.artifacts[a.id] == ArtifactRow(req.run, a.dataset)
    ensures forall q :: q in result.quality ==>
      && q.id in v.quality
      && v.quality[q.id] == QualityRow(req.run, q.dataset, q.rule, q.kind, q.subject, q.artifact, q.snapshot)
    ensures forall i :: 0 <= i < |result.snapshot.artifactIds| ==>
      MemberRow(result.snapshot.id, result.snapshot.artifactIds[i], i + 1) in v.members
    ensures forall d :: d in req.outputs ==> OutputRow(req.run, d, req.identity) in v.outputs
  {
    hide Adds, ArtifactRows, QualityRows, MemberRows, Distinct, QualityGood, ArtifactIds;
    AddedMaps(t, v, req, result);
    AllArtifactRows(req.run, result.artifacts);
    AllQualityRows(req.run, result.quality);
  }

  lemma AddedMaps(t: Tables, v: Tables, req: Request, result: WriteResult)
    requires Adds(t, v, req, result)
    ensures v.artifacts == t.artifacts + ArtifactRows(req.run, result.artifacts)
    ensures v.quality == t.quality + QualityRows(req.run, result.quality)
    ensures v.members == t.members + MemberRows(result.snapshot.id, result.snapshot.artifactIds)
    ensures v.outputs == t.outputs + OutputRows(req.run, req.identity, Distinct(req.outputs))
  {
    hide ArtifactRows, QualityRows, MemberRows, OutputRows, Distinct, IdentityTaken, RegistryMoved, ArtifactIds;
  }

  lemma {:induction false} AllArtifactRows(run: string, artifacts: seq<ArtifactWrite>)
    requires forall i, j :: 0 <= i < |artifacts| && 0 <= j < |artifacts| && i != j ==>
      artifacts[i].id != artifacts[j].id
    ensures forall a :: a in artifacts ==>
      a.id in ArtifactRows(run, artifacts) && ArtifactRows(run, artifacts)[a.id] == ArtifactRow(run, a.dataset)
  {
    hide ArtifactRows;
    forall i | 0 <= i < |artifacts|
      ensures artifacts[i].id in ArtifactRows(run, artifacts)
      ensures ArtifactRows(run, artifacts)[artifacts[i].id] == ArtifactRow(run, artifacts[i].dataset)
    {
      ArtifactRowAt(run, artifacts, i);
    }
  }

  lemma {:induction false} AllQualityRows(run: string, quality: seq<QualityWrite>)
    requires forall i, j :: 0 <= i < |quality| && 0 <= j < |quality| && i != j ==> quality[i].id != quality[j].id
    ensures forall q :: q in quality ==>
      && q.id in QualityRows(run, quality)
      && QualityRows(run, quality)[q.id] ==
           QualityRow(run, q.dataset, q.rule, q.kind, q.subject, q.artifact, q.snapshot)
  {
    hide QualityRows;
    forall i | 0 <= i < |quality|
      ensures quality[i].id in QualityRows(run, quality)
      ensures var q := quality[i];
        QualityRows(run, quality)[q.id] ==
          QualityRow(run, q.dataset, q.rule, q.kind, q.subject, q.artifact, q.snapshot)
    {
      QualityRowAt(run, quality, i);
    }
  }

  lemma {:induction false} ArtifactRowAt(run: string, artifacts: seq<ArtifactWrite>, i: nat)
    requires i < |artifacts| && forall j :: 0 <= j < |artifacts| && j != i ==> artifacts[j].id != artifacts[i].id
    ensures artifacts[i].id in ArtifactRows(run, artifacts)
    ensures ArtifactRows(run, artifacts)[artifacts[i].id] == ArtifactRow(run, artifacts[i].dataset)
  {
    var n := |artifacts| - 1;
    if i < n { ArtifactRowAt(run, artifacts[..n], i); }
  }

  lemma {:induction false} QualityRowAt(run: string, quality: seq<QualityWrite>, i: nat)
    requires i < |quality| && forall j :: 0 <= j < |quality| && j != i ==> quality[j].id != quality[i].id
    ensures quality[i].id in QualityRows(run, quality)
    ensures var q := quality[i];
      QualityRows(run, quality)[q.id] ==
        QualityRow(run, q.dataset, q.rule, q.kind, q.subject, q.artifact, q.snapshot)
  {
    var n := |quality| - 1;
    if i < n { QualityRowAt(run, quality[..n], i); }
  }

  lemma {:induction false} ControlRowsWritten(t: Tables, run: string, result: WriteResult)
    requires ControlRows(t, run, result).Ok?
    ensures ControlRows(t, run, result).value == t.(
      artifacts := t.artifacts + ArtifactRows(run, result.artifacts),
      snapshots := t.snapshots[result.snapshot.id :=
                     SnapshotRow(run, result.snapshot.dataset, result.snapshot.identity)],
      members := t.members + MemberRows(result.snapshot.id, result.snapshot.artifactIds),
      quality := t.quality + QualityRows(run, result.quality))
    ensures result.snapshot.id !in t.snapshots
    ensures forall id :: id in ArtifactIds(result.artifacts) ==> id !in t.artifacts
    ensures forall id :: id in QualityRows(run, result.quality) ==> id !in t.quality
  {
    ArtifactsInserted(t, run, result.artifacts);
    var t1 := InsertArtifacts(t, run, result.artifacts).value;
    var t2 := InsertSnapshot(t1, run, result.snapshot).value;
    MembersInserted(t2, result.snapshot.id, result.snapshot.artifactIds);
    var t3 := InsertMembers(t2, result.snapshot.id, result.snapshot.artifactIds).value;
    QualityInserted(t3, run, result.quality);
    hide InsertArtifacts, InsertMembers, InsertAllQuality, ArtifactRows, MemberRows, QualityRows;
    assert forall id :: id in ArtifactIds(result.artifacts) ==> id in ArtifactRows(run, result.artifacts);
  }

  lemma VerdictFacts(result: WriteResult, identity: string, outputs: seq<string>)
    requires Verdict(result, identity, outputs) == None
    ensures result.artifacts != []
    ensures forall i :: 0 <= i < |result.artifacts| ==> ArtifactOk(result.artifacts[i], outputs)
    ensures SnapshotOk(result.snapshot, identity, outputs, ArtifactIds(result.artifacts))
    ensures AllQualityOk(result.quality, outputs, ArtifactIds(result.artifacts), result.snapshot.id)
    ensures result.snapshot.identity == identity
  {
    hide AllQualityOk, DistinctTexts, ArtifactIds;
  }

  /** The working copy just before the running row is marked succeeded. */
  lemma BeforeMarking(t: Tables, req: Request, result: WriteResult) returns (u: Tables)
    requires Opened(t, req).Ok? && Published(Opened(t, req).value, req, Ok(result)).Ok?
    ensures Verdict(result, req.identity, Distinct(req.outputs)) == None
    ensures result.artifacts != [] && result.snapshot.identity == req.identity
    ensures u == t.(
      runs := t.runs[req.run := RunRow(req.dataset, req.identity, Running, None, None, 0)],
      outputs := t.outputs + OutputRows(req.run, req.identity, Distinct(req.outputs)),
      artifacts := t.artifacts + ArtifactRows(req.run, result.artifacts),
      snapshots := t.snapshots[result.snapshot.id := SnapshotRow(req.run, result.snapshot.dataset, req.identity)],
      members := t.members + MemberRows(result.snapshot.id, result.snapshot.artifactIds),
      quality := t.quality + QualityRows(req.run, result.quality),
      domain := result.domain)
    ensures result.snapshot.id !in t.snapshots
    ensures forall id :: id in ArtifactIds(result.artifacts) ==> id !in t.artifacts
    ensures forall id :: id in QualityRows(req.run, result.quality) ==> id !in t.quality
    ensures var marked := MarkSucceeded(u, req.run, result.artifacts[0].id, result.snapshot.id, result.written);
      && marked.Ok?
      && Published(Opened(t, req).value, req, Ok(result)) ==
           Checkpoints(marked.value, Distinct(req.outputs), req.run, req.identity)
  {
    hide InsertOutputs, ControlRows, Checkpoints, OutputRows, ArtifactRows, MemberRows, QualityRows, Distinct,
         DistinctTexts;
    hide AllQualityOk, IdentityTaken, Verdict, SnapshotOk, ArtifactIds, ArtifactOk, OutputsRegistered, MarkSucceeded;
    var outputs := Distinct(req.outputs);
    var t0 := Opened(t, req).value;
    OutputsInserted(t0, req.run, req.identity, outputs);
    var t1 := InsertOutputs(t0, req.run, req.identity, outputs).value;
    VerdictFacts(result, req.identity, outputs);
    ControlRowsWritten(t1.(domain := result.domain), req.run, result);
    u := ControlRows(t1.(domain := result.domain), req.run, result).value;
  }

  /** A committed call adds one run with its rows, and the run's first artifact is one
      of its snapshot's: the control write may say otherwise, but then the lineage
      trigger refuses the run. */
  lemma SuccessAdds(t: Tables, req: Request, result: WriteResult)
    requires Opened(t, req).Ok? && Published(Opened(t, req).value, req, Ok(result)).Ok?
    ensures Adds(t, Published(Opened(t, req).value, req, Ok(result)).value, req, result)
    ensures Verdict(result, req.identity, Distinct(req.outputs)) == None
    ensures var v := Published(Opened(t, req).value, req, Ok(result)).value;
      exists m :: m in v.members && m.snapshot == result.snapshot.id && m.artifact == result.artifacts[0].id
  {
    hide Checkpoints, OutputRows, ArtifactRows, MemberRows, QualityRows, Distinct, DistinctTexts, Published;
    hide IdentityTaken, Verdict, ArtifactIds, OutputsRegistered, RegistryMoved, MarkSucceeded, Opened, Adds;
    OpenedFresh(t, req);
    var outputs := Distinct(req.outputs);
    var u := BeforeMarking(t, req, result);
    MarkedRun(u, req.run, result.artifacts[0].id, result.snapshot.id, result.written);
    var marked := MarkSucceeded(u, req.run, result.artifacts[0].id, result.snapshot.id, result.written).value;
    RegistryUpdated(marked, outputs, req.run, req.identity);
    var v := Checkpoints(marked, outputs, req.run, req.identity).value;
    SameRegistry(t, marked, v, outputs, req.run, req.identity);
    TogetherAdds(t, v, req, result);
  }

  lemma TogetherAdds(t: Tables, v: Tables, req: Request, result: WriteResult)
    requires result.artifacts != []
    requires req.run !in t.runs && req.run !in t.failures && !IdentityTaken(t, req.dataset, req.identity)
    requires forall id :: id in ArtifactIds(result.artifacts) ==> id !in t.artifacts
    requires result.snapshot.id !in t.snapshots
    requires forall id :: id in QualityRows(req.run, result.quality) ==> id !in t.quality
    requires RegistryMoved(t, v, Distinct(req.outputs), req.run, req.identity)
    requires v.runs == t.runs[req.run := RunRow(req.dataset, req.identity, Running, None, None, 0)]
                             [req.run := RunRow(req.dataset, req.identity, Succeeded, Some(result.artifacts[0].id),
                                                Some(result.snapshot.id), result.written)]
    requires v == t.(
      runs := v.runs,
      outputs := t.outputs + OutputRows(req.run, req.identity, Distinct(req.outputs)),
      artifacts := t.artifacts + ArtifactRows(req.run, result.artifacts),
      snapshots := t.snapshots[result.snapshot.id := SnapshotRow(req.run, result.snapshot.dataset, req.identity)],
      members := t.members + MemberRows(result.snapshot.id, result.snapshot.artifactIds),
      quality := t.quality + QualityRows(req.run, result.quality),
      registry := v.registry,
      domain := result.domain)
    ensures Adds(t, v, req, result)
  {
    hide OutputRows, ArtifactRows, MemberRows, QualityRows, Distinct, IdentityTaken, ArtifactIds, RegistryMoved;
  }

  lemma OpenedFresh(t: Tables, req: Request)
    requires Opened(t, req).Ok?
    ensures req.run !in t.runs && req.run !in t.failures && !IdentityTaken(t, req.dataset, req.identity)
  {
    hide IdentityTaken, OutputsRegistered;
  }

  lemma MarkedRun(t: Tables, run: string, artifact: string, snapshot: string, written: int)
    requires run in t.runs && t.runs[run].status == Running
    requires MarkSucceeded(t, run, artifact, snapshot, written).Ok?
    ensures MarkSucceeded(t, run, artifact, snapshot, written).value ==
      t.(runs := t.runs[run := t.runs[run].(status := Succeeded, artifact := Some(artifact), snapshot := Some(snapshot),
                                             written := written)])
    ensures exists m :: m in t.members && m.snapshot == snapshot && m.artifact == artifact
    ensures artifact in t.artifacts && t.artifacts[artifact].run == run
  {
  }

  lemma SameRegistry(t: Tables, t3: Tables, v: Tables, outputs: seq<string>, run: string, identity: string)
    requires t3.registry == t.registry && RegistryMoved(t3, v, outputs, run, identity)
    ensures RegistryMoved(t, v, outputs, run, identity)
  {
  }
}
