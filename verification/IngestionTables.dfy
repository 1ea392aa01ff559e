/**
 The control tables of a store and the statements the ingestion coordinator sends them
 (quant_data/ingestion.py), with the constraints and triggers that can refuse a row
 (quant_data/migrations/macro/0001_foundation.sql and 0003_control_plane.sql).
 */
module IngestionTables {
  import opened Wrappers

  // ----- rows -----

  datatype RunStatus = Running | Succeeded

  datatype RunRow = RunRow(dataset: string, identity: string, status: RunStatus,
                           artifact: Option<string>, snapshot: Option<string>, written: int)

  datatype OutputRow = OutputRow(run: string, dataset: string, identity: string)

  datatype ArtifactRow = ArtifactRow(run: string, dataset: string)

  datatype SnapshotRow = SnapshotRow(run: string, dataset: string, identity: string)

  datatype MemberRow = MemberRow(snapshot: string, artifact: string, ordinal: nat)

  datatype SubjectKind = RunSubject | ArtifactSubject | SnapshotSubject | VersionSubject

  /** `rule` is the rule's id and version. */
  datatype QualityRow = QualityRow(run: string, dataset: string, rule: string, kind: SubjectKind, subject: string,
                                   artifact: Option<string>, snapshot: Option<string>)

  datatype FailureStatus = FailedStatus | RejectedStatus | PartialStatus

  datatype FailureRow = FailureRow(dataset: string, identity: string, status: FailureStatus, code: string)

  datatype Registration = Registration(active: bool, lastRun: Option<string>, lastIdentity: Option<string>)

  /** `domain` stands for the tables the writer callback fills. */
  datatype Tables = Tables(
    runs: map<string, RunRow>,
    outputs: set<OutputRow>,
    artifacts: map<string, ArtifactRow>,
    snapshots: map<string, SnapshotRow>,
    members: set<MemberRow>,
    quality: map<string, QualityRow>,
    failures: map<string, FailureRow>,
    registry: map<string, Registration>,
    domain: int)

  // ----- what the coordinator is given -----

  /** Where SQLite's integers end. */
  const INTEGER_LIMIT: nat := 0x8000_0000_0000_0000

  /** `wellFormed`: digest, times, command and scope have the required form. `binding`, here
      and below: what is raised where a JSON column is encoded or a value bound, if anything
      (a scope beyond the codec's limits, a count of 64 bits); no check looks at it. */
  datatype Request = Request(dataset: string, outputs: seq<string>, identity: string, run: string, wellFormed: bool,
                             binding: Option<Raised>)

  datatype ArtifactWrite = ArtifactWrite(id: string, dataset: string, wellFormed: bool, binding: Option<Raised>)

  datatype ValidationState = ValidatedState | RejectedState | OtherState

  datatype SnapshotWrite = SnapshotWrite(id: string, dataset: string, identity: string, state: ValidationState,
                                         artifactIds: seq<string>, wellFormed: bool, binding: Option<Raised>)

  datatype QualityWrite = QualityWrite(id: string, dataset: string, rule: string, kind: SubjectKind, subject: string,
                                       artifact: Option<string>, snapshot: Option<string>, wellFormed: bool,
                                       binding: Option<Raised>)

  datatype RunOutcome = SucceededOutcome | PartialOutcome | RejectedOutcome | OtherOutcome

  /** `warnings`: what encoding the warnings raises, if anything. */
  datatype WriteResult = WriteResult(written: int, artifacts: seq<ArtifactWrite>, snapshot: SnapshotWrite,
                                     quality: seq<QualityWrite>, outcome: RunOutcome, domain: int,
                                     warnings: Option<Raised>)

  /** The exceptions the coordinator tells apart when it records a failure. */
  datatype Raised = PartialPublication | RejectedPublication | Invalid | Conflict | SqliteError | OtherError

  /** `_failure_classification`. */
  function Classification(e: Raised): (FailureStatus, string) {
    match e
    case PartialPublication => (PartialStatus, "partial_publication")
    case RejectedPublication => (RejectedStatus, "validation_rejected")
    case Invalid => (RejectedStatus, "validation_rejected")
    case Conflict => (FailedStatus, "conflict")
    case SqliteError => (FailedStatus, "storage_error")
    case OtherError => (FailedStatus, "writer_error")
  }

  // ----- statements -----

  predicate IdentityTaken(t: Tables, dataset: string, identity: string) {
    exists r :: r in t.runs && t.runs[r].dataset == dataset && t.runs[r].identity == identity
  }

  /** The replay gate: a succeeded run with this identity. */
  predicate AlreadyPublished(t: Tables, dataset: string, identity: string) {
    exists r :: r in t.runs && t.runs[r].dataset == dataset && t.runs[r].identity == identity
                && t.runs[r].status == Succeeded
  }

  function InsertRun(t: Tables, req: Request): Result<Tables, Raised> {
    if req.binding.Some? then Err(req.binding.value)
    else if req.run in t.runs || req.run in t.failures || IdentityTaken(t, req.dataset, req.identity)
       || req.dataset !in t.registry
    then Err(SqliteError)
    else Ok(t.(runs := t.runs[req.run := RunRow(req.dataset, req.identity, Running, None, None, 0)]))
  }

  function InsertOutput(t: Tables, run: string, dataset: string, identity: string): Result<Tables, Raised> {
    if run !in t.runs || t.runs[run].identity != identity || t.runs[run].status != Running || dataset !in t.registry
       || exists o :: o in t.outputs && o.run == run && o.dataset == dataset
    then Err(SqliteError)
    else Ok(t.(outputs := t.outputs + {OutputRow(run, dataset, identity)}))
  }

  predicate DeclaredOutput(t: Tables, run: string, dataset: string) {
    exists o :: o in t.outputs && o.run == run && o.dataset == dataset
  }

  function InsertArtifact(t: Tables, run: string, a: ArtifactWrite): Result<Tables, Raised> {
    if a.binding.Some? then Err(a.binding.value)
    else if a.id in t.artifacts || !DeclaredOutput(t, run, a.dataset) then Err(SqliteError)
    else Ok(t.(artifacts := t.artifacts[a.id := ArtifactRow(run, a.dataset)]))
  }

  function InsertSnapshot(t: Tables, run: string, s: SnapshotWrite): Result<Tables, Raised> {
    if s.binding.Some? then Err(s.binding.value)
    else if s.id in t.snapshots || OutputRow(run, s.dataset, s.identity) !in t.outputs
       || exists x :: x in t.snapshots &&
            (|| t.snapshots[x].run == run
             || (t.snapshots[x].dataset == s.dataset && t.snapshots[x].identity == s.identity))
    then Err(SqliteError)
    else Ok(t.(snapshots := t.snapshots[s.id := SnapshotRow(run, s.dataset, s.identity)]))
  }

  function InsertMember(t: Tables, snapshot: string, artifact: string, ordinal: nat): Result<Tables, Raised> {
    if snapshot !in t.snapshots || artifact !in t.artifacts || t.snapshots[snapshot].run != t.artifacts[artifact].run
       || ordinal < 1
       || exists m :: m in t.members && m.snapshot == snapshot && (m.artifact == artifact || m.ordinal == ordinal)
    then Err(SqliteError)
    else Ok(t.(members := t.members + {MemberRow(snapshot, artifact, ordinal)}))
  }

  function RowOf(run: string, q: QualityWrite): QualityRow {
    QualityRow(run, q.dataset, q.rule, q.kind, q.subject, q.artifact, q.snapshot)
  }

  predicate SubjectMatches(run: string, q: QualityWrite) {
    match q.kind
    case RunSubject => q.subject == run
    case ArtifactSubject => q.artifact == Some(q.subject)
    case SnapshotSubject => q.snapshot == Some(q.subject)
    case VersionSubject => true
  }

  function InsertQuality(t: Tables, run: string, q: QualityWrite): Result<Tables, Raised> {
    if q.binding.Some? then Err(q.binding.value)
    else if q.id in t.quality || !DeclaredOutput(t, run, q.dataset) || !SubjectMatches(run, q)
       || (q.artifact.Some? && (q.artifact.value !in t.artifacts || t.artifacts[q.artifact.value].run != run))
       || (q.snapshot.Some? && (q.snapshot.value !in t.snapshots || t.snapshots[q.snapshot.value].run != run))
       || exists x :: x in t.quality &&
            t.quality[x].run == run && t.quality[x].dataset == q.dataset && t.quality[x].rule == q.rule
            && t.quality[x].kind == q.kind && t.quality[x].subject == q.subject
    then Err(SqliteError)
    else Ok(t.(quality := t.quality[q.id := RowOf(run, q)]))
  }

  /** `UPDATE ingestion_runs SET status='succeeded' ... WHERE status='running'`, with the
      lineage trigger. No matching row is not an error. */
  function MarkSucceeded(t: Tables, run: string, artifact: string, snapshot: string, written: int)
    : Result<Tables, Raised>
  {
    if written >= INTEGER_LIMIT then Err(OtherError)
    else if run !in t.runs || t.runs[run].status != Running then Ok(t)
    else if artifact !in t.artifacts || t.artifacts[artifact].run != run
       || snapshot !in t.snapshots || t.snapshots[snapshot].run != run
       || !exists m :: m in t.members && m.snapshot == snapshot && m.artifact == artifact
    then Err(SqliteError)
    else
      var row := t.runs[run].(status := Succeeded, artifact := Some(artifact), snapshot := Some(snapshot),
                              written := written);
      Ok(t.(runs := t.runs[run := row]))
  }

  /** `UPDATE dataset_registry SET last_successful_run_id=...`, with its trigger. */
  function Checkpoint(t: Tables, dataset: string, run: string, identity: string): Result<Tables, Raised> {
    if dataset !in t.registry then Ok(t)
    else if run !in t.runs || t.runs[run].identity != identity || t.runs[run].status != Succeeded
       || OutputRow(run, dataset, identity) !in t.outputs
    then Err(SqliteError)
    else
      var row := t.registry[dataset].(lastRun := Some(run), lastIdentity := Some(identity));
      Ok(t.(registry := t.registry[dataset := row]))
  }

  function InsertFailure(t: Tables, req: Request, e: Raised): Result<Tables, Raised> {
    if req.run in t.failures || req.run in t.runs || req.dataset !in t.registry then Err(SqliteError)
    else Ok(t.(failures := t.failures[req.run :=
           FailureRow(req.dataset, req.identity, Classification(e).0, Classification(e).1)]))
  }
}
