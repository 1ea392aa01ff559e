/**
 `IngestionCoordinator.execute` in quant_data/ingestion.py as it works on one store:
 the statements in their order, rollback on any exception, and the failure record.
 */
module IngestionStore {
  import opened Wrappers
  import opened IngestionTables
  import opened IngestionCoordinator
  import opened IngestionRuns
  import opened PublicationConditions

  datatype Receipt =
    | UnchangedReceipt
    | SucceededReceipt(run: string, artifact: string, snapshot: string, written: int)
    | RaisedReceipt(e: Raised)

  /** Places where SQLite itself can fail. */
  datatype Fault = BeginFault | CommitFault | RecordFault

  // ----- a statement that fails ends its loop -----

  lemma {:induction false} OutputsStop(t: Tables, run: string, identity: string, outputs: seq<string>, k: nat)
    requires k <= |outputs| && InsertOutputs(t, run, identity, outputs[..k]).Err?
    ensures InsertOutputs(t, run, identity, outputs) == InsertOutputs(t, run, identity, outputs[..k])
    decreases |outputs| - k
  {
    if k == |outputs| {
      assert outputs[..k] == outputs;
    } else {
      assert outputs[..k + 1][..k] == outputs[..k];
      OutputsStop(t, run, identity, outputs, k + 1);
    }
  }

  lemma {:induction false} ArtifactsStop(t: Tables, run: string, artifacts: seq<ArtifactWrite>, k: nat)
    requires k <= |artifacts| && InsertArtifacts(t, run, artifacts[..k]).Err?
    ensures InsertArtifacts(t, run, artifacts) == InsertArtifacts(t, run, artifacts[..k])
    decreases |artifacts| - k
  {
    if k == |artifacts| {
      assert artifacts[..k] == artifacts;
    } else {
      assert artifacts[..k + 1][..k] == artifacts[..k];
      ArtifactsStop(t, run, artifacts, k + 1);
    }
  }

  lemma {:induction false} MembersStop(t: Tables, snapshot: string, ids: seq<string>, k: nat)
    requires k <= |ids| && InsertMembers(t, snapshot, ids[..k]).Err?
    ensures InsertMembers(t, snapshot, ids) == InsertMembers(t, snapshot, ids[..k])
    decreases |ids| - k
  {
    if k == |ids| {
      assert ids[..k] == ids;
    } else {
      assert ids[..k + 1][..k] == ids[..k];
      MembersStop(t, snapshot, ids, k + 1);
    }
  }

  lemma {:induction false} QualityStop(t: Tables, run: string, quality: seq<QualityWrite>, k: nat)
    requires k <= |quality| && InsertAllQuality(t, run, quality[..k]).Err?
    ensures InsertAllQuality(t, run, quality) == InsertAllQuality(t, run, quality[..k])
    decreases |quality| - k
  {
    if k == |quality| {
      assert quality[..k] == quality;
    } else {
      assert quality[..k + 1][..k] == quality[..k];
      QualityStop(t, run, quality, k + 1);
    }
  }

  lemma {:induction false} CheckpointsStop(t: Tables, outputs: seq<string>, run: string, identity: string, k: nat)
    requires k <= |outputs| && Checkpoints(t, outputs[..k], run, identity).Err?
    ensures Checkpoints(t, outputs, run, identity) == Checkpoints(t, outputs[..k], run, identity)
    decreases |outputs| - k
  {
    if k == |outputs| {
      assert outputs[..k] == outputs;
    } else {
      assert outputs[..k + 1][..k] == outputs[..k];
      CheckpointsStop(t, outputs, run, identity, k + 1);
    }
  }

  class Store {
    var tables: Tables

    constructor (initial: Tables)
      requires Fresh(initial)
      ensures tables == initial && Consistent(tables)
    {
      FreshStart(initial);
      tables := initial;
    }

    /** The rows of `ingestion_run_outputs`. */
    method WriteOutputs(work: Tables, run: string, identity: string, outputs: seq<string>)
      returns (r: Result<Tables, Raised>)
      ensures r == InsertOutputs(work, run, identity, outputs)
    {
      hide InsertOutput, InsertArtifact, InsertMember, InsertQuality, Checkpoint;
      var t := work;
      assert outputs[..0] == [];
      for i := 0 to |outputs|
        invariant InsertOutputs(work, run, identity, outputs[..i]) == Ok(t)
      {
        assert outputs[..i + 1][..i] == outputs[..i];
        var step := InsertOutput(t, run, outputs[i], identity);
        if step.Err? {
          OutputsStop(work, run, identity, outputs, i + 1);
          return step;
        }
        t := step.value;
      }
      assert outputs[..|outputs|] == outputs;
      r := Ok(t);
    }

    /** The artifact loop of `_insert_control_write`. */
    method WriteArtifacts(work: Tables, run: string, artifacts: seq<ArtifactWrite>) returns (r: Result<Tables, Raised>)
      ensures r == InsertArtifacts(work, run, artifacts)
    {
      hide InsertOutput, InsertArtifact, InsertMember, InsertQuality, Checkpoint;
      var t := work;
      assert artifacts[..0] == [];
      for i := 0 to |artifacts|
        invariant InsertArtifacts(work, run, artifacts[..i]) == Ok(t)
      {
        assert artifacts[..i + 1][..i] == artifacts[..i];
        var step := InsertArtifact(t, run, artifacts[i]);
        if step.Err? {
          ArtifactsStop(work, run, artifacts, i + 1);
          return step;
        }
        t := step.value;
      }
      assert artifacts[..|artifacts|] == artifacts;
      r := Ok(t);
    }

    /** The snapshot-artifact loop, ordinals from 1. */
    method WriteMembers(work: Tables, snapshot: string, ids: seq<string>) returns (r: Result<Tables, Raised>)
      ensures r == InsertMembers(work, snapshot, ids)
    {
      hide InsertOutput, InsertArtifact, InsertMember, InsertQuality, Checkpoint;
      var t := work;
      assert ids[..0] == [];
      for i := 0 to |ids|
        invariant InsertMembers(work, snapshot, ids[..i]) == Ok(t)
      {
        assert ids[..i + 1][..i] == ids[..i];
        var step := InsertMember(t, snapshot, ids[i], i + 1);
        if step.Err? {
          MembersStop(work, snapshot, ids, i + 1);
          return step;
        }
        t := step.value;
      }
      assert ids[..|ids|] == ids;
      r := Ok(t);
    }

    /** The quality loop. */
    method WriteQuality(work: Tables, run: string, quality: seq<QualityWrite>) returns (r: Result<Tables, Raised>)
      ensures r == InsertAllQuality(work, run, quality)
    {
      hide InsertOutput, InsertArtifact, InsertMember, InsertQuality, Checkpoint;
      var t := work;
      assert quality[..0] == [];
      for i := 0 to |quality|
        invariant InsertAllQuality(work, run, quality[..i]) == Ok(t)
      {
        assert quality[..i + 1][..i] == quality[..i];
        var step := InsertQuality(t, run, quality[i]);
        if step.Err? {
          QualityStop(work, run, quality, i + 1);
          return step;
        }
        t := step.value;
      }
      assert quality[..|quality|] == quality;
      r := Ok(t);
    }

    /** The registry updates. */
    method WriteCheckpoints(work: Tables, outputs: seq<string>, run: string, identity: string)
      returns (r: Result<Tables, Raised>)
      ensures r == Checkpoints(work, outputs, run, identity)
    {
      hide InsertOutput, InsertArtifact, InsertMember, InsertQuality, Checkpoint;
      var t := work;
      assert outputs[..0] == [];
      for i := 0 to |outputs|
        invariant Checkpoints(work, outputs[..i], run, identity) == Ok(t)
      {
        assert outputs[..i + 1][..i] == outputs[..i];
        var step := Checkpoint(t, outputs[i], run, identity);
        if step.Err? {
          CheckpointsStop(work, outputs, run, identity, i + 1);
          return step;
        }
        t := step.value;
      }
      assert outputs[..|outputs|] == outputs;
      r := Ok(t);
    }

    /** `_insert_control_write`. */
    method InsertControlWrite(work: Tables, run: string, result: WriteResult) returns (r: Result<Tables, Raised>)
      ensures r == ControlRows(work, run, result)
    {
      hide InsertArtifacts, InsertSnapshot, InsertMembers, InsertAllQuality;
      r := WriteArtifacts(work, run, result.artifacts);
      if r.Err? { return; }
      r := InsertSnapshot(r.value, run, result.snapshot);
      if r.Err? { return; }
      r := WriteMembers(r.value, result.snapshot.id, result.snapshot.artifactIds);
      if r.Err? { return; }
      r := WriteQuality(r.value, run, result.quality);
    }

    /** From the running row to the last checkpoint, on the working copy. */
    method Publish(work: Tables, req: Request, writer: Result<WriteResult, Raised>) returns (r: Result<Tables, Raised>)
      ensures r == Published(work, req, writer)
    {
      hide InsertOutputs, Verdict, ControlRows, MarkSucceeded, Checkpoints, Distinct;
      var outputs := Distinct(req.outputs);
      r := WriteOutputs(work, req.run, req.identity, outputs);
      if r.Err? { return; }
      if writer.Err? { return Err(writer.error); }
      var result := writer.value;
      if result.written < 0 { return Err(Invalid); }
      var verdict := ValidateControlWrite(result, req.identity, outputs);
      if verdict.Some? { return Err(verdict.value); }
      VerdictFacts(result, req.identity, outputs);
      r := InsertControlWrite(r.value.(domain := result.domain), req.run, result);
      if r.Err? { return; }
      if result.warnings.Some? { return Err(result.warnings.value); }
      r := MarkSucceeded(r.value, req.run, result.artifacts[0].id, result.snapshot.id, result.written);
      if r.Err? { return; }
      r := WriteCheckpoints(r.value, outputs, req.run, req.identity);
    }

    /** `_record_failed_run`. */
    method RecordFailedRun(req: Request, e: Raised, faults: set<Fault>) returns (r: Raised)
      requires Consistent(tables)
      modifies this
      ensures Consistent(tables)
      ensures RecordFault !in faults && InsertFailure(old(tables), req, e).Ok? ==>
        r == e && Ok(tables) == InsertFailure(old(tables), req, e)
      ensures RecordFault in faults || InsertFailure(old(tables), req, e).Err? ==>
        r == Conflict && tables == old(tables)
    {
      hide Consistent, InsertFailure;
      if RecordFault in faults { return Conflict; }
      var inserted := InsertFailure(tables, req, e);
      if inserted.Err? { return Conflict; }
      FailureKeeps(tables, req, e);
      tables := inserted.value;
      r := e;
    }

    /** The failure a call that raised `e` behind its running row leaves in the store. */
    ghost function FailureOf(req: Request, e: Raised): FailureRow {
      FailureRow(req.dataset, req.identity, Classification(e).0, Classification(e).1)
    }

    /** What a call behind its running row raises: what stopped it, or the failed commit. */
    ghost function Reason(published: Result<Tables, Raised>): Raised {
      if published.Err? then published.error else SqliteError
    }

    /** What a call raises that leaves no trace: before BEGIN, there, or before the running row. */
    ghost function EarlyFault(t: Tables, req: Request, faults: set<Fault>): Raised {
      if !RequestGood(req) then Invalid
      else if BeginFault in faults then SqliteError
      else match Opened(t, req)
        case Err(e) => e
        case Ok(_) => SqliteError
    }

    /** The callback returns a good write that the store accepts. */
    ghost predicate WriterGood(t: Tables, req: Request, writer: Result<WriteResult, Raised>) {
      && writer.Ok? && writer.value.written >= 0 && WriteGood(writer.value, req.identity, req.outputs)
      && StoreAccepts(t, req.run, writer.value)
    }

    /** The callback returns something that the checks refuse. */
    ghost predicate WriterRefused(req: Request, writer: Result<WriteResult, Raised>) {
      writer.Ok? && (writer.value.written < 0 || !WriteGood(writer.value, req.identity, req.outputs))
    }

    lemma WriterDecides(t: Tables, req: Request, writer: Result<WriteResult, Raised>)
      requires Consistent(t) && Opened(t, req).Ok?
      ensures Published(Opened(t, req).value, req, writer).Ok? <==> WriterGood(t, req, writer)
      ensures WriterRefused(req, writer) ==>
        var published := Published(Opened(t, req).value, req, writer);
        && writer.Ok? && published.Err?
        && InsertFailure(t, req, published.error) ==
             Ok(t.(failures := t.failures[req.run := RefusalRow(req, writer.value)]))
      ensures WriterGood(t, req, writer) ==> WriteGood(writer.value, req.identity, req.outputs)
    {
      hide Consistent, Opened, Published, WriteGood, StoreAccepts, InsertFailure, RefusalRow;
      PublishedNeedsWriter(Opened(t, req).value, req, writer);
      if writer.Ok? {
        PublishesExactly(t, req, writer.value);
        RefusalRecorded(t, req, writer.value);
      }
    }

    lemma GoodSucceeds(t: Tables, req: Request, writer: Result<WriteResult, Raised>)
      requires WriterGood(t, req, writer)
      ensures writer.Ok? && writer.value.outcome == SucceededOutcome
    {
      hide EvidenceGood, SnapshotGood, AllQualityGood, StoreAccepts;
    }

    /** `execute`, undisturbed from its first check to its return. `writer` is what the
        callback returns or raises. */
    method Execute(req: Request, writer: Result<WriteResult, Raised>, faults: set<Fault>) returns (r: Receipt)
      requires Consistent(tables)
      modifies this
      ensures Consistent(tables)
      ensures r.UnchangedReceipt? <==> RequestGood(req) && AlreadyPublished(old(tables), req.dataset, req.identity)
      ensures r.UnchangedReceipt? ==> tables == old(tables)
      ensures r.SucceededReceipt? ==>
        && writer.Ok? && writer.value.outcome == SucceededOutcome && Adds(old(tables), tables, req, writer.value)
        && r.run == req.run && r.artifact == writer.value.artifacts[0].id && r.snapshot == writer.value.snapshot.id
        && r.written == writer.value.written
      ensures r.SucceededReceipt? <==>
        && RequestGood(req) && CanOpen(old(tables), req) && BeginFault !in faults && CommitFault !in faults
        && WriterGood(old(tables), req, writer)
      ensures r.RaisedReceipt? && (!RequestGood(req) || BeginFault in faults || !CanOpen(old(tables), req)) ==>
        && tables == old(tables)
        && r.e == EarlyFault(old(tables), req, faults)
      ensures r.RaisedReceipt? && RequestGood(req) && BeginFault !in faults && CanOpen(old(tables), req) ==>
        && Opened(old(tables), req).Ok?
        && if RecordFault in faults then r.e == Conflict && tables == old(tables)
           else r.e == Reason(Published(Opened(old(tables), req).value, req, writer)) &&
                tables == old(tables).(failures := old(tables).failures[req.run := FailureOf(req, r.e)])
      ensures RequestGood(req) && CanOpen(old(tables), req) && BeginFault !in faults && RecordFault !in faults &&
              WriterRefused(req, writer) ==>
        tables == old(tables).(failures := old(tables).failures[req.run := RefusalRow(req, writer.value)])
    {
      hide Consistent, Opened, Published, Adds, AlreadyPublished, RequestOk, RequestGood, CanOpen, WriteGood,
           StoreAccepts, RefusalRow, WriterGood, WriterRefused, InsertFailure;
      RequestExactly(req);
      OpenedExactly(tables, req);
      if !RequestOk(req) { return RaisedReceipt(Invalid); }
      if AlreadyPublished(tables, req.dataset, req.identity) {
        PublishedCannotOpen(tables, req);
        return UnchangedReceipt;
      }
      if BeginFault in faults { return RaisedReceipt(SqliteError); }
      if AlreadyPublished(tables, req.dataset, req.identity) { return UnchangedReceipt; }
      var begun := Opened(tables, req);
      if begun.Err? { return RaisedReceipt(begun.error); }
      var published := Publish(begun.value, req, writer);
      PublishedNeedsWriter(begun.value, req, writer);
      WriterDecides(tables, req, writer);
      if published.Ok? && CommitFault !in faults {
        GoodSucceeds(tables, req, writer);
        SuccessKeeps(tables, req, writer.value);
        SuccessAdds(tables, req, writer.value);
        AddedArtifacts(tables, published.value, req, writer.value);
        tables := published.value;
        return SucceededReceipt(req.run, writer.value.artifacts[0].id, writer.value.snapshot.id, writer.value.written);
      }
      FailureCanBeRecorded(tables, req, Reason(published));
      var e := RecordFailedRun(req, if published.Err? then published.error else SqliteError, faults);
      r := RaisedReceipt(e);
    }
  }

  lemma AddedArtifacts(t: Tables, v: Tables, req: Request, result: WriteResult)
    requires Adds(t, v, req, result)
    ensures result.artifacts != []
  {
  }
}
