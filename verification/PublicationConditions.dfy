/**
 When a control write is published (quant_data/ingestion.py): the checks of the
 coordinator, and the constraints and triggers of the store that refuse a write which
 passed them.
 */
module PublicationConditions {
  import opened Wrappers
  import opened IngestionTables
  import opened IngestionCoordinator
  import opened IngestionRuns

  predicate SameQualityKey(a: QualityWrite, b: QualityWrite) {
    a.dataset == b.dataset && a.rule == b.rule && a.kind == b.kind && a.subject == b.subject
  }

  predicate QualityKeysDistinct(quality: seq<QualityWrite>) {
    forall i, j :: 0 <= i < j < |quality| ==> !SameQualityKey(quality[i], quality[j])
  }

  /** New ids, and columns that can be encoded and bound. */
  predicate ArtifactsAccepted(t: Tables, artifacts: seq<ArtifactWrite>) {
    forall i :: 0 <= i < |artifacts| ==> artifacts[i].binding.None? && artifacts[i].id !in t.artifacts
  }

  predicate SnapshotAccepted(t: Tables, s: SnapshotWrite) {
    && s.binding.None? && s.id !in t.snapshots
    && forall x :: x in t.snapshots ==> t.snapshots[x].dataset != s.dataset || t.snapshots[x].identity != s.identity
  }

  predicate QualityFresh(t: Tables, quality: seq<QualityWrite>) {
    forall i :: 0 <= i < |quality| ==> quality[i].binding.None? && quality[i].id !in t.quality
  }

  predicate RunSubjectsOk(run: string, quality: seq<QualityWrite>) {
    forall i :: 0 <= i < |quality| && quality[i].kind == RunSubject ==> quality[i].subject == run
  }

  predicate QualityAccepted(t: Tables, run: string, quality: seq<QualityWrite>) {
    QualityFresh(t, quality) && RunSubjectsOk(run, quality) && QualityKeysDistinct(quality)
  }

  /** What the store asks of a control write beyond the coordinator's own checks. */
  predicate StoreAccepts(t: Tables, run: string, result: WriteResult) {
    && ArtifactsAccepted(t, result.artifacts) && SnapshotAccepted(t, result.snapshot)
    && QualityAccepted(t, run, result.quality)
    && result.warnings.None? && result.written < INTEGER_LIMIT
    && result.artifacts != [] && result.artifacts[0].id in result.snapshot.artifactIds
  }

  // ----- the working copy of one run -----

  /** The running row and its outputs are in, nothing else of the run is. */
  ghost predicate Ready(t: Tables, run: string, identity: string, outputs: seq<string>) {
    && run in t.runs && t.runs[run].status == Running && t.runs[run].identity == identity
    && (forall d :: d in outputs ==> OutputRow(run, d, identity) in t.outputs)
    && (forall x :: x in t.snapshots ==> t.snapshots[x].run != run)
    && (forall x :: x in t.quality ==> t.quality[x].run != run)
    && (forall m :: m in t.members ==> m.snapshot in t.snapshots)
  }

  lemma {:induction false} OutputsGoIn(t: Tables, run: string, identity: string, outputs: seq<string>)
    requires run in t.runs && t.runs[run].status == Running && t.runs[run].identity == identity
    requires (forall o :: o in t.outputs ==> o.run != run) && DistinctTexts(outputs)
    requires forall d :: d in outputs ==> d in t.registry
    ensures InsertOutputs(t, run, identity, outputs).Ok?
  {
    if outputs != [] {
      var n := |outputs| - 1;
      assert outputs[n] in outputs;
      OutputsGoIn(t, run, identity, outputs[..n]);
      OutputsInserted(t, run, identity, outputs[..n]);
    }
  }

  lemma {:induction false} ArtifactsExactly(t: Tables, run: string, artifacts: seq<ArtifactWrite>)
    requires DistinctTexts(ArtifactIds(artifacts))
    requires forall i :: 0 <= i < |artifacts| ==> DeclaredOutput(t, run, artifacts[i].dataset)
    ensures InsertArtifacts(t, run, artifacts).Ok? <==> ArtifactsAccepted(t, artifacts)
  {
    hide DeclaredOutput, ArtifactRows, ArtifactIds, ArtifactsAccepted, InsertArtifact, DistinctTexts;
    NoArtifacts(t);
    if artifacts != [] {
      var n := |artifacts| - 1;
      FrontArtifacts(artifacts);
      ArtifactsExactly(t, run, artifacts[..n]);
      AcceptedLast(t, artifacts);
      if InsertArtifacts(t, run, artifacts[..n]).Ok? {
        ArtifactsInserted(t, run, artifacts[..n]);
        OneArtifactExactly(t, InsertArtifacts(t, run, artifacts[..n]).value, run, artifacts[..n], artifacts[n]);
      }
    }
  }

  lemma NoArtifacts(t: Tables)
    ensures ArtifactsAccepted(t, [])
  {
  }

  lemma AcceptedLast(t: Tables, artifacts: seq<ArtifactWrite>)
    requires artifacts != []
    ensures var n := |artifacts| - 1;
      ArtifactsAccepted(t, artifacts) <==>
        && ArtifactsAccepted(t, artifacts[..n])
        && artifacts[n].binding.None? && artifacts[n].id !in t.artifacts
  {
    var n := |artifacts| - 1;
    assert artifacts == artifacts[..n] + [artifacts[n]];
    assert forall i :: 0 <= i < n ==> artifacts[..n][i] == artifacts[i];
  }

  lemma {:induction false} OneArtifactExactly(t: Tables, u: Tables, run: string, front: seq<ArtifactWrite>,
                                              a: ArtifactWrite)
    requires u == t.(artifacts := t.artifacts + ArtifactRows(run, front))
    requires DeclaredOutput(t, run, a.dataset) && a.id !in ArtifactIds(front)
    ensures InsertArtifact(u, run, a).Ok? <==> a.binding.None? && a.id !in t.artifacts
  {
    hide ArtifactRows, ArtifactIds;
    SameOutputs(t, u, run, a.dataset);
    hide DeclaredOutput;
  }

  lemma SameOutputs(t: Tables, u: Tables, run: string, dataset: string)
    requires u.outputs == t.outputs
    ensures DeclaredOutput(u, run, dataset) <==> DeclaredOutput(t, run, dataset)
  {
  }

  lemma {:induction false} FrontArtifacts(artifacts: seq<ArtifactWrite>)
    requires artifacts != [] && DistinctTexts(ArtifactIds(artifacts))
    ensures var n := |artifacts| - 1;
      DistinctTexts(ArtifactIds(artifacts[..n])) && artifacts[n].id !in ArtifactIds(artifacts[..n])
  {
    var n := |artifacts| - 1;
    assert ArtifactIds(artifacts)[..n] == ArtifactIds(artifacts[..n]);
  }

  lemma SnapshotExactly(t: Tables, run: string, identity: string, outputs: seq<string>, s: SnapshotWrite)
    requires Ready(t, run, identity, outputs) && s.dataset in outputs && s.identity == identity
    ensures InsertSnapshot(t, run, s).Ok? <==> SnapshotAccepted(t, s)
  {
  }

  lemma {:induction false} MembersGoIn(t: Tables, snapshot: string, ids: seq<string>)
    requires snapshot in t.snapshots && DistinctTexts(ids)
    requires forall m :: m in t.members ==> m.snapshot != snapshot
    requires forall id :: id in ids ==> id in t.artifacts && t.artifacts[id].run == t.snapshots[snapshot].run
    ensures InsertMembers(t, snapshot, ids).Ok?
  {
    if ids != [] {
      var n := |ids| - 1;
      assert ids[n] in ids;
      MembersGoIn(t, snapshot, ids[..n]);
      MembersInserted(t, snapshot, ids[..n]);
    }
  }

  /** The rows a quality result refers to are there, and are the run's. */
  predicate RefersInside(t: Tables, run: string, q: QualityWrite) {
    && DeclaredOutput(t, run, q.dataset)
    && (q.artifact.Some? ==> q.artifact.value in t.artifacts && t.artifacts[q.artifact.value].run == run)
    && (q.snapshot.Some? ==> q.snapshot.value in t.snapshots && t.snapshots[q.snapshot.value].run == run)
    && (q.kind == ArtifactSubject ==> q.artifact == Some(q.subject))
    && (q.kind == SnapshotSubject ==> q.snapshot == Some(q.subject))
  }

  predicate KeyStored(t: Tables, run: string, q: QualityWrite) {
    exists x :: x in t.quality &&
      t.quality[x].run == run && t.quality[x].dataset == q.dataset && t.quality[x].rule == q.rule
      && t.quality[x].kind == q.kind && t.quality[x].subject == q.subject
  }

  lemma OneQualityExactly(t: Tables, run: string, q: QualityWrite)
    requires RefersInside(t, run, q)
    ensures InsertQuality(t, run, q).Ok? <==>
      q.binding.None? && q.id !in t.quality && (q.kind == RunSubject ==> q.subject == run) && !KeyStored(t, run, q)
  {
    hide DeclaredOutput;
  }

  lemma {:induction false} QualityExactly(t: Tables, run: string, quality: seq<QualityWrite>)
    requires forall i :: 0 <= i < |quality| ==> RefersInside(t, run, quality[i])
    requires forall i, j :: 0 <= i < j < |quality| ==> quality[i].id != quality[j].id
    requires forall x :: x in t.quality ==> t.quality[x].run != run
    ensures InsertAllQuality(t, run, quality).Ok? <==> QualityAccepted(t, run, quality)
  {
    hide InsertQuality, RefersInside, QualityRows, KeyStored, QualityAccepted;
    NoneAccepted(t, run);
    if quality != [] {
      var n := |quality| - 1;
      QualityExactly(t, run, quality[..n]);
      AcceptedSnoc(t, run, quality);
      if InsertAllQuality(t, run, quality[..n]).Ok? {
        QualityInserted(t, run, quality[..n]);
        var u := InsertAllQuality(t, run, quality[..n]).value;
        StillInside(t, u, run, quality[n]);
        OneQualityExactly(u, run, quality[n]);
        LastKeyStored(t, u, run, quality);
      }
    }
  }

  lemma NoneAccepted(t: Tables, run: string)
    ensures QualityAccepted(t, run, [])
  {
  }

  lemma StillInside(t: Tables, u: Tables, run: string, q: QualityWrite)
    requires u == t.(quality := u.quality) && RefersInside(t, run, q)
    ensures RefersInside(u, run, q)
  {
  }

  lemma AcceptedSnoc(t: Tables, run: string, quality: seq<QualityWrite>)
    requires quality != []
    ensures var n := |quality| - 1;
      QualityAccepted(t, run, quality) <==>
        && QualityAccepted(t, run, quality[..n]) && quality[n].binding.None? && quality[n].id !in t.quality
        && (quality[n].kind == RunSubject ==> quality[n].subject == run)
        && !KeyAmong(quality[..n], quality[n])
  {
    hide SameQualityKey;
    var n := |quality| - 1;
    assert quality == quality[..n] + [quality[n]];
    assert forall i :: 0 <= i < n ==> quality[..n][i] == quality[i];
  }

  predicate KeyAmong(quality: seq<QualityWrite>, q: QualityWrite) {
    exists i :: 0 <= i < |quality| && SameQualityKey(quality[i], q)
  }

  /** The rows of the earlier results are the only ones of the run. */
  lemma LastKeyStored(t: Tables, u: Tables, run: string, quality: seq<QualityWrite>)
    requires quality != [] && forall i, j :: 0 <= i < j < |quality| ==> quality[i].id != quality[j].id
    requires forall x :: x in t.quality ==> t.quality[x].run != run
    requires u.quality == t.quality + QualityRows(run, quality[..|quality| - 1])
    ensures var n := |quality| - 1;
      && (quality[n].id in u.quality <==> quality[n].id in t.quality)
      && (KeyStored(u, run, quality[n]) <==> KeyAmong(quality[..n], quality[n]))
  {
    hide QualityRows, KeyStored, KeyAmong, RowOf;
    var n := |quality| - 1;
    RowOfEach(run, quality[..n]);
    if KeyStored(u, run, quality[n]) { StoredIsAmong(t, u, run, quality[..n], quality[n]); }
    if KeyAmong(quality[..n], quality[n]) { AmongIsStored(u, run, quality[..n], quality[n]); }
  }

  lemma {:induction false} StoredIsAmong(t: Tables, u: Tables, run: string, front: seq<QualityWrite>, q: QualityWrite)
    requires forall i, j :: 0 <= i < j < |front| ==> front[i].id != front[j].id
    requires forall x :: x in t.quality ==> t.quality[x].run != run
    requires u.quality == t.quality + QualityRows(run, front) && KeyStored(u, run, q)
    ensures KeyAmong(front, q)
  {
    hide QualityRows, SameQualityKey, RowOf;
    RowOfEach(run, front);
    var x :| x in u.quality && u.quality[x].run == run && u.quality[x].dataset == q.dataset
      && u.quality[x].rule == q.rule && u.quality[x].kind == q.kind && u.quality[x].subject == q.subject;
    assert x in QualityRows(run, front);
    var i :| 0 <= i < |front| && front[i].id == x && QualityRows(run, front)[x] == RowOf(run, front[i]);
    SameKeySameRow(run, front[i], q);
  }

  lemma {:induction false} AmongIsStored(u: Tables, run: string, front: seq<QualityWrite>, q: QualityWrite)
    requires forall i, j :: 0 <= i < j < |front| ==> front[i].id != front[j].id
    requires forall x :: x in QualityRows(run, front) ==> x in u.quality && u.quality[x] == QualityRows(run, front)[x]
    requires KeyAmong(front, q)
    ensures KeyStored(u, run, q)
  {
    hide QualityRows, SameQualityKey, RowOf;
    RowOfEach(run, front);
    var i :| 0 <= i < |front| && SameQualityKey(front[i], q);
    SameKeySameRow(run, front[i], q);
    assert front[i].id in u.quality;
  }

  lemma SameKeySameRow(run: string, a: QualityWrite, b: QualityWrite)
    ensures SameQualityKey(a, b) <==>
      var r := RowOf(run, a);
      r.run == run && r.dataset == b.dataset && r.rule == b.rule && r.kind == b.kind && r.subject == b.subject
  {
  }

  lemma {:induction false} RowOfEach(run: string, quality: seq<QualityWrite>)
    requires forall i, j :: 0 <= i < j < |quality| ==> quality[i].id != quality[j].id
    ensures forall i :: 0 <= i < |quality| ==>
      quality[i].id in QualityRows(run, quality) && QualityRows(run, quality)[quality[i].id] == RowOf(run, quality[i])
    ensures forall id :: id in QualityRows(run, quality) ==>
      exists i :: 0 <= i < |quality| && quality[i].id == id && QualityRows(run, quality)[id] == RowOf(run, quality[i])
  {
    hide RowOf;
    if quality != [] {
      var n := |quality| - 1;
      RowOfEach(run, quality[..n]);
      forall i | 0 <= i < |quality|
        ensures quality[i].id in QualityRows(run, quality)
        ensures QualityRows(run, quality)[quality[i].id] == RowOf(run, quality[i])
      {
        if i < n { assert quality[..n][i] == quality[i]; }
      }
      forall id | id in QualityRows(run, quality)
        ensures exists i :: 0 <= i < |quality| && quality[i].id == id
                            && QualityRows(run, quality)[id] == RowOf(run, quality[i])
      {
        if id != quality[n].id {
          assert id in QualityRows(run, quality[..n]);
          var i :| 0 <= i < n && quality[..n][i].id == id
            && QualityRows(run, quality[..n])[id] == RowOf(run, quality[..n][i]);
          assert quality[i].id == id;
        }
      }
    }
  }

  lemma {:induction false} CheckpointsGoIn(t: Tables, outputs: seq<string>, run: string, identity: string)
    requires run in t.runs && t.runs[run].status == Succeeded && t.runs[run].identity == identity
    requires forall d :: d in outputs ==> OutputRow(run, d, identity) in t.outputs
    ensures Checkpoints(t, outputs, run, identity).Ok?
  {
    if outputs != [] {
      var n := |outputs| - 1;
      assert outputs[n] in outputs;
      CheckpointsGoIn(t, outputs[..n], run, identity);
      RegistryUpdated(t, outputs[..n], run, identity);
    }
  }

  // ----- the whole publication -----

  lemma OpenedReady(t: Tables, req: Request, domain: int) returns (u: Tables)
    requires Consistent(t) && Opened(t, req).Ok?
    ensures var outputs, started := Distinct(req.outputs), Opened(t, req).value;
      && InsertOutputs(started, req.run, req.identity, outputs).Ok?
      && u == InsertOutputs(started, req.run, req.identity, outputs).value.(domain := domain)
    ensures Ready(u, req.run, req.identity, Distinct(req.outputs))
    ensures u.artifacts == t.artifacts && u.snapshots == t.snapshots && u.quality == t.quality && u.members == t.members
  {
    hide Consistent, Distinct, OutputRows;
    OpenedFacts(t, req);
    var outputs, started := Distinct(req.outputs), Opened(t, req).value;
    OutputsGoIn(started, req.run, req.identity, outputs);
    OutputsInserted(started, req.run, req.identity, outputs);
    u := InsertOutputs(started, req.run, req.identity, outputs).value.(domain := domain);
  }

  lemma OpenedFacts(t: Tables, req: Request)
    requires Consistent(t) && Opened(t, req).Ok?
    ensures var started := Opened(t, req).value;
      && req.run in started.runs && started.runs[req.run].status == Running
      && started.runs[req.run].identity == req.identity
      && started == t.(runs := started.runs)
    ensures forall o :: o in t.outputs ==> o.run != req.run
    ensures forall x :: x in t.snapshots ==> t.snapshots[x].run != req.run
    ensures forall x :: x in t.quality ==> t.quality[x].run != req.run
    ensures forall m :: m in t.members ==> m.snapshot in t.snapshots
    ensures forall d :: d in Distinct(req.outputs) ==> d in t.registry
    ensures DistinctTexts(Distinct(req.outputs))
  {
    hide RunsFinished, OnePerIdentity, CheckpointsOk, Numbered, LineagesOk, QualityInsideRuns, IdentityTaken, Distinct;
  }

  lemma ControlExactly(t: Tables, run: string, identity: string, outputs: seq<string>, result: WriteResult)
    requires Ready(t, run, identity, outputs) && Verdict(result, identity, outputs) == None
    ensures ControlRows(t, run, result).Ok? <==>
      && ArtifactsAccepted(t, result.artifacts) && SnapshotAccepted(t, result.snapshot)
      && QualityAccepted(t, run, result.quality)
  {
    hide InsertArtifacts, InsertSnapshot, InsertMembers, InsertAllQuality, ArtifactRows, ArtifactIds, Verdict,
         QualityAccepted,
         ArtifactsAccepted, SnapshotAccepted, DeclaredOutput, MemberRows, QualityOk, Ready;
    VerdictFacts(result, identity, outputs);
    DistinctArtifacts(result, identity, outputs);
    DeclaredAll(t, run, identity, outputs, result.artifacts);
    ArtifactsExactly(t, run, result.artifacts);
    if InsertArtifacts(t, run, result.artifacts).Ok? {
      ArtifactsInserted(t, run, result.artifacts);
      var u := InsertArtifacts(t, run, result.artifacts).value;
      ReadyStays(t, u, run, identity, outputs);
      SnapshotExactly(u, run, identity, outputs, result.snapshot);
      SnapshotSame(t, u, result.snapshot);
      if InsertSnapshot(u, run, result.snapshot).Ok? {
        RestExactly(t, u, run, identity, outputs, result);
      }
    }
  }

  lemma DistinctArtifacts(result: WriteResult, identity: string, outputs: seq<string>)
    requires Verdict(result, identity, outputs) == None
    ensures DistinctTexts(ArtifactIds(result.artifacts))
  {
    hide DistinctTexts, ArtifactIds, SnapshotOk, AllQualityOk;
  }

  lemma DeclaredAll(t: Tables, run: string, identity: string, outputs: seq<string>, artifacts: seq<ArtifactWrite>)
    requires Ready(t, run, identity, outputs)
    requires forall i :: 0 <= i < |artifacts| ==> ArtifactOk(artifacts[i], outputs)
    ensures forall i :: 0 <= i < |artifacts| ==> DeclaredOutput(t, run, artifacts[i].dataset)
  {
    forall i | 0 <= i < |artifacts| ensures DeclaredOutput(t, run, artifacts[i].dataset) {
      assert OutputRow(run, artifacts[i].dataset, identity) in t.outputs;
    }
  }

  lemma ReadyStays(t: Tables, u: Tables, run: string, identity: string, outputs: seq<string>)
    requires Ready(t, run, identity, outputs) && u == t.(artifacts := u.artifacts)
    ensures Ready(u, run, identity, outputs)
  {
  }

  lemma SnapshotSame(t: Tables, u: Tables, s: SnapshotWrite)
    requires u.snapshots == t.snapshots
    ensures SnapshotAccepted(u, s) <==> SnapshotAccepted(t, s)
  {
  }

  /** Behind the snapshot row: its members always go in, the quality results on their
      own conditions. */
  lemma {:induction false} RestExactly(t: Tables, u: Tables, run: string, identity: string, outputs: seq<string>,
                                       result: WriteResult)
    requires Ready(t, run, identity, outputs) && Verdict(result, identity, outputs) == None
    requires u == t.(artifacts := t.artifacts + ArtifactRows(run, result.artifacts))
    requires InsertSnapshot(u, run, result.snapshot).Ok?
    ensures var v := InsertSnapshot(u, run, result.snapshot).value;
      var w := InsertMembers(v, result.snapshot.id, result.snapshot.artifactIds);
      w.Ok? && (InsertAllQuality(w.value, run, result.quality).Ok? <==> QualityAccepted(t, run, result.quality))
  {
    hide InsertMembers, InsertAllQuality, ArtifactRows, ArtifactIds, Verdict, QualityAccepted, DeclaredOutput,
         MemberRows, QualityOk;
    VerdictFacts(result, identity, outputs);
    var v := InsertSnapshot(u, run, result.snapshot).value;
    forall id | id in result.snapshot.artifactIds ensures id in v.artifacts && v.artifacts[id].run == run {
      assert id in ArtifactRows(run, result.artifacts);
    }
    MembersGoIn(v, result.snapshot.id, result.snapshot.artifactIds);
    MembersInserted(v, result.snapshot.id, result.snapshot.artifactIds);
    var w := InsertMembers(v, result.snapshot.id, result.snapshot.artifactIds).value;
    forall i | 0 <= i < |result.quality| ensures RefersInside(w, run, result.quality[i]) {
      RefersToOwn(t, w, run, identity, outputs, result, result.quality[i]);
    }
    QualityExactly(w, run, result.quality);
    AcceptedSame(t, w, run, result.quality);
  }

  lemma {:induction false} RefersToOwn(t: Tables, w: Tables, run: string, identity: string, outputs: seq<string>,
                                       result: WriteResult, q: QualityWrite)
    requires Ready(t, run, identity, outputs) && w.outputs == t.outputs
    requires w.artifacts == t.artifacts + ArtifactRows(run, result.artifacts)
    requires result.snapshot.id in w.snapshots && w.snapshots[result.snapshot.id].run == run
    requires QualityOk(q, outputs, ArtifactIds(result.artifacts), result.snapshot.id)
    ensures RefersInside(w, run, q)
  {
    hide ArtifactRows, ArtifactIds;
    assert OutputRow(run, q.dataset, identity) in w.outputs;
    if q.artifact.Some? { assert q.artifact.value in ArtifactRows(run, result.artifacts); }
  }

  lemma AcceptedSame(t: Tables, w: Tables, run: string, quality: seq<QualityWrite>)
    requires w.quality == t.quality
    ensures QualityAccepted(w, run, quality) <==> QualityAccepted(t, run, quality)
  {
  }

  /** Behind the control rows only the first artifact's membership can be missing. */
  lemma {:induction false} MarkExactly(t: Tables, run: string, identity: string, outputs: seq<string>,
                                       result: WriteResult)
    requires Ready(t, run, identity, outputs) && Verdict(result, identity, outputs) == None
    requires ControlRows(t, run, result).Ok?
    ensures result.artifacts != []
    ensures var u := ControlRows(t, run, result).value;
      var marked := MarkSucceeded(u, run, result.artifacts[0].id, result.snapshot.id, result.written);
      && (marked.Ok? <==> result.written < INTEGER_LIMIT && result.artifacts[0].id in result.snapshot.artifactIds)
      && (marked.Ok? ==> Checkpoints(marked.value, outputs, run, identity).Ok?)
  {
    hide ControlRows, ArtifactRows, ArtifactIds, Verdict, MemberRows, QualityRows, Checkpoints, MarkSucceeded,
         AllQualityOk, SnapshotOk;
    VerdictFacts(result, identity, outputs);
    ControlRowsWritten(t, run, result);
    var u := ControlRows(t, run, result).value;
    var first := result.artifacts[0].id;
    assert ArtifactIds(result.artifacts)[0] == first && first in ArtifactRows(run, result.artifacts);
    MembersOfNew(t, u, result.snapshot.id, result.snapshot.artifactIds, first);
    MarkedWhen(u, run, first, result.snapshot.id, result.written);
    var marked := MarkSucceeded(u, run, first, result.snapshot.id, result.written);
    if marked.Ok? { CheckpointsGoIn(marked.value, outputs, run, identity); }
  }

  lemma MembersOfNew(t: Tables, u: Tables, snapshot: string, ids: seq<string>, artifact: string)
    requires u.members == t.members + MemberRows(snapshot, ids)
    requires forall m :: m in t.members ==> m.snapshot != snapshot
    ensures (exists m :: m in u.members && m.snapshot == snapshot && m.artifact == artifact) <==> artifact in ids
  {
    if artifact in ids {
      var i :| 0 <= i < |ids| && ids[i] == artifact;
      assert MemberRow(snapshot, artifact, i + 1) in u.members;
    }
  }

  lemma MarkedWhen(t: Tables, run: string, artifact: string, snapshot: string, written: int)
    requires run in t.runs && t.runs[run].status == Running
    requires artifact in t.artifacts && t.artifacts[artifact].run == run
    requires snapshot in t.snapshots && t.snapshots[snapshot].run == run
    ensures var marked := MarkSucceeded(t, run, artifact, snapshot, written);
      && (marked.Ok? <==>
            written < INTEGER_LIMIT && exists m :: m in t.members && m.snapshot == snapshot && m.artifact == artifact)
      && (marked.Ok? ==> marked.value.outputs == t.outputs && run in marked.value.runs
                         && marked.value.runs[run].status == Succeeded
                         && marked.value.runs[run].identity == t.runs[run].identity)
  {
  }

  lemma {:induction false} PublishedSteps(started: Tables, req: Request, result: WriteResult, u: Tables)
    requires var outputs := Distinct(req.outputs);
      && InsertOutputs(started, req.run, req.identity, outputs).Ok?
      && u == InsertOutputs(started, req.run, req.identity, outputs).value.(domain := result.domain)
    ensures var outputs := Distinct(req.outputs);
      Published(started, req, Ok(result)).Ok? <==>
        && result.written >= 0 && Verdict(result, req.identity, outputs) == None
        && result.artifacts != []
        && ControlRows(u, req.run, result).Ok? && result.warnings.None?
        && var marked := MarkSucceeded(ControlRows(u, req.run, result).value, req.run, result.artifacts[0].id,
                                       result.snapshot.id, result.written);
           marked.Ok? && Checkpoints(marked.value, outputs, req.run, req.identity).Ok?
  {
    hide InsertOutputs, Verdict, ControlRows, MarkSucceeded, Checkpoints, Distinct;
    if Verdict(result, req.identity, Distinct(req.outputs)) == None {
      VerdictFacts(result, req.identity, Distinct(req.outputs));
    }
  }

  /** Once the running row is in, a write is published exactly when it is a good one and
      the store accepts it. */
  lemma PublishesExactly(t: Tables, req: Request, result: WriteResult)
    requires Consistent(t) && Opened(t, req).Ok?
    ensures Published(Opened(t, req).value, req, Ok(result)).Ok? <==>
      && result.written >= 0 && WriteGood(result, req.identity, req.outputs)
      && StoreAccepts(t, req.run, result)
  {
    hide *;
    CheckedIsGood(req, result);
    PublishesWhenChecked(t, req, result);
  }

  lemma CheckedIsGood(req: Request, result: WriteResult)
    ensures Verdict(result, req.identity, Distinct(req.outputs)) == None <==>
      WriteGood(result, req.identity, req.outputs)
    ensures EvidenceGood(result, Distinct(req.outputs)) <==> EvidenceGood(result, req.outputs)
  {
    hide Verdict, WriteGood, EvidenceGood, Distinct;
    VerdictExactly(result, req.identity, Distinct(req.outputs));
    GoodForSameOutputs(result, req.identity, Distinct(req.outputs), req.outputs);
  }

  /** A statement fails with what encoding or binding its values raises, or with SQLite's own
      error: a broken key, reference or trigger. */
  lemma StatementsFail(t: Tables, req: Request, run: string, dataset: string, identity: string, a: ArtifactWrite,
                       s: SnapshotWrite, ordinal: nat, q: QualityWrite, written: int)
    ensures InsertRun(t, req).Err? ==>
      InsertRun(t, req).error == if req.binding.Some? then req.binding.value else SqliteError
    ensures InsertOutput(t, run, dataset, identity).Err? ==>
      InsertOutput(t, run, dataset, identity).error == SqliteError
    ensures InsertArtifact(t, run, a).Err? ==>
      InsertArtifact(t, run, a).error == if a.binding.Some? then a.binding.value else SqliteError
    ensures InsertSnapshot(t, run, s).Err? ==>
      InsertSnapshot(t, run, s).error == if s.binding.Some? then s.binding.value else SqliteError
    ensures InsertMember(t, s.id, a.id, ordinal).Err? ==> InsertMember(t, s.id, a.id, ordinal).error == SqliteError
    ensures InsertQuality(t, run, q).Err? ==>
      InsertQuality(t, run, q).error == if q.binding.Some? then q.binding.value else SqliteError
    ensures MarkSucceeded(t, run, a.id, s.id, written).Err? ==>
      MarkSucceeded(t, run, a.id, s.id, written).error == if written >= INTEGER_LIMIT then OtherError else SqliteError
    ensures Checkpoint(t, dataset, run, identity).Err? ==> Checkpoint(t, dataset, run, identity).error == SqliteError
  {
    hide DeclaredOutput, IdentityTaken, SubjectMatches;
  }

  /** A row that has succeeded is never marked again, nor is one that is not there. */
  lemma OnlyRunningIsMarked(t: Tables, run: string, artifact: string, snapshot: string, written: int)
    requires run !in t.runs || t.runs[run].status == Succeeded
    ensures written < INTEGER_LIMIT ==> MarkSucceeded(t, run, artifact, snapshot, written) == Ok(t)
  {
  }

  /** Status and code of a recorded failure tell which exception it was, up to the two that
      reject a write. */
  lemma RecordedKinds(e: Raised)
    ensures var (status, code) := Classification(e);
      && (status == PartialStatus <==> e == PartialPublication)
      && (code == "partial_publication" <==> e == PartialPublication)
      && (status == RejectedStatus <==> e in {RejectedPublication, Invalid})
      && (code == "validation_rejected" <==> e in {RejectedPublication, Invalid})
      && (code == "conflict" <==> e == Conflict) && (code == "storage_error" <==> e == SqliteError)
      && (code == "writer_error" <==> e == OtherError)
  {
  }

  /** The row of a refused write: partial runs with good evidence have a status of their
      own, and everything else is rejected. */
  function RefusalRow(req: Request, result: WriteResult): FailureRow {
    if result.written >= 0 && EvidenceGood(result, req.outputs) && result.outcome.PartialOutcome?
    then FailureRow(req.dataset, req.identity, PartialStatus, "partial_publication")
    else FailureRow(req.dataset, req.identity, RejectedStatus, "validation_rejected")
  }

  /** Whatever the checks raise is raised behind the running row, and recorded. */
  lemma RefusalRecorded(t: Tables, req: Request, result: WriteResult)
    requires Consistent(t) && Opened(t, req).Ok?
    ensures result.written < 0 || !WriteGood(result, req.identity, req.outputs) ==>
      var published := Published(Opened(t, req).value, req, Ok(result));
      && published.Err?
      && InsertFailure(t, req, published.error) ==
           Ok(t.(failures := t.failures[req.run := RefusalRow(req, result)]))
  {
    hide Opened, Published, Consistent, Verdict, Distinct, WriteGood, EvidenceGood, InsertFailure;
    CheckedIsGood(req, result);
    VerdictExactly(result, req.identity, Distinct(req.outputs));
    if result.written < 0 || Verdict(result, req.identity, Distinct(req.outputs)).Some? {
      RaisedByChecks(t, req, result);
      FailureCanBeRecorded(t, req, Published(Opened(t, req).value, req, Ok(result)).error);
    }
  }

  lemma RaisedByChecks(t: Tables, req: Request, result: WriteResult)
    requires Consistent(t) && Opened(t, req).Ok?
    requires result.written < 0 || Verdict(result, req.identity, Distinct(req.outputs)).Some?
    ensures Published(Opened(t, req).value, req, Ok(result)) ==
      Err(if result.written < 0 then Invalid else Verdict(result, req.identity, Distinct(req.outputs)).value)
  {
    hide Opened, Consistent, InsertOutputs, Verdict, ControlRows, MarkSucceeded, Checkpoints, Distinct;
    var u := OpenedReady(t, req, result.domain);
  }

  lemma FailureCanBeRecorded(t: Tables, req: Request, e: Raised)
    requires Opened(t, req).Ok?
    ensures req.run !in t.runs && req.run !in t.failures
    ensures InsertFailure(t, req, e) == Ok(t.(failures := t.failures[req.run :=
      FailureRow(req.dataset, req.identity, Classification(e).0, Classification(e).1)]))
  {
  }

  /** The row that a call records for a write that is not published. */
  function Refused(t: Tables, req: Request, result: WriteResult): Option<FailureRow>
    requires Opened(t, req).Ok?
  {
    match Published(Opened(t, req).value, req, Ok(result))
    case Ok(_) => None
    case Err(e) =>
      match InsertFailure(t, req, e)
      case Ok(u) => Some(u.failures[req.run])
      case Err(_) => None
  }

  lemma PublishesWhenChecked(t: Tables, req: Request, result: WriteResult)
    requires Consistent(t) && Opened(t, req).Ok?
    ensures Published(Opened(t, req).value, req, Ok(result)).Ok? <==>
      && result.written >= 0 && Verdict(result, req.identity, Distinct(req.outputs)) == None
      && StoreAccepts(t, req.run, result)
  {
    hide Consistent, Opened, Published, Verdict, Distinct, InsertOutputs, ControlRows, MarkSucceeded, Checkpoints,
         Ready,
         QualityAccepted, QualityFresh, RunSubjectsOk, QualityKeysDistinct;
    var outputs := Distinct(req.outputs);
    var u := OpenedReady(t, req, result.domain);
    PublishedSteps(Opened(t, req).value, req, result, u);
    if Verdict(result, req.identity, outputs) == None {
      ControlExactly(u, req.run, req.identity, outputs, result);
      AcceptedSame(t, u, req.run, result.quality);
      if ControlRows(u, req.run, result).Ok? { MarkExactly(u, req.run, req.identity, outputs, result); }
    }
  }

  // ----- checked writes that are refused -----

  /** A write with two artifacts, of which the snapshot holds `members`. */
  function SampleWrite(req: Request, members: seq<string>, quality: seq<QualityWrite>): WriteResult {
    WriteResult(1, [ArtifactWrite("a", req.dataset, true, None), ArtifactWrite("b", req.dataset, true, None)],
                SnapshotWrite("s", req.dataset, req.identity, ValidatedState, members, true, None), quality,
                SucceededOutcome, 0, None)
  }

  /** The good write, with a request scope that the codec refuses. */
  function ScopeWrite(req: Request): WriteResult {
    var good := SampleWrite(req, ["a"], []);
    good.(artifacts := [good.artifacts[0], good.artifacts[1].(binding := Some(OtherError))])
  }

  /** The good write, with a count that SQLite cannot hold. */
  function CountWrite(req: Request): WriteResult {
    SampleWrite(req, ["a"], []).(written := INTEGER_LIMIT)
  }

  function SampleQuality(req: Request, id: string, subject: string): QualityWrite {
    QualityWrite(id, req.dataset, "rule", RunSubject, subject, None, None, true, None)
  }

  lemma SampleChecked(req: Request, members: seq<string>, quality: seq<QualityWrite>)
    requires members == ["a"] || members == ["b"]
    requires forall i :: 0 <= i < |quality| ==>
      && quality[i].id != "" && quality[i].subject != ""
      && quality[i] == SampleQuality(req, quality[i].id, quality[i].subject)
    requires forall i, j :: 0 <= i < j < |quality| ==> quality[i].id != quality[j].id
    ensures Verdict(SampleWrite(req, members, quality), req.identity, [req.dataset]) == None
    ensures SampleWrite(req, members, quality).written >= 0
  {
    var w := SampleWrite(req, members, quality);
    var ids := ArtifactIds(w.artifacts);
    assert ids == ["a", "b"];
    assert members[0] in ids;
    assert SnapshotOk(w.snapshot, req.identity, [req.dataset], ids);
    assert AllQualityOk(quality, [req.dataset], ids, "s");
  }

  lemma OthersChecked(req: Request)
    ensures Verdict(ScopeWrite(req), req.identity, [req.dataset]) == None
    ensures Verdict(CountWrite(req), req.identity, [req.dataset]) == None
    ensures ScopeWrite(req).written >= 0 && CountWrite(req).written >= 0
  {
    SampleChecked(req, ["a"], []);
    var good, scope := SampleWrite(req, ["a"], []), ScopeWrite(req);
    assert ArtifactIds(scope.artifacts) == ArtifactIds(good.artifacts);
    hide SnapshotOk, AllQualityOk, ArtifactIds, DistinctTexts;
    assert forall i :: 0 <= i < 2 ==> ArtifactOk(good.artifacts[i], [req.dataset]);
  }

  lemma OneOutput(t: Tables, req: Request)
    requires Fresh(t) && req.outputs == [req.dataset] && req.dataset in t.registry && t.registry[req.dataset].active
    requires req.binding.None?
    ensures Distinct(req.outputs) == [req.dataset] && Opened(t, req).Ok? && Consistent(t)
  {
    FreshStart(t);
    hide Consistent;
    assert Distinct([]) == [] && req.outputs[..0] == [];
  }

  /** On a fresh store: a write that is published, and five that pass every check of the
      coordinator and are refused behind it, for their first artifact, for a quality result
      about another run, for two quality results with one key, for a scope that the codec
      refuses, and for a count that SQLite cannot hold. */
  lemma CheckedWritesRefused(t: Tables, req: Request)
    requires Fresh(t) && req.outputs == [req.dataset] && req.dataset in t.registry && t.registry[req.dataset].active
    requires req.run != "" && req.binding.None?
    ensures Opened(t, req).Ok?
    ensures forall w :: w in [SampleWrite(req, ["a"], []), SampleWrite(req, ["b"], []),
                              SampleWrite(req, ["a"], [SampleQuality(req, "q", req.run + "-")]),
                              SampleWrite(req, ["a"], [SampleQuality(req, "q", req.run),
                                                       SampleQuality(req, "r", req.run)]),
                              ScopeWrite(req), CountWrite(req)] ==>
      w.written >= 0 && WriteGood(w, req.identity, req.outputs) &&
      (Published(Opened(t, req).value, req, Ok(w)).Ok? <==> w == SampleWrite(req, ["a"], []))
  {
    hide Opened, Published, Verdict, Consistent, Distinct, SampleQuality, WriteGood, StoreAccepts, SampleWrite,
         ScopeWrite, CountWrite, Fresh;
    OneOutput(t, req);
    var q, r := SampleQuality(req, "q", req.run), SampleQuality(req, "r", req.run);
    var other := SampleQuality(req, "q", req.run + "-");
    SampleQualityIs(req, "q", req.run);
    SampleQualityIs(req, "r", req.run);
    SampleQualityIs(req, "q", req.run + "-");
    SampleChecked(req, ["a"], []);
    SampleChecked(req, ["b"], []);
    SampleChecked(req, ["a"], [other]);
    SampleChecked(req, ["a"], [q, r]);
    OthersChecked(req);
    SampleDecided(t, req, SampleWrite(req, ["a"], []));
    SampleDecided(t, req, SampleWrite(req, ["b"], []));
    SampleDecided(t, req, SampleWrite(req, ["a"], [other]));
    SampleDecided(t, req, SampleWrite(req, ["a"], [q, r]));
    SampleDecided(t, req, ScopeWrite(req));
    SampleDecided(t, req, CountWrite(req));
    SampleRefused(t, req, q, r, other);
  }

  lemma SampleDecided(t: Tables, req: Request, w: WriteResult)
    requires Consistent(t) && Opened(t, req).Ok? && Distinct(req.outputs) == [req.dataset]
    requires w.written >= 0 && Verdict(w, req.identity, [req.dataset]) == None
    ensures WriteGood(w, req.identity, req.outputs)
    ensures Published(Opened(t, req).value, req, Ok(w)).Ok? <==> StoreAccepts(t, req.run, w)
  {
    hide *;
    CheckedIsGood(req, w);
    PublishesExactly(t, req, w);
  }

  lemma SampleQualityIs(req: Request, id: string, subject: string)
    ensures var q := SampleQuality(req, id, subject);
      q.id == id && q.subject == subject && q.kind == RunSubject && q.rule == "rule" && q.dataset == req.dataset
  {
  }

  lemma SampleRefused(t: Tables, req: Request, q: QualityWrite, r: QualityWrite, other: QualityWrite)
    requires Fresh(t) && SameQualityKey(q, r) && other.kind == RunSubject && other.subject != req.run
    ensures StoreAccepts(t, req.run, SampleWrite(req, ["a"], []))
    ensures !StoreAccepts(t, req.run, SampleWrite(req, ["b"], []))
    ensures !StoreAccepts(t, req.run, SampleWrite(req, ["a"], [other]))
    ensures !StoreAccepts(t, req.run, SampleWrite(req, ["a"], [q, r]))
    ensures !StoreAccepts(t, req.run, ScopeWrite(req)) && !StoreAccepts(t, req.run, CountWrite(req))
    ensures ScopeWrite(req) != SampleWrite(req, ["a"], []) && CountWrite(req) != SampleWrite(req, ["a"], [])
  {
    assert ScopeWrite(req).artifacts[1].binding.Some?;
    assert "a" !in ["b"];
    assert [other][0] == other;
    assert [q, r][0] == q && [q, r][1] == r;
  }
}
