/**
 `_publish_locked` in quant_data/atlas/exporter.py as it works on the export directory:
 each write in its place, the exception path included. Every call is shown to be a run
 of the machine in AtlasPublication, so what holds of all runs holds of it.
 */
module AtlasExportRoot {
  import opened Wrappers
  import opened PublicPayload
  import opened AtlasPublication

  /** Places where something outside the model can raise: hooks, deadlines, the file system
      before an effect (`...Fails`) or behind it (`After...`). */
  datatype Hook =
    | AfterPointerRead
    | StagingSetup
    | Building        // copies, queries, files
    | AfterValidation
    | PrecommitFails
    | AfterPrecommitIntent
    | RenameFails
    | AfterRename     // only where something is renamed
    | AfterPromotion
    | CleaningUp
    | ReceiptFails
    | AfterPublicationReceipt
    | BeforePointer
    | ExceptCleanup   // the clean-up of the `except` branch itself
    | PointerWrite

  /** `stored`: the revision is there already, so nothing is renamed. */
  predicate QuietInStagedBlock(faults: set<Hook>, stored: bool) {
    && Building !in faults && AfterValidation !in faults && QuietPromoting(faults, stored)
    && ReceiptFails !in faults && AfterPublicationReceipt !in faults && BeforePointer !in faults
  }

  predicate QuietPromoting(faults: set<Hook>, stored: bool) {
    && PrecommitFails !in faults && AfterPrecommitIntent !in faults
    && (stored || (RenameFails !in faults && AfterRename !in faults))
    && AfterPromotion !in faults && CleaningUp !in faults
  }

  ghost function Accepts(d: Declaration): Validator {
    (payload: Payload, revision: string) => Validates(d, payload, revision)
  }

  lemma AcceptsMeans(d: Declaration, payload: Payload, revision: string)
    ensures Accepts(d)(payload, revision) <==> Validates(d, payload, revision)
  {
    hide Validates;
  }

  /** The manifest digest a successful attempt publishes. */
  function DigestPublished(revisions: map<string, Payload>, revision: string, payload: Payload): Digest {
    OfManifest((if revision in revisions then revisions[revision] else payload).manifest)
  }

  /** What is known when an attempt is over. */
  lemma AttemptOver(start: World, events: seq<Event>, end: World, p: Pid)
    requires Inv(start) && At(start, p).Locked? && Reached(start, events, end, p)
    ensures Effect(start, end, p) && Inv(end) && Grows(start, end)
  {
    hide Effect, Legal, Run, Grows, LinearHistory, RevisionsValid, Inv, Knows, Enabled, Apply;
    InvGivesHistory(start);
    assert !At(start, p).Idle? <==> start.lock == Some(p);
    AttemptStarts(start, p);
    AttemptEffect(start, start, p, events);
    RunKeepsInv(start, events);
    RunGrows(start, events);
  }

  /** With the validator in use: in every interleaving of publishers, failures and crashes, a
      current pointer is bound, and the revision it names is stored and valid. */
  lemma {:induction false} CurrentRevisionIsValid(d: Declaration, events: seq<Event>)
    requires Legal(EmptyRoot(Accepts(d)), events)
    ensures var w := Run(EmptyRoot(Accepts(d)), events);
      && (forall stored :: stored in w.revisions ==> Validates(d, w.revisions[stored], stored))
      && (w.pointer.Some? ==>
            && Bound(w, w.pointer.value) && w.pointer.value.revision in w.revisions
            && w.pointer.value.manifestSha == OfManifest(w.revisions[w.pointer.value.revision].manifest))
  {
    hide Validates, Accepts, Legal, Run, LinearHistory;
    EveryPointerIsBound(Accepts(d), events);
    var w := Run(EmptyRoot(Accepts(d)), events);
    forall stored | stored in w.revisions ensures Validates(d, w.revisions[stored], stored) {
      AcceptsMeans(d, w.revisions[stored], stored);
    }
  }

  /** The facts a caller of `PublishLocked` is told, from the shape of the last state. */
  lemma Concluded(start: World, events: seq<Event>, end: World, p: Pid)
    requires Inv(start) && At(start, p).Locked? && Reached(start, events, end, p)
    requires end.procs == map[p := At(end, p)] && At(end, p).Releasing?
    ensures Grows(start, end.(procs := map[p := Locked])) && Inv(end.(procs := map[p := Locked]))
    ensures match At(end, p).outcome
      case Refused => SamePointer(start, end)
      case Raised(removed) => SamePointer(start, end) && (removed ==> end.staging == start.staging)
      case PointerWriteFailed => Untouched(start, end)
      case Published(pointer) =>
        && end.pointer == Some(pointer) && end.history == start.history + [pointer]
        && end.staging == start.staging && Bound(end.(procs := map[p := Releasing(None, At(end, p).outcome)]), pointer)
        && pointer.receiptSha.OfReceipt?
        && pointer.receiptSha.receipt.prior ==
             (if start.pointer.None? then None else Some(start.pointer.value.revision))
        && pointer.receiptSha.receipt.reused == Some(pointer.revision in start.revisions)
  {
    hide Reached, Legal, Run, Inv, LinearHistory;
    AttemptOver(start, events, end, p);
    OthersIdle(end, p);
    InvGivesHistory(end);
    if At(end, p).outcome.Published? { CurrentIsBound(end); }
  }

  lemma OthersIdle(w: World, p: Pid)
    requires Inv(w) && w.procs == map[p := At(w, p)] && At(w, p).Releasing?
    ensures Inv(w.(procs := map[p := Locked]))
  {
    hide Bound;
    var next := w.(procs := map[p := Locked]);
    assert !At(w, p).Idle? <==> w.lock == Some(p);
    InvGivesHistory(w);
    HistoryKept(w, next);
    forall q ensures !At(next, q).Idle? <==> next.lock == Some(q) {
      assert !At(w, q).Idle? <==> w.lock == Some(q);
    }
  }

  class ExportRoot {
    const declared: Declaration
    var pointer: Option<Pointer>
    var revisions: map<string, Payload>
    var receipts: map<string, Receipt>
    var staging: set<string>
    ghost var history: seq<Pointer>

    /** The machine's view while publisher `p` holds the lock. */
    ghost function View(p: Pid, proc: Proc): World
      reads this
    {
      World(Accepts(declared), pointer, revisions, receipts, staging, Some(p), map[p := proc], history)
    }

    ghost predicate StoredValid()
      reads this`revisions
    {
      forall stored :: stored in revisions ==> Validates(declared, revisions[stored], stored)
    }

    constructor (declared: Declaration)
      ensures this.declared == declared
      ensures pointer == None && revisions == map[] && receipts == map[] && staging == {} && history == []
      ensures forall p :: Inv(View(p, Locked))
    {
      this.declared := declared;
      pointer, revisions, receipts, staging, history := None, map[], map[], {}, [];
    }

    /** `_write_private_receipt`: creates the file or reports a conflict. The file system may
        fail before the link or, with the receipt stored, behind it. */
    method WritePrivateReceipt(name: string, receipt: Receipt, fails: bool, failsBehind: bool)
      returns (r: Result<Digest, Fault>)
      modifies this`receipts
      ensures r == if name in old(receipts) then Err(ConflictFault) else if fails || failsBehind then Err(StorageFault)
                   else Ok(OfReceipt(receipt))
      ensures receipts == if name in old(receipts) || fails then old(receipts) else old(receipts)[name := receipt]
    {
      if name in receipts { return Err(ConflictFault); }
      if fails { return Err(StorageFault); }
      receipts := receipts[name := receipt];
      r := if failsBehind then Err(StorageFault) else Ok(OfReceipt(receipt));
    }

    /** `_promote_payload_v2`: a stored revision is validated and reused, never replaced. The
        file system may fail before the rename or, with the revision stored, behind it. */
    method PromotePayload(revision: string, payload: Payload, fails: bool, failsBehind: bool)
      returns (r: Result<(bool, Digest), Fault>)
      requires Validates(declared, payload, revision) && StoredValid()
      modifies this`revisions
      ensures revision in old(revisions) ==>
        revisions == old(revisions) && r == Ok((true, OfManifest(revisions[revision].manifest)))
      ensures revision !in old(revisions) ==>
        && revisions == (if fails then old(revisions) else old(revisions)[revision := payload])
        && r == if fails || failsBehind then Err(StorageFault) else Ok((false, OfManifest(payload.manifest)))
    {
      hide Validates, Accepts;
      if revision in revisions {
        var valid := ValidatePayload(declared, revisions[revision], revision);
        return if valid then Ok((true, OfManifest(revisions[revision].manifest))) else Err(ValidationFault);
      }
      if fails { return Err(StorageFault); }
      revisions := revisions[revision := payload];
      if failsBehind { return Err(StorageFault); }
      var valid := ValidatePayload(declared, revisions[revision], revision);
      r := if valid then Ok((false, OfManifest(revisions[revision].manifest))) else Err(ValidationFault);
    }

    /** The precommit receipt. */
    method Intend(p: Pid, at: Attempt, revision: string, payload: Payload, faults: set<Hook>,
                  ghost start: World, ghost before: seq<Event>)
      returns (r: Result<Receipt, Fault>, ghost events: seq<Event>, ghost proc: Proc)
      requires Reached(start, before, View(p, Validated(at, revision, payload)), p)
      modifies this`receipts
      ensures Reached(start, events, View(p, proc), p) && InStagedBlock(proc) && proc.at == at
      ensures r.Ok? <==>
        PrecommitFails !in faults && AfterPrecommitIntent !in faults && PrecommitName(at.name) !in old(receipts)
      ensures r.Ok? ==> proc == Intended(at, revision, payload, r.value)
      ensures r.Ok? ==> receipts.Keys == old(receipts).Keys + {PrecommitName(at.name)}
    {
      hide Reached, Validates, Accepts, Apply, Enabled;
      events, proc := before, Validated(at, revision, payload);
      var intent := PrecommitReceipt(at, revision, payload);
      ghost var was := View(p, proc);
      AloneStores(was, p, proc);
      var taken := PrecommitName(at.name) in receipts;
      var written := WritePrivateReceipt(PrecommitName(at.name), intent, PrecommitFails in faults,
                                         AfterPrecommitIntent in faults);
      if taken || PrecommitFails in faults { return Err(written.error), events, proc; }
      proc := Intended(at, revision, payload, intent);
      Advance(start, events, was, Event.Intend(p), View(p, proc));
      events := events + [Event.Intend(p)];
      r := if written.Ok? then Ok(intent) else Err(written.error);
    }

    /** The immutable revision, stored or reused. */
    method Promote(p: Pid, at: Attempt, revision: string, payload: Payload, intent: Receipt, faults: set<Hook>,
                   ghost start: World, ghost before: seq<Event>)
      returns (r: Result<(bool, Digest), Fault>, ghost events: seq<Event>, ghost proc: Proc)
      requires Reached(start, before, View(p, Intended(at, revision, payload, intent)), p)
      requires Validates(declared, payload, revision) && StoredValid()
      modifies this`revisions
      ensures Reached(start, events, View(p, proc), p) && InStagedBlock(proc) && proc.at == at
      ensures r.Ok? <==>
        && (revision in old(revisions) || (RenameFails !in faults && AfterRename !in faults))
        && AfterPromotion !in faults
      ensures r.Ok? ==> proc == Promoted(at, revision, intent, r.value.0, r.value.1)
      ensures r.Ok? ==> r.value.1 == DigestPublished(old(revisions), revision, payload)
    {
      hide Reached, Validates, Accepts, Apply, Enabled;
      events, proc := before, Intended(at, revision, payload, intent);
      ghost var was := View(p, proc);
      AloneStores(was, p, proc);
      StoredAccepted(revision);
      var stored := revision in revisions;
      var promoted := PromotePayload(revision, payload, RenameFails in faults, AfterRename in faults);
      if !stored && RenameFails in faults { return Err(promoted.error), events, proc; }
      proc := Promoted(at, revision, intent, stored, DigestPublished(was.revisions, revision, payload));
      Advance(start, events, was, Event.Promote(p), View(p, proc));
      events := events + [Event.Promote(p)];
      if promoted.Err? { return Err(promoted.error), events, proc; }
      r := if AfterPromotion in faults then Err(OtherFault) else Ok(promoted.value);
    }

    /** From a validated payload to the cleaned staging area. */
    method IntendAndPromote(p: Pid, at: Attempt, revision: string, payload: Payload, faults: set<Hook>,
                            ghost start: World, ghost before: seq<Event>)
      returns (r: Result<Proc, Fault>, ghost events: seq<Event>, ghost proc: Proc)
      requires Reached(start, before, View(p, Validated(at, revision, payload)), p)
      requires Validates(declared, payload, revision) && StoredValid()
      modifies this`revisions, this`receipts, this`staging
      ensures Reached(start, events, View(p, proc), p) && InStagedBlock(proc) && proc.at == at
      ensures r.Ok? <==> QuietPromoting(faults, revision in old(revisions)) && PrecommitName(at.name) !in old(receipts)
      ensures r.Ok? ==> r.value == proc && proc.Cleaned? && proc.revision == revision
      ensures r.Ok? ==> proc.manifestSha == DigestPublished(old(revisions), revision, payload)
      ensures r.Ok? ==> receipts.Keys == old(receipts).Keys + {PrecommitName(at.name)}
    {
      hide Reached, Validates, Accepts, Apply, Enabled;
      var intent, promoted;
      intent, events, proc := Intend(p, at, revision, payload, faults, start, before);
      if intent.Err? { return Err(intent.error), events, proc; }
      promoted, events, proc := Promote(p, at, revision, payload, intent.value, faults, start, events);
      if promoted.Err? { return Err(promoted.error), events, proc; }
      if CleaningUp in faults { return Err(OtherFault), events, proc; }
      ghost var was := View(p, proc);
      AloneCleans(was, p, proc);
      staging := staging - {at.name};
      var cleaned := Cleaned(at, revision, intent.value, promoted.value.0, promoted.value.1);
      proc := cleaned;
      Advance(start, events, was, Clean(p), View(p, proc));
      events := events + [Clean(p)];
      r := Ok(cleaned);
    }

    /** The publication receipt and the bytes of the new pointer. */
    method FinishReceipt(p: Pid, at: Attempt, c: Proc, faults: set<Hook>, ghost start: World, ghost before: seq<Event>)
      returns (r: Result<Pointer, Fault>, ghost events: seq<Event>, ghost proc: Proc)
      requires c.Cleaned? && c.at == at && Reached(start, before, View(p, c), p)
      modifies this`receipts
      ensures Reached(start, events, View(p, proc), p) && InStagedBlock(proc) && proc.at == at
      ensures r.Ok? <==>
        && ReceiptFails !in faults && AfterPublicationReceipt !in faults && BeforePointer !in faults
        && at.name !in old(receipts)
      ensures r.Ok? ==> proc.Receipted? && r.value == PointerTo(proc.receipt)
      ensures r.Ok? ==> r.value.revision == c.revision && r.value.manifestSha == c.manifestSha
    {
      hide Reached, Validates, Accepts, Apply, Enabled;
      events, proc := before, c;
      var receipt := PublicationReceipt(at, c.revision, c.precommit, c.reused, c.manifestSha);
      ghost var was := View(p, proc);
      AloneWritesReceipt(was, p, proc);
      var taken := at.name in receipts;
      var written := WritePrivateReceipt(at.name, receipt, ReceiptFails in faults, AfterPublicationReceipt in faults);
      if taken || ReceiptFails in faults { return Err(written.error), events, proc; }
      proc := Receipted(at, receipt);
      Advance(start, events, was, WriteReceipt(p), View(p, proc));
      events := events + [WriteReceipt(p)];
      if written.Err? { return Err(written.error), events, proc; }
      if BeforePointer in faults { return Err(OtherFault), events, proc; }
      r := Ok(Pointer(c.revision, c.manifestSha, written.value));
    }

    /** The files, and the independent validation of what was written. */
    method WriteAndValidate(p: Pid, at: Attempt, revision: string, payload: Payload, faults: set<Hook>,
                            ghost start: World, ghost before: seq<Event>)
      returns (r: Result<(), Fault>, ghost events: seq<Event>, ghost proc: Proc)
      requires Reached(start, before, View(p, Staged(at)), p)
      ensures Reached(start, events, View(p, proc), p) && InStagedBlock(proc) && proc.at == at
      ensures r.Ok? <==> Building !in faults && AfterValidation !in faults && Validates(declared, payload, revision)
      ensures r.Ok? ==> proc == Validated(at, revision, payload)
    {
      hide Reached, Validates, Accepts, Apply, Enabled;
      events, proc := before, Staged(at);
      if Building in faults { return Err(OtherFault), events, proc; }
      AloneBuilds(View(p, proc), p, proc);
      Advance(start, events, View(p, proc), Write(p, revision, payload), View(p, Written(at, revision, payload)));
      events, proc := events + [Write(p, revision, payload)], Written(at, revision, payload);
      var valid := ValidatePayload(declared, payload, revision);
      if !valid { return Err(ValidationFault), events, proc; }
      AcceptsMeans(declared, payload, revision);
      AloneBuilds(View(p, proc), p, proc);
      Advance(start, events, View(p, proc), Validate(p), View(p, Validated(at, revision, payload)));
      events, proc := events + [Validate(p)], Validated(at, revision, payload);
      r := if AfterValidation in faults then Err(OtherFault) else Ok(());
    }

    /** The `try` block, from the staging child to the bytes of the new pointer. */
    method StagedBlock(p: Pid, at: Attempt, revision: string, payload: Payload, faults: set<Hook>,
                       ghost start: World, ghost before: seq<Event>)
      returns (r: Result<Pointer, Fault>, ghost events: seq<Event>, ghost proc: Proc)
      requires Reached(start, before, View(p, Staged(at)), p) && StoredValid()
      modifies this`revisions, this`receipts, this`staging
      ensures Reached(start, events, View(p, proc), p) && InStagedBlock(proc) && proc.at == at
      ensures r.Ok? ==> proc.Receipted? && r.value == PointerTo(proc.receipt)
      ensures r.Ok? <==>
        && QuietInStagedBlock(faults, revision in old(revisions)) && Validates(declared, payload, revision)
        && PrecommitName(at.name) !in old(receipts) && at.name !in old(receipts)
      ensures r.Ok? ==> r.value.revision == revision
      ensures r.Ok? ==> r.value.manifestSha == DigestPublished(old(revisions), revision, payload)
    {
      hide Reached, Validates, Accepts, Apply, Enabled, StoredValid;
      var built, cleaned;
      built, events, proc := WriteAndValidate(p, at, revision, payload, faults, start, before);
      if built.Err? { return Err(built.error), events, proc; }
      cleaned, events, proc := IntendAndPromote(p, at, revision, payload, faults, start, events);
      if cleaned.Err? { return Err(cleaned.error), events, proc; }
      LongerName(at.name);
      r, events, proc := FinishReceipt(p, at, cleaned.value, faults, start, events);
    }

    /** `_staging_root` and what precedes the `try` block. */
    method Stage(p: Pid, at: Attempt, faults: set<Hook>, ghost start: World, ghost before: seq<Event>)
      returns (r: Result<(), Fault>, ghost events: seq<Event>, ghost proc: Proc)
      requires Reached(start, before, View(p, PointerRead(at)), p)
      modifies this`staging
      ensures Reached(start, events, View(p, proc), p)
      ensures r.Ok? <==> AfterPointerRead !in faults && StagingSetup !in faults && at.name !in old(staging)
      ensures r.Ok? ==> proc == Staged(at) && staging == old(staging) + {at.name}
      ensures r.Err? ==> proc == Releasing(Some(at), Refused) && (StagingSetup !in faults ==> staging == old(staging))
    {
      hide Reached, Validates, Accepts, Apply, Enabled;
      ghost var was := View(p, PointerRead(at));
      AloneStarts(was, p, PointerRead(at));
      if AfterPointerRead in faults || at.name in staging {
        proc := Releasing(Some(at), Refused);
        Advance(start, before, was, Refuse(p), View(p, proc));
        return Err(if AfterPointerRead in faults then OtherFault else ConflictFault), before + [Refuse(p)], proc;
      }
      staging := staging + {at.name};
      if StagingSetup in faults {
        proc := Releasing(Some(at), Refused);
        Advance(start, before, was, StageBreaks(p), View(p, proc));
        return Err(StorageFault), before + [StageBreaks(p)], proc;
      }
      proc := Staged(at);
      Advance(start, before, was, Event.Stage(p), View(p, proc));
      events := before + [Event.Stage(p)];
      r := Ok(());
    }

    /** The `except` branch. */
    method GiveUp(p: Pid, at: Attempt, faults: set<Hook>, ghost failing: Proc, ghost start: World,
                  ghost before: seq<Event>)
      returns (ghost events: seq<Event>, ghost end: Outcome)
      requires InStagedBlock(failing) && failing.at == at && Reached(start, before, View(p, failing), p)
      modifies this`staging
      ensures Reached(start, events, View(p, Releasing(Some(at), end)), p)
      ensures end == Raised(ExceptCleanup !in faults)
    {
      hide Reached, Validates, Accepts, Apply, Enabled;
      AloneFails(View(p, failing), p, failing);
      Advance(start, before, View(p, failing), Raise(p), View(p, Failing(at)));
      ghost var was := View(p, Failing(at));
      AloneFails(was, p, Failing(at));
      events := before + [Raise(p)];
      if ExceptCleanup in faults {
        Advance(start, events, was, CleanUpFails(p), View(p, Releasing(Some(at), Raised(false))));
        return events + [CleanUpFails(p)], Raised(false);
      }
      staging := staging - {at.name};
      Advance(start, events, was, CleanUp(p), View(p, Releasing(Some(at), Raised(true))));
      events, end := events + [CleanUp(p)], Raised(true);
    }

    /** `_atomic_replace` of the pointer: the commit point. */
    method ReplacePointer(p: Pid, at: Attempt, next: Pointer, faults: set<Hook>, ghost receipt: Receipt,
                          ghost start: World, ghost before: seq<Event>)
      returns (r: Result<(), Fault>, ghost events: seq<Event>, ghost end: Outcome)
      requires next == PointerTo(receipt) && Reached(start, before, View(p, Receipted(at, receipt)), p)
      modifies this`pointer, this`history
      ensures Reached(start, events, View(p, Releasing(Some(at), end)), p)
      ensures r.Ok? <==> PointerWrite !in faults
      ensures r.Ok? ==> end == Published(next)
      ensures r.Err? ==> end == PointerWriteFailed
      ensures pointer == if r.Ok? then Some(next) else old(pointer)
      ensures history == if r.Ok? then old(history) + [next] else old(history)
    {
      hide Reached, Validates, Accepts, Apply, Enabled;
      ghost var was := View(p, Receipted(at, receipt));
      AloneCommits(was, p, Receipted(at, receipt));
      if PointerWrite in faults {
        Advance(start, before, was, PointerFails(p), View(p, Releasing(Some(at), PointerWriteFailed)));
        return Err(StorageFault), before + [PointerFails(p)], PointerWriteFailed;
      }
      pointer := Some(next);
      history := history + [next];
      Advance(start, before, was, Commit(p), View(p, Releasing(Some(at), Published(next))));
      r, events, end := Ok(()), before + [Commit(p)], Published(next);
    }

    /** What follows the staging child: the `try` block, its `except` branch, and the pointer. */
    method PublishStaged(p: Pid, at: Attempt, revision: string, payload: Payload, faults: set<Hook>,
                         ghost start: World, ghost before: seq<Event>)
      returns (r: Result<Pointer, Fault>, ghost events: seq<Event>, ghost end: Outcome)
      requires Reached(start, before, View(p, Staged(at)), p) && StoredValid()
      modifies this
      ensures Reached(start, events, View(p, Releasing(Some(at), end)), p)
      ensures r.Ok? <==>
        && QuietInStagedBlock(faults, revision in old(revisions)) && Validates(declared, payload, revision)
        && PrecommitName(at.name) !in old(receipts) && at.name !in old(receipts) && PointerWrite !in faults
      ensures r.Ok? ==> end == Published(r.value) && r.value.revision == revision
      ensures r.Ok? ==> r.value.manifestSha == DigestPublished(old(revisions), revision, payload)
      ensures r.Err? ==> end == Raised(ExceptCleanup !in faults) || end == PointerWriteFailed
    {
      hide Reached, Validates, Accepts, QuietInStagedBlock, StoredValid, DigestPublished, PrecommitName;
      ghost var proc;
      var staged, replaced;
      staged, events, proc := StagedBlock(p, at, revision, payload, faults, start, before);
      if staged.Err? {
        events, end := GiveUp(p, at, faults, proc, start, events);
        return Err(staged.error), events, end;
      }
      replaced, events, end := ReplacePointer(p, at, staged.value, faults, proc.receipt, start, events);
      r := if replaced.Ok? then Ok(staged.value) else Err(replaced.error);
    }

    /** `_publish_locked`. The attempt publishes exactly when nothing raises, the payload
        validates and its names are free; otherwise it leaves the pointer it found. */
    method PublishLocked(p: Pid, name: string, revision: string, payload: Payload, faults: set<Hook>)
      returns (r: Result<Pointer, Fault>, ghost events: seq<Event>, ghost end: Outcome)
      requires Inv(View(p, Locked))
      modifies this
      ensures r.Ok? <==>
        && AfterPointerRead !in faults && StagingSetup !in faults && PointerWrite !in faults
        && QuietInStagedBlock(faults, revision in old(revisions))
        && Validates(declared, payload, revision)
        && name !in old(staging) && name !in old(receipts) && PrecommitName(name) !in old(receipts)
      ensures r.Ok? ==>
        && pointer == Some(r.value) && history == old(history) + [r.value] && staging == old(staging)
        && r.value.revision == revision && r.value.manifestSha == DigestPublished(old(revisions), revision, payload)
        && Bound(View(p, Releasing(None, end)), r.value)
        && r.value.receiptSha.receipt.prior ==
             (if old(pointer).None? then None else Some(old(pointer).value.revision))
        && r.value.receiptSha.receipt.reused == Some(revision in old(revisions))
      ensures r.Err? ==> pointer == old(pointer) && history == old(history)
      ensures r.Err? && StagingSetup !in faults && ExceptCleanup !in faults ==> staging == old(staging)
      ensures Grows(old(View(p, Locked)), View(p, Locked))
      ensures exists attempt :: Reached(old(View(p, Locked)), events, View(p, Releasing(attempt, end)), p)
      ensures Inv(View(p, Locked))
    {
      hide Reached, Validates, Accepts, Apply, Enabled, Inv, Grows, Effect, Bound, QuietInStagedBlock, Knows,
           StoredValid, DigestPublished, PrecommitName, PriorRevision;
      ghost var start := View(p, Locked);
      StoredAreValid(p);
      var at := Attempt(name, pointer);
      ghost var proc;
      events := ReadPointerFirst(start, p, name);
      var ready;
      ready, events, proc := Stage(p, at, faults, start, events);
      if ready.Err? {
        end := Refused;
        Concluded(start, events, View(p, Releasing(Some(at), end)), p);
        return Err(ready.error), events, end;
      }
      r, events, end := PublishStaged(p, at, revision, payload, faults, start, events);
      Concluded(start, events, View(p, Releasing(Some(at), end)), p);
    }

    lemma StoredAreValid(p: Pid)
      requires Inv(View(p, Locked))
      ensures StoredValid()
    {
      hide Validates, Accepts, Inv;
      StoredIsValid(View(p, Locked));
      forall stored | stored in revisions ensures Validates(declared, revisions[stored], stored) {
        AcceptsMeans(declared, revisions[stored], stored);
      }
    }

    lemma StoredAccepted(revision: string)
      requires StoredValid()
      ensures revision in revisions ==> Accepts(declared)(revisions[revision], revision)
    {
      hide Validates, Accepts;
      if revision in revisions { AcceptsMeans(declared, revisions[revision], revision); }
    }
  }

  lemma ReadPointerFirst(start: World, p: Pid, name: string) returns (events: seq<Event>)
    requires start.procs == map[p := Locked] && start.lock == Some(p)
    ensures Reached(start, events, start.(procs := map[p := PointerRead(Attempt(name, start.pointer))]), p)
  {
    hide Reached, Apply, Enabled;
    Started(start, p);
    AloneStarts(start, p, Locked);
    var at := Attempt(name, start.pointer);
    Advance(start, [], start, ReadPointer(p, name), start.(procs := map[p := PointerRead(at)]));
    events := [] + [ReadPointer(p, name)];
  }
}
