/**
 Publishing an Atlas revision (`publish` and `_publish_locked` in
 quant_data/atlas/exporter.py) as a machine over the export directory: any number of
 publishers, every point at which one may fail, and crashes anywhere. Hashes are the
 constructors of `Digest`, so equal digests mean equal contents. The validator is a
 parameter; PublicPayload has the one in use.
 */
module AtlasPublication {
  import opened Wrappers
  import opened PublicPayload

  type Pid = int

  // ----- what the files hold -----

  /** `_validate_public_payload_v2` of a payload under a revision's name. */
  type Validator = (Payload, string) -> bool

  datatype Phase = PrecommitIntent | Publication

  datatype Receipt = Receipt(
    phase: Phase,
    attempt: string,
    revision: string,
    manifestSha: Digest,
    prior: Option<string>,
    reused: Option<bool>,
    precommitSha: Option<Digest>,
    stagingRemoved: bool)

  datatype Digest = OfManifest(manifest: Manifest) | OfReceipt(receipt: Receipt)

  datatype Pointer = Pointer(revision: string, manifestSha: Digest, receiptSha: Digest)

  function PrecommitName(attempt: string): string {
    attempt + ".precommit"
  }

  // ----- the machine -----

  datatype Attempt = Attempt(name: string, prior: Option<Pointer>)

  datatype Outcome =
    | Refused                      // before the staged block
    | Raised(stagingRemoved: bool) // inside the staged block
    | PointerWriteFailed           // behind it, before the rename
    | Published(pointer: Pointer)

  /** Where a publisher is in `_publish_locked`, with the locals it has by then. */
  datatype Proc =
    | Idle
    | Locked
    | PointerRead(at: Attempt)
    | Staged(at: Attempt)
    | Written(at: Attempt, revision: string, payload: Payload)
    | Validated(at: Attempt, revision: string, payload: Payload)
    | Intended(at: Attempt, revision: string, payload: Payload, precommit: Receipt)
    | Promoted(at: Attempt, revision: string, precommit: Receipt, reused: bool, manifestSha: Digest)
    | Cleaned(at: Attempt, revision: string, precommit: Receipt, reused: bool, manifestSha: Digest)
    | Receipted(at: Attempt, receipt: Receipt)
    | Failing(at: Attempt)
    | Releasing(attempt: Option<Attempt>, outcome: Outcome)

  /** The validator, the export directory, its lock, the publishers, and the pointers
      committed so far. */
  datatype World = World(
    accepts: Validator,
    pointer: Option<Pointer>,
    revisions: map<string, Payload>,
    receipts: map<string, Receipt>,
    staging: set<string>,
    lock: Option<Pid>,
    procs: map<Pid, Proc>,
    history: seq<Pointer>)

  datatype Event =
    | Acquire(p: Pid)
    | ReadPointer(p: Pid, name: string)
    | Refuse(p: Pid)
    | Stage(p: Pid)
    | StageBreaks(p: Pid)          // the child exists, but the `try` was not entered
    | Write(p: Pid, revision: string, payload: Payload)
    | Validate(p: Pid)
    | Intend(p: Pid)
    | Promote(p: Pid)
    | Clean(p: Pid)
    | WriteReceipt(p: Pid)
    | Raise(p: Pid)                // an exception before the effect of the next step
    | CleanUp(p: Pid)
    | CleanUpFails(p: Pid)
    | PointerFails(p: Pid)
    | Commit(p: Pid)
    | Release(p: Pid)
    | Crash(p: Pid)

  function At(w: World, p: Pid): Proc {
    if p in w.procs then w.procs[p] else Idle
  }

  function PriorRevision(prior: Option<Pointer>): Option<string> {
    match prior
    case None => None
    case Some(pointer) => Some(pointer.revision)
  }

  function PrecommitReceipt(at: Attempt, revision: string, payload: Payload): Receipt {
    Receipt(PrecommitIntent, at.name, revision, OfManifest(payload.manifest), PriorRevision(at.prior), None, None,
            false)
  }

  function PublicationReceipt(at: Attempt, revision: string, precommit: Receipt, reused: bool, manifestSha: Digest)
    : Receipt
  {
    Receipt(Publication, at.name, revision, manifestSha, PriorRevision(at.prior), Some(reused),
            Some(OfReceipt(precommit)), true)
  }

  function PointerTo(receipt: Receipt): Pointer {
    Pointer(receipt.revision, receipt.manifestSha, OfReceipt(receipt))
  }

  predicate InStagedBlock(proc: Proc) {
    || proc.Staged? || proc.Written? || proc.Validated? || proc.Intended?
    || proc.Promoted? || proc.Cleaned? || proc.Receipted?
  }

  predicate Enabled(w: World, e: Event) {
    var proc := At(w, e.p);
    match e
    case Acquire(_) => proc.Idle? && w.lock == None
    case ReadPointer(_, _) => proc.Locked?
    case Refuse(_) => proc.Locked? || proc.PointerRead?
    case Stage(_) => proc.PointerRead? && proc.at.name !in w.staging
    case StageBreaks(_) => proc.PointerRead? && proc.at.name !in w.staging
    case Write(_, _, _) => proc.Staged?
    case Validate(_) => proc.Written? && w.accepts(proc.payload, proc.revision)
    case Intend(_) => proc.Validated? && PrecommitName(proc.at.name) !in w.receipts
    case Promote(_) =>
      && proc.Intended?
      && (proc.revision in w.revisions ==> w.accepts(w.revisions[proc.revision], proc.revision))
    case Clean(_) => proc.Promoted?
    case WriteReceipt(_) => proc.Cleaned? && proc.at.name !in w.receipts
    case Raise(_) => InStagedBlock(proc)
    case CleanUp(_) => proc.Failing?
    case CleanUpFails(_) => proc.Failing?
    case PointerFails(_) => proc.Receipted?
    case Commit(_) => proc.Receipted?
    case Release(_) => proc.Releasing?
    case Crash(_) => !proc.Idle?
  }

  function Move(w: World, p: Pid, proc: Proc): World {
    w.(procs := w.procs[p := proc])
  }

  function Apply(w: World, e: Event): World
    requires Enabled(w, e)
  {
    var proc := At(w, e.p);
    match e
    case Acquire(p) => Move(w, p, Locked).(lock := Some(p))
    case ReadPointer(p, name) => Move(w, p, PointerRead(Attempt(name, w.pointer)))
    case Refuse(p) => Move(w, p, Releasing(if proc.PointerRead? then Some(proc.at) else None, Refused))
    case Stage(p) => Move(w, p, Staged(proc.at)).(staging := w.staging + {proc.at.name})
    case StageBreaks(p) => Move(w, p, Releasing(Some(proc.at), Refused)).(staging := w.staging + {proc.at.name})
    case Write(p, revision, payload) => Move(w, p, Written(proc.at, revision, payload))
    case Validate(p) => Move(w, p, Validated(proc.at, proc.revision, proc.payload))
    case Intend(p) =>
      var receipt := PrecommitReceipt(proc.at, proc.revision, proc.payload);
      Move(w, p, Intended(proc.at, proc.revision, proc.payload, receipt))
        .(receipts := w.receipts[PrecommitName(proc.at.name) := receipt])
    case Promote(p) =>
      if proc.revision in w.revisions then
        var stored := OfManifest(w.revisions[proc.revision].manifest);
        Move(w, p, Promoted(proc.at, proc.revision, proc.precommit, true, stored))
      else
        Move(w, p, Promoted(proc.at, proc.revision, proc.precommit, false, OfManifest(proc.payload.manifest)))
          .(revisions := w.revisions[proc.revision := proc.payload])
    case Clean(p) =>
      Move(w, p, Cleaned(proc.at, proc.revision, proc.precommit, proc.reused, proc.manifestSha))
        .(staging := w.staging - {proc.at.name})
    case WriteReceipt(p) =>
      var receipt := PublicationReceipt(proc.at, proc.revision, proc.precommit, proc.reused, proc.manifestSha);
      Move(w, p, Receipted(proc.at, receipt)).(receipts := w.receipts[proc.at.name := receipt])
    case Raise(p) => Move(w, p, Failing(proc.at))
    case CleanUp(p) => Move(w, p, Releasing(Some(proc.at), Raised(true))).(staging := w.staging - {proc.at.name})
    case CleanUpFails(p) => Move(w, p, Releasing(Some(proc.at), Raised(false)))
    case PointerFails(p) => Move(w, p, Releasing(Some(proc.at), PointerWriteFailed))
    case Commit(p) =>
      var pointer := PointerTo(proc.receipt);
      Move(w, p, Releasing(Some(proc.at), Published(pointer)))
        .(pointer := Some(pointer), history := w.history + [pointer])
    case Release(p) => Move(w, p, Idle).(lock := None)
    case Crash(p) => Move(w, p, Idle).(lock := None)
  }

  ghost predicate Legal(w: World, events: seq<Event>)
    decreases events
  {
    events == [] || (Enabled(w, events[0]) && Legal(Apply(w, events[0]), events[1..]))
  }

  function Run(w: World, events: seq<Event>): World
    requires Legal(w, events)
    decreases events
  {
    if events == [] then w else Run(Apply(w, events[0]), events[1..])
  }

  function EmptyRoot(accepts: Validator): World {
    World(accepts, None, map[], map[], {}, None, map[], [])
  }

  // ----- what every run keeps -----

  /** A bound pointer: it names a promoted, validated revision by its digest, and its receipt is
      stored and binds revision, manifest and precommit receipt. */
  predicate Bound(w: World, pointer: Pointer) {
    && pointer.receiptSha.OfReceipt?
    && var receipt := pointer.receiptSha.receipt;
    && receipt.attempt in w.receipts && w.receipts[receipt.attempt] == receipt
    && receipt.phase == Publication && receipt.stagingRemoved
    && receipt.revision == pointer.revision && receipt.manifestSha == pointer.manifestSha
    && pointer.revision in w.revisions
    && pointer.manifestSha == OfManifest(w.revisions[pointer.revision].manifest)
    && PrecommitBound(w, receipt)
  }

  predicate PrecommitBound(w: World, receipt: Receipt) {
    && receipt.precommitSha.Some? && receipt.precommitSha.value.OfReceipt?
    && var intent := receipt.precommitSha.value.receipt;
    && PrecommitName(receipt.attempt) in w.receipts && w.receipts[PrecommitName(receipt.attempt)] == intent
    && intent.phase == PrecommitIntent && intent.attempt == receipt.attempt
    && intent.revision == receipt.revision && intent.prior == receipt.prior
    && intent.reused == None && intent.precommitSha == None && !intent.stagingRemoved
    && receipt.reused.Some?
    && (receipt.reused == Some(false) ==> intent.manifestSha == receipt.manifestSha)
  }

  /** Every stored revision has passed validation under its own name. */
  ghost predicate RevisionsValid(w: World) {
    forall r :: r in w.revisions ==> w.accepts(w.revisions[r], r)
  }

  /** The committed pointers form one chain: each receipt names the revision that was
      current just before, and the last one is current now. */
  ghost predicate LinearHistory(w: World) {
    && (forall i :: 0 <= i < |w.history| ==> Bound(w, w.history[i]))
    && (forall i :: 0 <= i < |w.history| ==>
          w.history[i].receiptSha.receipt.prior == PriorRevision(Last(w.history[..i])))
    && w.pointer == Last(w.history)
  }

  function Last(history: seq<Pointer>): Option<Pointer> {
    if history == [] then None else Some(history[|history| - 1])
  }

  /** Only the lock holder is at work. */
  ghost predicate Exclusive(w: World) {
    forall p :: !At(w, p).Idle? <==> w.lock == Some(p)
  }

  predicate IntentStored(w: World, at: Attempt, revision: string, precommit: Receipt) {
    && precommit.phase == PrecommitIntent && precommit.attempt == at.name
    && precommit.revision == revision && precommit.prior == PriorRevision(at.prior)
    && precommit.reused == None && precommit.precommitSha == None && !precommit.stagingRemoved
    && PrecommitName(at.name) in w.receipts && w.receipts[PrecommitName(at.name)] == precommit
  }

  predicate PromotionStored(w: World, revision: string, precommit: Receipt, reused: bool, manifestSha: Digest) {
    && revision in w.revisions && manifestSha == OfManifest(w.revisions[revision].manifest)
    && (!reused ==> precommit.manifestSha == manifestSha)
  }

  /** What the lock holder knows at each point. */
  predicate Knows(w: World, proc: Proc) {
    match proc
    case Idle => true
    case Locked => true
    case PointerRead(at) => at.prior == w.pointer
    case Staged(at) => at.prior == w.pointer && at.name in w.staging
    case Written(at, _, _) => at.prior == w.pointer && at.name in w.staging
    case Validated(at, revision, payload) =>
      at.prior == w.pointer && at.name in w.staging && w.accepts(payload, revision)
    case Intended(at, revision, payload, precommit) =>
      && at.prior == w.pointer && at.name in w.staging && w.accepts(payload, revision)
      && IntentStored(w, at, revision, precommit) && precommit.manifestSha == OfManifest(payload.manifest)
    case Promoted(at, revision, precommit, reused, manifestSha) =>
      && at.prior == w.pointer && at.name in w.staging
      && IntentStored(w, at, revision, precommit) && PromotionStored(w, revision, precommit, reused, manifestSha)
    case Cleaned(at, revision, precommit, reused, manifestSha) =>
      && at.prior == w.pointer && at.name !in w.staging
      && IntentStored(w, at, revision, precommit) && PromotionStored(w, revision, precommit, reused, manifestSha)
    case Receipted(at, receipt) =>
      && at.prior == w.pointer && at.name !in w.staging
      && receipt.prior == PriorRevision(at.prior) && Bound(w, PointerTo(receipt))
    case Failing(at) => at.prior == w.pointer
    case Releasing(attempt, outcome) =>
      match outcome
      case Refused => attempt.Some? ==> attempt.value.prior == w.pointer
      case Raised(removed) =>
        && attempt.Some? && attempt.value.prior == w.pointer
        && (removed ==> attempt.value.name !in w.staging)
      case PointerWriteFailed => attempt.Some? && attempt.value.prior == w.pointer && attempt.value.name !in w.staging
      case Published(pointer) =>
        && attempt.Some? && w.pointer == Some(pointer) && attempt.value.name !in w.staging
        && pointer.receiptSha.OfReceipt? && pointer.receiptSha.receipt.prior == PriorRevision(attempt.value.prior)
  }

  ghost predicate Inv(w: World) {
    && Exclusive(w)
    && RevisionsValid(w)
    && LinearHistory(w)
    && (w.lock.Some? ==> Knows(w, At(w, w.lock.value)))
  }

  // ----- proofs -----

  /** Nothing stored is lost or overwritten. */
  ghost predicate Grows(w: World, next: World) {
    && next.accepts == w.accepts
    && (forall r :: r in w.revisions ==> r in next.revisions && next.revisions[r] == w.revisions[r])
    && (forall n :: n in w.receipts ==> n in next.receipts && next.receipts[n] == w.receipts[n])
  }

  lemma StepGrows(w: World, e: Event)
    requires Enabled(w, e)
    ensures Grows(w, Apply(w, e))
    ensures w.history <= Apply(w, e).history
    ensures !e.Commit? ==> Apply(w, e).pointer == w.pointer && Apply(w, e).history == w.history
  {
    hide Enabled, Apply, Grows;
    if e.Intend? || e.Promote? || e.WriteReceipt? {
      StoringGrows(w, e);
    } else {
      NothingStored(w, e);
      SameStoreGrows(w, Apply(w, e));
    }
  }

  lemma StoringGrows(w: World, e: Event)
    requires Enabled(w, e) && (e.Intend? || e.Promote? || e.WriteReceipt?)
    ensures Grows(w, Apply(w, e)) && Apply(w, e).pointer == w.pointer && Apply(w, e).history == w.history
  {
  }

  lemma NothingStored(w: World, e: Event)
    requires Enabled(w, e) && !e.Intend? && !e.Promote? && !e.WriteReceipt?
    ensures var next := Apply(w, e);
      && next.accepts == w.accepts && next.revisions == w.revisions && next.receipts == w.receipts
      && w.history <= next.history
    ensures !e.Commit? ==> Apply(w, e).pointer == w.pointer && Apply(w, e).history == w.history
  {
  }

  lemma SameStoreGrows(w: World, next: World)
    requires next.accepts == w.accepts && next.revisions == w.revisions && next.receipts == w.receipts
    ensures Grows(w, next)
  {
  }

  lemma BoundKept(w: World, next: World, pointer: Pointer)
    requires Grows(w, next) && Bound(w, pointer)
    ensures Bound(next, pointer)
  {
  }

  lemma HistoryKept(w: World, next: World)
    requires Grows(w, next) && LinearHistory(w)
    requires next.history == w.history && next.pointer == w.pointer
    ensures LinearHistory(next)
  {
    hide Bound, Grows;
    forall i | 0 <= i < |w.history| ensures Bound(next, w.history[i]) { BoundKept(w, next, w.history[i]); }
  }

  lemma HistoryExtended(w: World, next: World, pointer: Pointer)
    requires Grows(w, next) && LinearHistory(w) && Bound(w, pointer)
    requires pointer.receiptSha.receipt.prior == PriorRevision(w.pointer)
    requires next.history == w.history + [pointer] && next.pointer == Some(pointer)
    ensures LinearHistory(next)
  {
    hide PrecommitBound, Grows;
    var n := |w.history|;
    forall i | 0 <= i <= n
      ensures Bound(next, next.history[i])
      ensures next.history[i].receiptSha.receipt.prior == PriorRevision(Last(next.history[..i]))
    {
      assert next.history[..i] == w.history[..i];
      if i < n {
        assert next.history[i] == w.history[i];
      } else {
        assert w.history[..n] == w.history;
      }
      BoundKept(w, next, next.history[i]);
    }
  }

  lemma ExclusiveKept(w: World, e: Event)
    requires Exclusive(w) && Enabled(w, e)
    ensures Exclusive(Apply(w, e))
    ensures !e.Acquire? ==> w.lock == Some(e.p)
  {
    hide Apply;
    var next := Apply(w, e);
    HolderMoves(w, e);
    forall p ensures !At(next, p).Idle? <==> next.lock == Some(p) {
      assert !At(w, p).Idle? <==> w.lock == Some(p);
    }
  }

  /** A step moves one publisher, which has the lock behind it unless it became idle. */
  lemma HolderMoves(w: World, e: Event)
    requires Enabled(w, e)
    ensures forall p :: p != e.p ==> At(Apply(w, e), p) == At(w, p)
    ensures Apply(w, e).lock == (if e.Acquire? then Some(e.p) else if e.Release? || e.Crash? then None else w.lock)
    ensures At(Apply(w, e), e.p).Idle? <==> e.Release? || e.Crash?
    ensures At(w, e.p).Idle? <==> e.Acquire?
    ensures e.Acquire? ==> w.lock == None
  {
  }

  lemma IntendKnows(w: World, p: Pid)
    requires Enabled(w, Intend(p)) && Knows(w, At(w, p))
    ensures Knows(Apply(w, Intend(p)), At(Apply(w, Intend(p)), p))
  {
    hide Bound;
  }

  lemma PromoteKnows(w: World, p: Pid)
    requires Enabled(w, Promote(p)) && Knows(w, At(w, p))
    ensures Knows(Apply(w, Promote(p)), At(Apply(w, Promote(p)), p))
  {
    hide Bound;
  }

  lemma CleanKnows(w: World, p: Pid)
    requires Enabled(w, Clean(p)) && Knows(w, At(w, p))
    ensures Knows(Apply(w, Clean(p)), At(Apply(w, Clean(p)), p))
  {
    hide Bound;
  }

  lemma ReceiptKnows(w: World, p: Pid)
    requires Enabled(w, WriteReceipt(p)) && Knows(w, At(w, p))
    ensures Knows(Apply(w, WriteReceipt(p)), At(Apply(w, WriteReceipt(p)), p))
  {
    ReceiptBinds(w, p);
    hide Bound;
  }

  lemma OtherwiseKnows(w: World, e: Event)
    requires Enabled(w, e) && Knows(w, At(w, e.p))
    requires !e.Intend? && !e.Promote? && !e.Clean? && !e.WriteReceipt?
    ensures Knows(Apply(w, e), At(Apply(w, e), e.p))
  {
    hide Bound, IntentStored, PromotionStored;
  }

  lemma RevisionsKept(w: World, e: Event)
    requires RevisionsValid(w) && Enabled(w, e) && Knows(w, At(w, e.p))
    ensures RevisionsValid(Apply(w, e))
  {
    hide Bound;
  }

  lemma KnowledgeKept(w: World, e: Event)
    requires Enabled(w, e) && Knows(w, At(w, e.p)) && RevisionsValid(w)
    ensures Knows(Apply(w, e), At(Apply(w, e), e.p))
  {
    hide Apply, Enabled, Knows, RevisionsValid;
    if e.Intend? {
      IntendKnows(w, e.p);
    } else if e.Promote? {
      PromoteKnows(w, e.p);
    } else if e.Clean? {
      CleanKnows(w, e.p);
    } else if e.WriteReceipt? {
      ReceiptKnows(w, e.p);
    } else {
      OtherwiseKnows(w, e);
    }
  }

  /** A publication receipt names stored evidence when it is written. */
  lemma ReceiptBinds(w: World, p: Pid)
    requires Enabled(w, WriteReceipt(p)) && Knows(w, At(w, p))
    ensures var next := Apply(w, WriteReceipt(p));
      At(next, p).Receipted? && Bound(next, PointerTo(At(next, p).receipt))
  {
    LongerName(At(w, p).at.name);
  }

  lemma InvKept(w: World, e: Event)
    requires Inv(w) && Enabled(w, e)
    ensures Inv(Apply(w, e))
  {
    hide Apply, Enabled, Exclusive, RevisionsValid, LinearHistory, Knows, Bound, Grows;
    var next := Apply(w, e);
    HolderKnows(w, e);
    ExclusiveKept(w, e);
    RevisionsKept(w, e);
    KnowledgeKept(w, e);
    StepGrows(w, e);
    if e.Commit? {
      CommitShape(w, e.p);
      HistoryExtended(w, next, PointerTo(At(w, e.p).receipt));
    } else {
      HistoryKept(w, next);
    }
    NewHolderKnows(w, e);
  }

  /** Who moves is idle or has the lock, and so knows what the lock holder knows. */
  lemma HolderKnows(w: World, e: Event)
    requires Inv(w) && Enabled(w, e)
    ensures Knows(w, At(w, e.p))
  {
    hide RevisionsValid, LinearHistory, Bound;
    assert !At(w, e.p).Idle? <==> w.lock == Some(e.p);
  }

  lemma NewHolderKnows(w: World, e: Event)
    requires Inv(w) && Enabled(w, e) && Knows(Apply(w, e), At(Apply(w, e), e.p))
    ensures Apply(w, e).lock.Some? ==> Knows(Apply(w, e), At(Apply(w, e), Apply(w, e).lock.value))
  {
    hide Apply, Knows, RevisionsValid, LinearHistory;
    HolderMoves(w, e);
    assert !At(w, e.p).Idle? <==> w.lock == Some(e.p);
  }

  lemma CommitShape(w: World, p: Pid)
    requires Enabled(w, Commit(p)) && Knows(w, At(w, p))
    ensures At(w, p).Receipted?
    ensures var pointer, next := PointerTo(At(w, p).receipt), Apply(w, Commit(p));
      && Bound(w, pointer) && pointer.receiptSha.OfReceipt?
      && pointer.receiptSha.receipt.prior == PriorRevision(w.pointer)
      && next.history == w.history + [pointer] && next.pointer == Some(pointer)
  {
    hide Bound;
  }

  lemma CommitKeepsRest(w: World, p: Pid)
    requires Enabled(w, Commit(p))
    ensures var pointer, next := PointerTo(At(w, p).receipt), Apply(w, Commit(p));
      && At(next, p) == Releasing(Some(At(w, p).at), Published(pointer))
      && next.lock == w.lock && next.staging == w.staging
  {
  }

  lemma {:induction false} RunKeepsInv(w: World, events: seq<Event>)
    requires Inv(w) && Legal(w, events)
    ensures Inv(Run(w, events))
    decreases events
  {
    hide Inv, Enabled, Apply;
    if events != [] {
      InvKept(w, events[0]);
      RunKeepsInv(Apply(w, events[0]), events[1..]);
    }
  }

  lemma EmptyIsFine(accepts: Validator)
    ensures Inv(EmptyRoot(accepts))
  {
  }

  /** After any interleaving of publishers, failures and crashes, the current pointer is
      absent or bound, and so was every pointer committed before it. */
  lemma {:induction false} EveryPointerIsBound(accepts: Validator, events: seq<Event>)
    requires Legal(EmptyRoot(accepts), events)
    ensures var w := Run(EmptyRoot(accepts), events);
      && (w.pointer.Some? ==> Bound(w, w.pointer.value))
      && RevisionsValid(w) && LinearHistory(w) && w.accepts == accepts
  {
    hide Bound, Inv, RevisionsValid, Legal, Enabled, Grows, LinearHistory;
    EmptyIsFine(accepts);
    RunKeepsInv(EmptyRoot(accepts), events);
    RunGrows(EmptyRoot(accepts), events);
    SameValidator(EmptyRoot(accepts), Run(EmptyRoot(accepts), events));
    InvGivesHistory(Run(EmptyRoot(accepts), events));
    if Run(EmptyRoot(accepts), events).pointer.Some? { CurrentIsBound(Run(EmptyRoot(accepts), events)); }
  }

  /** Over all runs: each publication receipt names the revision of the pointer committed just
      before it, the first one none, and the last committed pointer is the current one. */
  lemma {:induction false} ChainOfPriors(accepts: Validator, events: seq<Event>, i: nat)
    requires Legal(EmptyRoot(accepts), events)
    ensures var w := Run(EmptyRoot(accepts), events);
      && (w.history == [] ==> w.pointer == None)
      && (w.history != [] ==> w.pointer == Some(w.history[|w.history| - 1]))
      && (i < |w.history| ==>
            && w.history[i].receiptSha.OfReceipt?
            && w.history[i].receiptSha.receipt.prior == if i == 0 then None else Some(w.history[i - 1].revision))
  {
    hide Legal, Run, RevisionsValid, PrecommitBound;
    EveryPointerIsBound(accepts, events);
    var w := Run(EmptyRoot(accepts), events);
    if i < |w.history| {
      assert Bound(w, w.history[i]);
      if i > 0 { assert w.history[..i][|w.history[..i]| - 1] == w.history[i - 1]; }
    }
  }

  lemma SameValidator(w: World, next: World)
    requires Grows(w, next)
    ensures next.accepts == w.accepts
  {
  }

  lemma CurrentIsBound(w: World)
    requires LinearHistory(w) && w.pointer.Some?
    ensures Bound(w, w.pointer.value)
  {
    hide Bound;
    assert w.pointer.value == w.history[|w.history| - 1];
  }

  lemma InvGivesHistory(w: World)
    requires Inv(w)
    ensures RevisionsValid(w) && LinearHistory(w) && Exclusive(w)
  {
  }

  lemma GrowsItself(w: World)
    ensures Grows(w, w)
  {
  }

  lemma GrowsTransitive(a: World, b: World, c: World)
    requires Grows(a, b) && Grows(b, c)
    ensures Grows(a, c)
  {
  }

  /** Stored revisions and receipts, and committed pointers, are there for good. */
  lemma {:induction false} RunGrows(w: World, events: seq<Event>)
    requires Legal(w, events)
    ensures Grows(w, Run(w, events)) && w.history <= Run(w, events).history
    decreases events
  {
    hide Grows, Enabled, Apply;
    if events == [] {
      GrowsItself(w);
    } else {
      var next := Apply(w, events[0]);
      StepGrows(w, events[0]);
      RunGrows(next, events[1..]);
      GrowsTransitive(w, next, Run(next, events[1..]));
    }
  }

  // ----- promoted or reused -----

  predicate NamedIn(history: seq<Pointer>, revision: string) {
    exists i :: 0 <= i < |history| && history[i].revision == revision
  }

  /** A receipt that says `promoted` names a revision that was not published before. */
  ghost predicate FreshTold(history: seq<Pointer>) {
    forall i :: 0 <= i < |history| && history[i].receiptSha.OfReceipt?
                && history[i].receiptSha.receipt.reused != Some(true) ==>
      !NamedIn(history[..i], history[i].revision)
  }

  /** The same of the revision that the lock holder has promoted. */
  predicate HolderFresh(w: World, proc: Proc) {
    match proc
    case Promoted(_, revision, _, reused, _) => reused || !NamedIn(w.history, revision)
    case Cleaned(_, revision, _, reused, _) => reused || !NamedIn(w.history, revision)
    case Receipted(_, receipt) => receipt.reused == Some(true) || !NamedIn(w.history, receipt.revision)
    case _ => true
  }

  ghost predicate Fresh(w: World) {
    FreshTold(w.history) && (w.lock.Some? ==> HolderFresh(w, At(w, w.lock.value)))
  }

  lemma PublishedIsStored(w: World, revision: string)
    requires LinearHistory(w) && NamedIn(w.history, revision)
    ensures revision in w.revisions
  {
    hide PrecommitBound;
  }

  lemma FreshTold1(history: seq<Pointer>, pointer: Pointer)
    requires FreshTold(history) && pointer.receiptSha.OfReceipt?
    requires pointer.receiptSha.receipt.reused == Some(true) || !NamedIn(history, pointer.revision)
    ensures FreshTold(history + [pointer])
  {
    hide NamedIn;
    var all := history + [pointer];
    forall i | 0 <= i < |all| && all[i].receiptSha.OfReceipt? && all[i].receiptSha.receipt.reused != Some(true)
      ensures !NamedIn(all[..i], all[i].revision)
    {
      assert all[..i] == history[..i];
      assert i == |history| ==> history[..i] == history;
    }
  }

  lemma HolderStaysFresh(w: World, e: Event)
    requires Enabled(w, e) && HolderFresh(w, At(w, e.p)) && LinearHistory(w)
    ensures HolderFresh(Apply(w, e), At(Apply(w, e), e.p))
  {
    hide NamedIn, LinearHistory;
    if e.Promote? && NamedIn(w.history, At(w, e.p).revision) { PublishedIsStored(w, At(w, e.p).revision); }
  }

  lemma FreshKept(w: World, e: Event)
    requires Inv(w) && Fresh(w) && Enabled(w, e)
    ensures Fresh(Apply(w, e))
  {
    hide Apply, Enabled, HolderFresh, FreshTold, Knows, LinearHistory, RevisionsValid;
    InvGivesHistory(w);
    HolderMoves(w, e);
    HolderKnows(w, e);
    IdleIsFresh(w, e.p);
    assert !At(w, e.p).Idle? <==> w.lock == Some(e.p);
    HolderStaysFresh(w, e);
    StepGrows(w, e);
    if e.Commit? { CommitStaysFresh(w, e.p); }
  }

  lemma IdleIsFresh(w: World, p: Pid)
    ensures At(w, p).Idle? ==> HolderFresh(w, At(w, p))
  {
  }

  lemma CommitStaysFresh(w: World, p: Pid)
    requires FreshTold(w.history) && HolderFresh(w, At(w, p)) && Enabled(w, Commit(p)) && Knows(w, At(w, p))
    ensures FreshTold(Apply(w, Commit(p)).history)
  {
    hide FreshTold, NamedIn, Bound, Apply, Enabled;
    CommitShape(w, p);
    FreshTold1(w.history, PointerTo(At(w, p).receipt));
  }

  lemma {:induction false} RunStaysFresh(w: World, events: seq<Event>)
    requires Inv(w) && Fresh(w) && Legal(w, events)
    ensures Fresh(Run(w, events))
    decreases events
  {
    hide Inv, Enabled, Apply, Fresh;
    if events != [] {
      InvKept(w, events[0]);
      FreshKept(w, events[0]);
      RunStaysFresh(Apply(w, events[0]), events[1..]);
    }
  }

  /** Over all runs: of two publications of one revision, the receipt of the later says that
      it was reused. */
  lemma {:induction false} RepublishedIsReused(accepts: Validator, events: seq<Event>, i: nat, j: nat)
    requires Legal(EmptyRoot(accepts), events) && i < j < |Run(EmptyRoot(accepts), events).history|
    ensures var history := Run(EmptyRoot(accepts), events).history;
      && history[j].receiptSha.OfReceipt?
      && (history[i].revision == history[j].revision ==> history[j].receiptSha.receipt.reused == Some(true))
  {
    hide Legal, Enabled, Apply, Inv, Run, RevisionsValid, Knows, PrecommitBound;
    var w := Run(EmptyRoot(accepts), events);
    EmptyIsFine(accepts);
    RunKeepsInv(EmptyRoot(accepts), events);
    RunStaysFresh(EmptyRoot(accepts), events);
    InvGivesHistory(w);
    assert Bound(w, w.history[j]);
    if w.history[i].revision == w.history[j].revision {
      assert w.history[..j][i] == w.history[i];
      assert NamedIn(w.history[..j], w.history[j].revision);
    }
  }

  /** What one attempt says about reuse, against what was stored when its publisher got the
      lock. */
  predicate ReuseTold(before: World, w: World, p: Pid) {
    match At(w, p)
    case Idle => true
    case Promoted(_, revision, _, reused, _) => reused == (revision in before.revisions)
    case Cleaned(_, revision, _, reused, _) => reused == (revision in before.revisions)
    case Receipted(_, receipt) => receipt.reused == Some(receipt.revision in before.revisions)
    case Failing(_) => true
    case Releasing(_, outcome) =>
      outcome.Published? && outcome.pointer.receiptSha.OfReceipt? ==>
        outcome.pointer.receiptSha.receipt.reused == Some(outcome.pointer.revision in before.revisions)
    case _ => w.revisions == before.revisions
  }

  lemma ReuseKept(before: World, w: World, e: Event)
    requires ReuseTold(before, w, e.p) && Enabled(w, e)
    requires At(w, e.p).Idle? ==> w.revisions == before.revisions
    ensures ReuseTold(before, Apply(w, e), e.p)
  {
    hide Apply, Enabled, ReuseTold;
    if e.Promote? || e.Clean? || e.WriteReceipt? || e.Commit? {
      ReuseHandedOn(before, w, e);
    } else {
      ReuseUndecided(before, w, e);
    }
  }

  lemma ReuseHandedOn(before: World, w: World, e: Event)
    requires ReuseTold(before, w, e.p) && Enabled(w, e) && (e.Promote? || e.Clean? || e.WriteReceipt? || e.Commit?)
    ensures ReuseTold(before, Apply(w, e), e.p)
  {
  }

  lemma ReuseUndecided(before: World, w: World, e: Event)
    requires ReuseTold(before, w, e.p) && Enabled(w, e) && !e.Promote? && !e.Clean? && !e.WriteReceipt? && !e.Commit?
    requires At(w, e.p).Idle? ==> w.revisions == before.revisions
    ensures ReuseTold(before, Apply(w, e), e.p)
  {
  }

  // ----- what one attempt does -----

  /** How the pointer and the staging area compare with what they were when publisher
      `p` got the lock. */
  predicate Effect(before: World, w: World, p: Pid) {
    && w.lock == Some(p)
    && match At(w, p)
       case Idle => false
       case Locked => Untouched(before, w)
       case PointerRead(_) => Untouched(before, w)
       case Staged(at) => ChildAdded(before, w, at.name)
       case Written(at, _, _) => ChildAdded(before, w, at.name)
       case Validated(at, _, _) => ChildAdded(before, w, at.name)
       case Intended(at, _, _, _) => ChildAdded(before, w, at.name)
       case Promoted(at, _, _, _, _) => ChildAdded(before, w, at.name)
       case Cleaned(at, _, _, _, _) => Untouched(before, w) && at.name !in before.staging
       case Receipted(at, _) => Untouched(before, w) && at.name !in before.staging
       case Failing(at) => (Untouched(before, w) && at.name !in before.staging) || ChildAdded(before, w, at.name)
       case Releasing(attempt, outcome) =>
         match outcome
         case Refused => Untouched(before, w) || (attempt.Some? && ChildAdded(before, w, attempt.value.name))
         case Raised(removed) =>
           attempt.Some? && (Untouched(before, w) || (!removed && ChildAdded(before, w, attempt.value.name)))
         case PointerWriteFailed => Untouched(before, w)
         case Published(pointer) =>
           && w.pointer == Some(pointer) && w.history == before.history + [pointer] && w.staging == before.staging
           && pointer.receiptSha.OfReceipt?
           && pointer.receiptSha.receipt.prior == PriorRevision(before.pointer)
           && pointer.receiptSha.receipt.reused == Some(pointer.revision in before.revisions)
  }

  predicate SamePointer(before: World, w: World) {
    w.pointer == before.pointer && w.history == before.history
  }

  predicate Untouched(before: World, w: World) {
    SamePointer(before, w) && w.staging == before.staging
  }

  predicate ChildAdded(before: World, w: World, name: string) {
    SamePointer(before, w) && name !in before.staging && w.staging == before.staging + {name}
  }

  lemma EffectKept(before: World, w: World, e: Event)
    requires Effect(before, w, e.p) && ReuseTold(before, w, e.p) && Enabled(w, e) && Knows(w, At(w, e.p)) && !e.Release?
    requires !e.Crash?
    ensures Effect(before, Apply(w, e), e.p)
  {
    hide Apply, Enabled, Knows, Effect, ReuseTold;
    if e.Commit? {
      CommitEffect(before, w, e.p);
    } else {
      OtherEffect(before, w, e);
    }
  }

  lemma CommitEffect(before: World, w: World, p: Pid)
    requires Effect(before, w, p) && ReuseTold(before, w, p) && Enabled(w, Commit(p)) && Knows(w, At(w, p))
    ensures Effect(before, Apply(w, Commit(p)), p)
  {
    hide Knows, Bound, Enabled, Apply, PriorRevision;
    CommitShape(w, p);
    CommitKeepsRest(w, p);
  }

  lemma StagingEffect(before: World, w: World, e: Event)
    requires Effect(before, w, e.p) && Enabled(w, e) && (e.Stage? || e.StageBreaks? || e.Clean? || e.CleanUp?)
    ensures Effect(before, Apply(w, e), e.p)
  {
  }

  lemma QuietEffect(before: World, w: World, e: Event)
    requires Effect(before, w, e.p) && Enabled(w, e) && !e.Release? && !e.Crash? && !e.Commit?
    requires !e.Stage? && !e.StageBreaks? && !e.Clean? && !e.CleanUp?
    ensures Effect(before, Apply(w, e), e.p)
  {
    hide ChildAdded, Untouched;
    SameRoot(w, e);
    SameRootEffect(before, w, Apply(w, e));
  }

  lemma SameRoot(w: World, e: Event)
    requires Enabled(w, e) && !e.Release? && !e.Crash? && !e.Commit?
    requires !e.Stage? && !e.StageBreaks? && !e.Clean? && !e.CleanUp?
    ensures var next := Apply(w, e); next.pointer == w.pointer && next.history == w.history && next.staging == w.staging
  {
  }

  lemma SameRootEffect(before: World, w: World, next: World)
    requires next.pointer == w.pointer && next.history == w.history && next.staging == w.staging
    ensures Untouched(before, w) <==> Untouched(before, next)
    ensures forall name :: ChildAdded(before, w, name) <==> ChildAdded(before, next, name)
  {
  }

  lemma OtherEffect(before: World, w: World, e: Event)
    requires Effect(before, w, e.p) && Enabled(w, e) && !e.Release? && !e.Crash? && !e.Commit?
    ensures Effect(before, Apply(w, e), e.p)
  {
    hide Apply, Enabled, Effect;
    if e.Stage? || e.StageBreaks? || e.Clean? || e.CleanUp? {
      StagingEffect(before, w, e);
    } else {
      QuietEffect(before, w, e);
    }
  }

  lemma EffectHolds(before: World, w: World, p: Pid)
    requires Effect(before, w, p)
    ensures w.lock == Some(p)
  {
  }

  lemma OthersWait(w: World, e: Event, p: Pid)
    requires Exclusive(w) && w.lock == Some(p) && Enabled(w, e)
    ensures e.p == p
  {
    assert At(w, e.p).Idle? || w.lock == Some(e.p);
  }

  /** Whatever happens between taking the lock and giving it back, the attempt leaves
      the pointer it found or publishes exactly one pointer that names it as its prior and
      says whether its revision was stored before, and its staging child is gone unless
      cleaning up failed. */
  lemma {:induction false} AttemptEffect(before: World, w: World, p: Pid, events: seq<Event>)
    requires Inv(w) && Effect(before, w, p) && ReuseTold(before, w, p) && Legal(w, events)
    requires forall e :: e in events && e.p == p ==> !e.Release? && !e.Crash?
    ensures Effect(before, Run(w, events), p) && (forall e :: e in events ==> e.p == p)
    decreases events
  {
    hide Effect, ReuseTold, Inv, Enabled, Apply, Exclusive, RevisionsValid, LinearHistory, Knows;
    if events != [] {
      var e := events[0];
      HolderKnows(w, e);
      InvGivesHistory(w);
      EffectHolds(before, w, p);
      OthersWait(w, e, p);
      EffectKept(before, w, e);
      NotIdle(before, w, p);
      ReuseKept(before, w, e);
      InvKept(w, e);
      AttemptEffect(before, Apply(w, e), p, events[1..]);
      assert events == [e] + events[1..];
    }
  }

  lemma NotIdle(before: World, w: World, p: Pid)
    requires Effect(before, w, p)
    ensures !At(w, p).Idle?
  {
  }

  lemma AttemptStarts(w: World, p: Pid)
    requires At(w, p).Locked? && w.lock == Some(p)
    ensures Effect(w, w, p) && ReuseTold(w, w, p)
  {
  }

  /** An attempt that raises inside the staged block. */
  lemma {:induction false} RaisedAttempt(w: World, p: Pid, events: seq<Event>)
    requires Inv(w) && At(w, p).Locked? && Legal(w, events)
    requires forall e :: e in events && e.p == p ==> !e.Release? && !e.Crash?
    requires At(Run(w, events), p).Releasing? && At(Run(w, events), p).outcome.Raised?
    ensures var after := Run(w, events);
      && after.pointer == w.pointer && after.history == w.history && Grows(w, after)
      && (At(after, p).outcome.stagingRemoved ==> after.staging == w.staging)
  {
    hide Inv, Legal, Run, Grows, RevisionsValid, LinearHistory, Knows, Enabled, Apply;
    InvGivesHistory(w);
    assert !At(w, p).Idle? <==> w.lock == Some(p);
    AttemptStarts(w, p);
    AttemptEffect(w, w, p, events);
    RunGrows(w, events);
  }

  lemma {:induction false} RunSnoc(w: World, events: seq<Event>, e: Event)
    requires Legal(w, events) && Enabled(Run(w, events), e)
    ensures Legal(w, events + [e]) && Run(w, events + [e]) == Apply(Run(w, events), e)
    decreases events
  {
    hide Enabled, Apply;
    if events == [] {
      assert [] + [e] == [e] && [e][1..] == [];
    } else {
      RunSnoc(Apply(w, events[0]), events[1..], e);
      assert (events + [e])[1..] == events[1..] + [e];
    }
  }

  lemma {:induction false} RunConcat(w: World, first: seq<Event>, second: seq<Event>)
    requires Legal(w, first) && Legal(Run(w, first), second)
    ensures Legal(w, first + second) && Run(w, first + second) == Run(Run(w, first), second)
    decreases first
  {
    hide Enabled, Apply;
    if first == [] {
      assert [] + second == second;
    } else {
      RunConcat(Apply(w, first[0]), first[1..], second);
      assert (first + second)[1..] == first[1..] + second;
    }
  }

  // ----- a publisher that is alone -----

  /** A run of publisher `p` alone that has brought `start` to `w`. */
  ghost predicate Reached(start: World, events: seq<Event>, w: World, p: Pid) {
    && Legal(start, events) && Run(start, events) == w
    && forall e :: e in events ==> e.p == p && !e.Release? && !e.Crash?
  }

  lemma Started(w: World, p: Pid)
    ensures Reached(w, [], w, p)
  {
  }

  /** One more step. */
  lemma Advance(start: World, events: seq<Event>, w: World, e: Event, next: World)
    requires Reached(start, events, w, e.p) && Enabled(w, e) && !e.Release? && !e.Crash?
    requires next == Apply(w, e)
    ensures Reached(start, events + [e], next, e.p)
  {
    hide Legal, Run, Enabled, Apply;
    RunSnoc(start, events, e);
  }

  /** What the steps before the `try` block make of the export directory while nobody else is around. */
  lemma AloneStarts(w: World, p: Pid, proc: Proc)
    requires w.procs == map[p := proc] && w.lock == Some(p)
    ensures forall name :: proc.Locked? ==>
      && Enabled(w, ReadPointer(p, name))
      && Apply(w, ReadPointer(p, name)) == w.(procs := map[p := PointerRead(Attempt(name, w.pointer))])
    ensures proc.PointerRead? ==>
      && Enabled(w, Refuse(p))
      && Apply(w, Refuse(p)) == w.(procs := map[p := Releasing(Some(proc.at), Refused)])
    ensures proc.PointerRead? && proc.at.name !in w.staging ==>
      && Enabled(w, Stage(p)) && Enabled(w, StageBreaks(p))
      && Apply(w, Stage(p)) == w.(procs := map[p := Staged(proc.at)], staging := w.staging + {proc.at.name})
      && Apply(w, StageBreaks(p)) ==
           w.(procs := map[p := Releasing(Some(proc.at), Refused)], staging := w.staging + {proc.at.name})
  {
  }

  /** Building and validating. */
  lemma AloneBuilds(w: World, p: Pid, proc: Proc)
    requires w.procs == map[p := proc] && w.lock == Some(p)
    ensures forall revision, payload :: proc.Staged? ==>
      && Enabled(w, Write(p, revision, payload))
      && Apply(w, Write(p, revision, payload)) == w.(procs := map[p := Written(proc.at, revision, payload)])
    ensures proc.Written? && w.accepts(proc.payload, proc.revision) ==>
      && Enabled(w, Validate(p))
      && Apply(w, Validate(p)) == w.(procs := map[p := Validated(proc.at, proc.revision, proc.payload)])
  {
  }

  /** The exception path. */
  lemma AloneFails(w: World, p: Pid, proc: Proc)
    requires w.procs == map[p := proc] && w.lock == Some(p)
    ensures InStagedBlock(proc) ==>
      && Enabled(w, Raise(p))
      && Apply(w, Raise(p)) == w.(procs := map[p := Failing(proc.at)])
    ensures proc.Failing? ==>
      && Enabled(w, CleanUpFails(p)) && Enabled(w, CleanUp(p))
      && Apply(w, CleanUpFails(p)) == w.(procs := map[p := Releasing(Some(proc.at), Raised(false))])
      && Apply(w, CleanUp(p)) ==
           w.(procs := map[p := Releasing(Some(proc.at), Raised(true))], staging := w.staging - {proc.at.name})
  {
  }

  /** Precommit intent and promotion. */
  lemma AloneStores(w: World, p: Pid, proc: Proc)
    requires w.procs == map[p := proc] && w.lock == Some(p)
    ensures proc.Validated? && PrecommitName(proc.at.name) !in w.receipts ==>
      var receipt := PrecommitReceipt(proc.at, proc.revision, proc.payload);
      && Enabled(w, Intend(p))
      && Apply(w, Intend(p)) == w.(procs := map[p := Intended(proc.at, proc.revision, proc.payload, receipt)],
                                   receipts := w.receipts[PrecommitName(proc.at.name) := receipt])
    ensures proc.Intended? && proc.revision in w.revisions && w.accepts(w.revisions[proc.revision], proc.revision) ==>
      && Enabled(w, Promote(p))
      && Apply(w, Promote(p)) ==
           w.(procs := map[p := Promoted(proc.at, proc.revision, proc.precommit, true,
                                         OfManifest(w.revisions[proc.revision].manifest))])
    ensures proc.Intended? && proc.revision !in w.revisions ==>
      && Enabled(w, Promote(p))
      && Apply(w, Promote(p)) ==
           w.(procs := map[p := Promoted(proc.at, proc.revision, proc.precommit, false,
                                         OfManifest(proc.payload.manifest))],
              revisions := w.revisions[proc.revision := proc.payload])
  {
  }

  /** From the cleaned staging area to the commit. */
  lemma AloneCleans(w: World, p: Pid, proc: Proc)
    requires w.procs == map[p := proc] && w.lock == Some(p) && proc.Promoted?
    ensures Enabled(w, Clean(p))
    ensures Apply(w, Clean(p)) ==
      w.(procs := map[p := Cleaned(proc.at, proc.revision, proc.precommit, proc.reused, proc.manifestSha)],
         staging := w.staging - {proc.at.name})
  {
  }

  lemma AloneWritesReceipt(w: World, p: Pid, proc: Proc)
    requires w.procs == map[p := proc] && w.lock == Some(p) && proc.Cleaned?
    ensures proc.at.name !in w.receipts ==>
      var receipt := PublicationReceipt(proc.at, proc.revision, proc.precommit, proc.reused, proc.manifestSha);
      && Enabled(w, WriteReceipt(p))
      && Apply(w, WriteReceipt(p)) ==
           w.(procs := map[p := Receipted(proc.at, receipt)], receipts := w.receipts[proc.at.name := receipt])
  {
  }

  lemma AloneCommits(w: World, p: Pid, proc: Proc)
    requires w.procs == map[p := proc] && w.lock == Some(p) && proc.Receipted?
    ensures var pointer := PointerTo(proc.receipt);
      && Enabled(w, PointerFails(p)) && Enabled(w, Commit(p))
      && Apply(w, PointerFails(p)) == w.(procs := map[p := Releasing(Some(proc.at), PointerWriteFailed)])
      && Apply(w, Commit(p)) == w.(procs := map[p := Releasing(Some(proc.at), Published(pointer))],
                                   pointer := Some(pointer), history := w.history + [pointer])
  {
  }

  // ----- crashes -----

  /** A publisher can crash wherever it is; the lock goes, and every file stays as it is. */
  lemma CrashLeavesFiles(w: World, p: Pid)
    requires !At(w, p).Idle?
    ensures Enabled(w, Crash(p))
    ensures Apply(w, Crash(p)) == w.(lock := None, procs := w.procs[p := Idle])
  {
  }

  /** So can any of its steps before the commit raise, as long as the `try` block is open. */
  lemma EveryStagedStepCanRaise(w: World, p: Pid)
    requires At(w, p).Staged? || At(w, p).Written? || At(w, p).Validated? || At(w, p).Intended?
             || At(w, p).Promoted? || At(w, p).Cleaned? || At(w, p).Receipted?
    ensures Enabled(w, Raise(p)) && Apply(w, Raise(p)) == w.(procs := w.procs[p := Failing(At(w, p).at)])
  {
  }

  // ----- reuse -----

  /** Promotion reuses a stored revision of the same name exactly when there is one, and
      then publishes the stored manifest's digest, not the staged one's. The receipts
      of one attempt can therefore disagree about the manifest, in exactly one case. */
  lemma ReuseDecidesTheDigest(w: World, p: Pid)
    requires Inv(w) && At(w, p).Intended?
    ensures Enabled(w, Promote(p))
    ensures var before, after := At(w, p), At(Apply(w, Promote(p)), p);
      && (after.reused <==> before.revision in w.revisions)
      && (after.manifestSha != before.precommit.manifestSha <==>
          before.revision in w.revisions && w.revisions[before.revision].manifest != before.payload.manifest)
  {
    hide LinearHistory, Bound, RevisionsValid;
    assert !At(w, p).Idle? <==> w.lock == Some(p);
    assert Knows(w, At(w, p));
    StoredIsValid(w);
  }

  lemma StoredIsValid(w: World)
    requires Inv(w)
    ensures forall r :: r in w.revisions ==> w.accepts(w.revisions[r], r)
  {
  }

  lemma LongerName(name: string)
    ensures PrecommitName(name) != name
  {
    assert |PrecommitName(name)| == |name| + 10;
  }
}
