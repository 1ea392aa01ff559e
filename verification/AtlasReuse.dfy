/**
 Two attempts at one revision: the second one reuses what the first one stored, and its
 two receipts name different manifests (`_publish_locked` in quant_data/atlas/exporter.py).
 */
module AtlasReuse {
  import opened Wrappers
  import opened Digits
  import opened PublicRows
  import opened PublicChunks
  import opened PublicPayload
  import opened AtlasPublication
  import opened AtlasExportRoot
  import Json
  import M = ManifestTotal

  /** Nobody is at work, and `p` is the only publisher there has been. */
  predicate Quiet(w: World, p: Pid) {
    w.lock == None && (w.procs == map[] || w.procs == map[p := Idle])
  }

  function IntentOf(at: Attempt, revision: string, payload: Payload): Receipt {
    PrecommitReceipt(at, revision, payload)
  }

  /** The publication receipt of an undisturbed attempt. */
  function ReceiptOf(w: World, at: Attempt, revision: string, payload: Payload): Receipt {
    PublicationReceipt(at, revision, IntentOf(at, revision, payload), revision in w.revisions,
                       DigestPublished(w.revisions, revision, payload))
  }

  /** The export directory behind an undisturbed attempt. */
  function Behind(w: World, p: Pid, at: Attempt, revision: string, payload: Payload): World {
    var pointer := PointerTo(ReceiptOf(w, at, revision, payload));
    World(w.accepts, Some(pointer), if revision in w.revisions then w.revisions else w.revisions[revision := payload],
          w.receipts[PrecommitName(at.name) := IntentOf(at, revision, payload)]
                    [at.name := ReceiptOf(w, at, revision, payload)],
          w.staging, None, map[p := Idle], w.history + [pointer])
  }

  predicate NameFree(w: World, name: string) {
    name !in w.staging && name !in w.receipts && PrecommitName(name) !in w.receipts
  }

  /** With the lock, up to the commit. */
  lemma LockedPart(w: World, p: Pid, name: string, revision: string, payload: Payload) returns (events: seq<Event>)
    requires w.procs == map[p := Locked] && w.lock == Some(p) && NameFree(w, name)
    requires w.accepts(payload, revision) && (revision in w.revisions ==> w.accepts(w.revisions[revision], revision))
    ensures var at := Attempt(name, w.pointer);
      var outcome := Published(PointerTo(ReceiptOf(w, at, revision, payload)));
      Reached(w, events, Behind(w, p, at, revision, payload)
                           .(lock := Some(p), procs := map[p := Releasing(Some(at), outcome)]), p)
  {
    hide Reached, Enabled, Apply;
    var at := Attempt(name, w.pointer);
    var w6, seen := UpToPromotion(w, p, name, revision, payload);
    var promoted := At(w6, p);
    AloneCleans(w6, p, promoted);
    var cleaned := Cleaned(at, revision, promoted.precommit, promoted.reused, promoted.manifestSha);
    var w7 := w6.(procs := map[p := cleaned], staging := w6.staging - {name});
    Advance(w, seen, w6, Clean(p), w7);
    LongerName(name);
    events := ReceiptAndCommit(w, seen + [Clean(p)], w7, p, cleaned);
    assert w7.staging == w.staging;
  }

  lemma ReceiptAndCommit(start: World, seen: seq<Event>, w: World, p: Pid, cleaned: Proc) returns (events: seq<Event>)
    requires Reached(start, seen, w, p) && w.procs == map[p := cleaned] && w.lock == Some(p)
    requires cleaned.Cleaned? && cleaned.at.name !in w.receipts
    ensures var at := cleaned.at;
      var receipt := PublicationReceipt(at, cleaned.revision, cleaned.precommit, cleaned.reused, cleaned.manifestSha);
      var pointer := PointerTo(receipt);
      Reached(start, events,
              w.(procs := map[p := Releasing(Some(at), Published(pointer))], receipts := w.receipts[at.name := receipt],
                 pointer := Some(pointer), history := w.history + [pointer]), p)
  {
    hide Reached, Enabled, Apply;
    var at := cleaned.at;
    var receipt := PublicationReceipt(at, cleaned.revision, cleaned.precommit, cleaned.reused, cleaned.manifestSha);
    AloneWritesReceipt(w, p, cleaned);
    var stored := w.(procs := map[p := Receipted(at, receipt)], receipts := w.receipts[at.name := receipt]);
    Advance(start, seen, w, WriteReceipt(p), stored);
    AloneCommits(stored, p, Receipted(at, receipt));
    Advance(start, seen + [WriteReceipt(p)], stored, Commit(p), Apply(stored, Commit(p)));
    events := seen + [WriteReceipt(p)] + [Commit(p)];
  }

  lemma UpToPromotion(w: World, p: Pid, name: string, revision: string, payload: Payload)
    returns (next: World, events: seq<Event>)
    requires w.procs == map[p := Locked] && w.lock == Some(p) && NameFree(w, name)
    requires w.accepts(payload, revision) && (revision in w.revisions ==> w.accepts(w.revisions[revision], revision))
    ensures Reached(w, events, next, p)
    ensures var at := Attempt(name, w.pointer);
      next == w.(procs := map[p := Promoted(at, revision, IntentOf(at, revision, payload), revision in w.revisions,
                                            DigestPublished(w.revisions, revision, payload))],
                 staging := w.staging + {name},
                 receipts := w.receipts[PrecommitName(name) := IntentOf(at, revision, payload)],
                 revisions := if revision in w.revisions then w.revisions else w.revisions[revision := payload])
  {
    hide Reached, Enabled, Apply;
    var at := Attempt(name, w.pointer);
    var w3, seen := UpToValidation(w, p, name, revision, payload);
    AloneStores(w3, p, Validated(at, revision, payload));
    var intent := IntentOf(at, revision, payload);
    var w5 := w3.(procs := map[p := Intended(at, revision, payload, intent)],
                  receipts := w3.receipts[PrecommitName(name) := intent]);
    Advance(w, seen, w3, Event.Intend(p), w5);
    AloneStores(w5, p, Intended(at, revision, payload, intent));
    next := Apply(w5, Event.Promote(p));
    Advance(w, seen + [Event.Intend(p)], w5, Event.Promote(p), next);
    events := seen + [Event.Intend(p)] + [Event.Promote(p)];
  }

  lemma UpToValidation(w: World, p: Pid, name: string, revision: string, payload: Payload)
    returns (next: World, events: seq<Event>)
    requires w.procs == map[p := Locked] && w.lock == Some(p) && name !in w.staging && w.accepts(payload, revision)
    ensures Reached(w, events, next, p)
    ensures next == w.(procs := map[p := Validated(Attempt(name, w.pointer), revision, payload)],
                       staging := w.staging + {name})
  {
    hide Reached, Enabled, Apply;
    var at := Attempt(name, w.pointer);
    Started(w, p);
    AloneStarts(w, p, Locked);
    var w1 := w.(procs := map[p := PointerRead(at)]);
    Advance(w, [], w, ReadPointer(p, name), w1);
    AloneStarts(w1, p, PointerRead(at));
    var w2 := w1.(procs := map[p := Staged(at)], staging := w1.staging + {name});
    Advance(w, [] + [ReadPointer(p, name)], w1, Event.Stage(p), w2);
    AloneBuilds(w2, p, Staged(at));
    var w3 := w2.(procs := map[p := Written(at, revision, payload)]);
    Advance(w, [] + [ReadPointer(p, name)] + [Event.Stage(p)], w2, Write(p, revision, payload), w3);
    AloneBuilds(w3, p, Written(at, revision, payload));
    next := w3.(procs := map[p := Validated(at, revision, payload)]);
    events := [] + [ReadPointer(p, name)] + [Event.Stage(p)] + [Write(p, revision, payload)];
    Advance(w, events, w3, Validate(p), next);
    events := events + [Validate(p)];
  }

  /** A whole undisturbed attempt, from taking the lock to giving it back. */
  lemma UndisturbedAttempt(w: World, p: Pid, name: string, revision: string, payload: Payload)
    returns (events: seq<Event>)
    requires Quiet(w, p) && NameFree(w, name)
    requires w.accepts(payload, revision) && (revision in w.revisions ==> w.accepts(w.revisions[revision], revision))
    ensures Legal(w, events) && Run(w, events) == Behind(w, p, Attempt(name, w.pointer), revision, payload)
  {
    var locked := w.(lock := Some(p), procs := map[p := Locked]);
    TakesLock(w, p);
    var inner := LockedPart(locked, p, name, revision, payload);
    var done := Run(locked, inner);
    GivesLock(done, p);
    hide Enabled, Apply;
    RunSnoc(locked, inner, Release(p));
    events := [Acquire(p)] + (inner + [Release(p)]);
    assert events[1..] == inner + [Release(p)];
  }

  lemma TakesLock(w: World, p: Pid)
    requires Quiet(w, p)
    ensures Enabled(w, Acquire(p)) && Apply(w, Acquire(p)) == w.(lock := Some(p), procs := map[p := Locked])
  {
  }

  lemma GivesLock(w: World, p: Pid)
    requires w.procs == map[p := At(w, p)] && At(w, p).Releasing?
    ensures Enabled(w, Release(p)) && Apply(w, Release(p)) == w.(lock := None, procs := map[p := Idle])
  {
  }

  /** Two payloads that validate under one revision: after both attempts the pointer and
      its publication receipt name the first manifest, the precommit receipt the second. */
  lemma SecondAttemptReuses(accepts: Validator, p: Pid, revision: string, a: Payload, b: Payload)
    returns (events: seq<Event>)
    requires accepts(a, revision) && accepts(b, revision)
    ensures Legal(EmptyRoot(accepts), events)
    ensures var w := Run(EmptyRoot(accepts), events);
      && w.pointer.Some? && w.pointer.value.receiptSha.OfReceipt?
      && var receipt := w.pointer.value.receiptSha.receipt;
      && w.pointer.value.manifestSha == receipt.manifestSha == OfManifest(a.manifest)
      && receipt.precommitSha.Some? && receipt.precommitSha.value.OfReceipt?
      && receipt.precommitSha.value.receipt.manifestSha == OfManifest(b.manifest)
  {
    var empty := EmptyRoot(accepts);
    hide Legal, Run;
    var first := UndisturbedAttempt(empty, p, "a", revision, a);
    var between := Behind(empty, p, Attempt("a", None), revision, a);
    NamesApart(between, a, empty, p, revision);
    var second := UndisturbedAttempt(between, p, "b", revision, b);
    RunConcat(empty, first, second);
    events := first + second;
  }

  lemma NamesApart(between: World, a: Payload, empty: World, p: Pid, revision: string)
    requires empty.receipts == map[] && empty.staging == {}
    requires between == Behind(empty, p, Attempt("a", None), revision, a)
    ensures NameFree(between, "b")
  {
    assert PrecommitName("a") == "a.precommit" && PrecommitName("b") == "b.precommit";
    assert "a.precommit"[0] == 'a' && "b.precommit"[0] == 'b';
    assert |"a"| == 1 && |"b.precommit"| == 11;
  }

  // ----- such payloads exist -----

  function SampleDeclaration(): Declaration {
    Declaration([], (t, s) => true, text => Zeros(64))
  }

  /** No datasets: a manifest, a schema and a checksum file. */
  function SamplePayload(rest: string): Payload {
    Payload(Manifest("r", [], 0, 0, 3, 3, rest),
            [M.PublicFile(MANIFEST, Zeros(64), 1), M.PublicFile(SCHEMA, Zeros(64), 1)],
            map[MANIFEST := "m", SCHEMA := "s", CHECKSUMS := "c"])
  }

  lemma {:induction false} SampleIsValid(rest: string)
    ensures Validates(SampleDeclaration(), SamplePayload(rest), "r")
  {
    hide InventoryComplete, AggregatesOk;
    SampleInventory(rest);
    SampleSizes(rest);
    assert |MANIFEST| == 18 && |SCHEMA| == 16 && |CHECKSUMS| == 19;
  }

  lemma {:induction false} SampleInventory(rest: string)
    ensures InventoryComplete(SamplePayload(rest).inventory, SamplePayload(rest).tree, SampleDeclaration().sha)
  {
    hide Zeros, Json.Utf8Length, SafeRelative;
    DataFilesSafe();
    var p := SamplePayload(rest);
    assert |MANIFEST| == 18 && |SCHEMA| == 16 && |CHECKSUMS| == 19;
    OneLetter("m");
    OneLetter("s");
    assert M.IsDigest(Zeros(64));
    assert p.inventory[0].path == MANIFEST && p.inventory[1].path == SCHEMA;
  }

  lemma {:induction false} SampleSizes(rest: string)
    ensures AggregatesOk(SamplePayload(rest))
  {
    hide InventoryComplete, Zeros, Json.Utf8Length, BytesAt;
    var p := SamplePayload(rest);
    SampleInventory(rest);
    CompleteBytes(p.inventory, p.tree, SampleDeclaration().sha);
    OneLetter("c");
    assert |SCHEMA| == 16 && |CHECKSUMS| == 19 && |MANIFEST| == 18;
    TwoFileBytes(p.inventory[0], p.inventory[1]);
    assert p.tree[CHECKSUMS] == "c";
    assert p.inventory == [p.inventory[0], p.inventory[1]];
  }

  lemma TwoFileBytes(a: M.PublicFile, b: M.PublicFile)
    ensures M.FileBytes([a, b]) == a.bytes + b.bytes
  {
    assert [a, b][1..] == [b] && [b][1..] == [];
    assert M.FileBytes([b]) == b.bytes;
  }

  lemma {:induction false} OneLetter(s: string)
    requires |s| == 1 && s[0] < '\U{80}'
    ensures Json.Utf8Length(s) == 1
  {
    assert s[1..] == [];
  }

  /** A run of two attempts whose last publication has receipts that disagree about the
      manifest. */
  lemma ReceiptsCanDisagree() returns (events: seq<Event>)
    ensures Legal(EmptyRoot(Accepts(SampleDeclaration())), events)
    ensures var w := Run(EmptyRoot(Accepts(SampleDeclaration())), events);
      && w.pointer.Some? && w.pointer.value.receiptSha.OfReceipt?
      && var receipt := w.pointer.value.receiptSha.receipt;
      && receipt.precommitSha.Some? && receipt.precommitSha.value.OfReceipt?
      && receipt.precommitSha.value.receipt.manifestSha != receipt.manifestSha
  {
    hide Validates, Accepts, Legal, Run, SampleDeclaration;
    SampleIsValid("a");
    SampleIsValid("b");
    AcceptsMeans(SampleDeclaration(), SamplePayload("a"), "r");
    AcceptsMeans(SampleDeclaration(), SamplePayload("b"), "r");
    events := SecondAttemptReuses(Accepts(SampleDeclaration()), 0, "r", SamplePayload("a"), SamplePayload("b"));
  }
}
