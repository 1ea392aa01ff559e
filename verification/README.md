# A verified model of quant_data

`quant_data` collects market, macro, company and news data into four SQLite stores, keeps
append-only histories in them, and publishes immutable offline "Atlas" revisions. This
project models the parts of it that carry its promises and proves those promises for
every input, every interleaving of processes and every run.

`dafny verify dfyconfig.toml` checks the project.

| Modules | Modelled |
|---|---|
| `Json`, `JsonReader`, `JsonGrammar`, `JsonRoundTrip`, `JsonCanonical`, `JsonLimits`, `JsonCodec` | The canonical JSON printer under every digest; a reader, and the grammar of RFC 8259, sections 2 to 7, whose texts it reads; the codec's limits |
| `Chunking`, `ManifestTotal` | Cutting rows into chunk files; the manifest that states the size of the payload it is part of |
| `PublicRows`, `PublicChunks`, `PublicPayload`, `PublicMeaning` | The order of public rows, chunk files and their paths, and the validator that reads a whole public directory back: chunks, inventory, sizes, digests and totals |
| `AtlasPublication`, `AtlasExportRoot`, `AtlasReuse` | The publication protocol, first as a machine over any number of publishers and any validator, then with the validator in use as methods that change the export directory; two attempts at one revision |
| `IngestionTables`, `IngestionCoordinator`, `IngestionRuns`, `PublicationConditions`, `IngestionStore` | The control tables with their constraints and triggers, one `execute`, every interleaving, exactly which writes are published, and the coordinator as a class over the committed tables |
| `WriteLocks`, `WriteSession` | Lock sessions over several stores: the transition system, and the acquire and release loops |
| `Temporal`, `AsOf` | Availability at a cutoff; picking one version per identity |
| `VersionChains`, `VersionTables`, `SymbolLinks`, `SymbolImports` | Append-only company history, the ownership of ticker symbols, and what one import makes of a payload |
| `Schema`, `SchemaIssues`, `RegistrySchema`, `StrictSchemas` | The capped validator against the meaning of a schema, and its issues as violations; what a strict schema is and guarantees |
| `Composition` | The bounded full outer join across stores |
| `Wrappers`, `Ordering`, `Digits` | Results and faults; lists sorted by a key; decimal digits |

In the protocols a state machine states what may happen, including failures and crashes,
and theorems quantify over all its runs. Classes and loops stand where the source updates
something in place; each is proved to do exactly what a specification function or a run of
the machine says, and the theorems are about those.

A hash is a function without further meaning. Where two digests are compared (receipts,
manifests), a digest is a constructor around its content, so that equal digests mean equal
contents. Clocks, randomness and the file system appear as parameters, or as steps that may
fail.

## What the proofs found

Most of the promises hold as they are stated. These do not. For each there is a lemma with
an input on which it fails, and one that says exactly when it holds.

* **Precommit receipts.** When a stored revision with the same id but another manifest is
  reused, the precommit receipt names the digest of the discarded manifest, while the
  publication receipt and the pointer name the stored one. `ReceiptsCanDisagree` has such a
  run; `ReuseDecidesTheDigest` says that it happens exactly then.
* **Chunk bounds near the codec's limit.** The greedy loop encodes a chunk with one row too
  many before it closes the chunk. With a byte bound above half the codec's 8 MiB a split
  can exist and not be found (`LargeBoundExample`). Up to half the limit it is always found
  (`ChunksSucceedExactly`), and for other bounds `ChunksExactly` says when. The declared
  262144 bytes are far below.
* **Integers.** An integral number of more than 4096 digits prints but does not load
  (`LongIntegerDoesNotLoad`). A printed text loads exactly when it holds no such number
  (`RoundTrip`). A projection with such a cell can therefore be finished and not written
  (`WritesExactly`).
* **Later cutoffs.** A cutoff at a later instant but with another UTC offset can lose a
  date (`OffsetsCanLoseADate`); it keeps everything exactly when its calendar day is not
  earlier (`LaterCutoffAdmitsAsMuch`).
* **Symbols across runs.** A message in the importer says that a provider symbol resolves to
  one company and one security on any date. Across runs the issuer is unique, but one issuer
  can come to hold two securities under one symbol (`TwoRunsTwoSecurities`). It does not
  exactly when no accepted import resolves a symbol to another security than a link that
  was stored before and shares a date (`OneSecurityOverRunsExactly`).
* **Links of two kinds.** A ticker and a provider symbol with one name and interval are
  stored under one key, so with different confidence only the later one is current
  (`TwoKindsOneRow`). All symbol links of a payload are current as given exactly when no two
  of one key differ (`CurrentAsGivenExactly`).
* **Strict schemas.** The strict check does not require `minimum` and `maximum` to be
  numbers, so an accepted schema can make validation raise a type error
  (`TextBoundRaises`). It raises nothing but the error for numbers beyond the codec's
  limits exactly when its bounds are numbers (`SafeExactlyWithNumericBounds`).
* **The issue cap.** With a cap of zero or less a value that violates its schema is accepted
  (`NullPassesForAnInteger`); acceptance means the schema exactly from a cap of one on
  (`CapDecides`).
* **Control writes.** A write that passes all checks of the coordinator can still be refused
  by the store: for its first artifact, for a quality result about another run, for two
  quality results with one key, for a scope that the JSON codec refuses, or for a count that
  SQLite cannot hold (`CheckedWritesRefused`). `PublishesExactly` says which writes are
  published.

## Model

| member | source | states |
|---|---|---|
| `AtlasPublication.EveryPointerIsBound` | quant_data/atlas/exporter.py:2027-2174 | In every interleaving of publishers from an empty export directory, with failures and crashes anywhere and whatever the validator is, a current pointer names a stored revision that the validator accepted with the stated manifest digest, and its publication receipt and that one's precommit receipt are stored and bind the same revision; publications form one linear history in which each receipt names the revision that was current before |
| `AtlasPublication.ChainOfPriors` | quant_data/atlas/exporter.py:2043-2046 | Over all runs each publication receipt names the revision of the pointer committed just before, the first one none, and the last committed pointer is current |
| `AtlasExportRoot.CurrentRevisionIsValid` | quant_data/atlas/exporter.py:1491-1691 | The same with the validator in use: every stored revision has a complete, true inventory, exact totals and valid datasets, and a current pointer has the name and the digest of one of them |
| `AtlasPublication.InvKept` | quant_data/atlas/exporter.py:2037-2174 | Every step of every publisher keeps the whole invariant: binding, validity of stored revisions, linear history, exclusion, and what the lock holder knows at its point |
| `AtlasPublication.ExclusiveKept` | quant_data/atlas/exporter.py:580-612 | Only the lock holder ever moves between acquiring and releasing |
| `AtlasPublication.KnowledgeKept` | quant_data/atlas/exporter.py:2089-2152 | After each step the receipts and the revision that the publisher's local variables speak of are stored as they say |
| `AtlasPublication.HistoryExtended` | quant_data/atlas/exporter.py:2132-2165 | Committing a bound pointer whose receipt names the revision that was current extends the linear history |
| `AtlasPublication.RunGrows` | quant_data/atlas/exporter.py:277-302 | Over any run, stored revisions and receipts are never lost or overwritten and committed pointers stay in the history |
| `AtlasPublication.AttemptEffect` | quant_data/atlas/exporter.py:2043-2165 | While one attempt holds the lock no other publisher moves in any run, and at each of its points pointer, history and staging differ from those it started from only by its own staging child, or by its own commit, whose receipt names the revision that was current; a publication says in its receipt whether its revision was stored when the lock was taken |
| `AtlasPublication.RaisedAttempt` | quant_data/atlas/exporter.py:2159-2161 | An attempt that raises in the staged block leaves the pointer, the history and all promoted revisions as they were, and removes its staging child when the clean-up itself does not fail |
| `AtlasPublication.RepublishedIsReused` | quant_data/atlas/exporter.py:1958-1970 | Over all runs: of two publications of one revision the later one's receipt says that it was reused |
| `AtlasPublication.CrashLeavesFiles` | quant_data/atlas/exporter.py:580-612 | A publisher can crash at every point; the lock is freed and every file stays |
| `AtlasPublication.EveryStagedStepCanRaise` | quant_data/atlas/exporter.py:2159-2161 | Every point between the staging child and the pointer can raise into the clean-up |
| `AtlasPublication.ReuseDecidesTheDigest` | quant_data/atlas/exporter.py:2118-2126 | Promotion reuses exactly the revisions already stored, and the published digest differs from the precommit receipt's exactly when the stored manifest is another one |
| `AtlasReuse.ReceiptsCanDisagree` | quant_data/atlas/exporter.py:2109-2126 | A run of two attempts at one revision with two valid payloads, behind which the receipts of the current pointer name different manifests |
| `AtlasReuse.SecondAttemptReuses` | quant_data/atlas/exporter.py:2109-2126 | The same for every validator and every two payloads it accepts under one revision: pointer and publication receipt name the first manifest, the precommit receipt the second |
| `AtlasExportRoot.ExportRoot.PublishLocked` | quant_data/atlas/exporter.py:2037-2174 | Publishing succeeds exactly when nothing fails, the payload validates and the attempt's names are free; it then commits one pointer bound to stored receipts and leaves staging clean; a failure leaves pointer and history alone; the whole call is a run of the machine; the receipt says `reused` exactly for a revision that was stored before |
| `AtlasExportRoot.ExportRoot.PublishStaged` | quant_data/atlas/exporter.py:2049-2165 | What follows the staging child: when it publishes, what it publishes, and how it ends otherwise |
| `AtlasExportRoot.ExportRoot.StagedBlock` | quant_data/atlas/exporter.py:2049-2161 | When the `try` block yields a pointer, which pointer it is, and that its effects are steps of the machine |
| `AtlasExportRoot.ExportRoot.IntendAndPromote` | quant_data/atlas/exporter.py:2097-2128 | From precommit intent to cleaned staging: when it gets through, the receipt it adds and the digest it goes on with |
| `AtlasExportRoot.ExportRoot.PromotePayload` | quant_data/atlas/exporter.py:1871-1914 | A stored revision is reused untouched and its own digest returned; otherwise exactly the payload is added, with the file system failing before the rename or behind it |
| `AtlasExportRoot.ExportRoot.WritePrivateReceipt` | quant_data/atlas/exporter.py:1805-1814 | Creates the receipt and returns its digest, or reports a conflict and changes nothing, or fails before the link or with the receipt stored behind it |
| `AtlasExportRoot.ExportRoot.WriteAndValidate` | quant_data/atlas/exporter.py:2050-2097 | When a written payload gets past the independent validation |
| `AtlasExportRoot.ExportRoot.ReplacePointer` | quant_data/atlas/exporter.py:2163-2165 | The commit point: the pointer is replaced and the history extended, or nothing changes |
| `Chunking.ChunkPayloads` | quant_data/atlas/exporter.py:650-680 | The loop writes the texts of the greedy split, or raises what it raises |
| `Chunking.ChunksAreOptimal` | quant_data/atlas/exporter.py:650-680 | The chunks joined are the rows, each is nonempty and within both bounds, none could take the next row, and no split within the bounds has fewer chunks |
| `Chunking.ChunksSucceedExactly` | quant_data/atlas/exporter.py:663-679 | With a byte bound up to half the codec's limit, chunking succeeds exactly when every single row encodes within the bound |
| `Chunking.ChunkFaults` | quant_data/atlas/exporter.py:658-676 | Bounds below one are invalid; otherwise the fault is the resource limit or what the codec raises for a row |
| `Chunking.ChunksExactly` | quant_data/atlas/exporter.py:650-680 | For all bounds: the result is a given split exactly when that is the maximal split of encodable rows and the codec can encode each chunk, and each open chunk with the row behind it |
| `Chunking.ProducesTheMaximalSplit` | quant_data/atlas/exporter.py:663-679 | What the loop does on rows given with their maximal split: that split, or a resource error when the codec's limit is hit on the way |
| `Chunking.ListTextBytes` | quant_data/atlas/exporter.py:665-668 | The bytes of a list file are two brackets, the rows' own bytes and the commas between them |
| `Chunking.StaysAhead` | quant_data/atlas/exporter.py:663-679 | A maximal split of what is left of the rows has no more chunks than any bounded split of more rows: the exchange argument |
| `Chunking.LargeBoundExample` | quant_data/atlas/exporter.py:665-671 | Two rows of five million bytes under a bound of six million split in two, but the loop raises |
| `Chunking.LargeBoundLosesASplit` | quant_data/atlas/exporter.py:665-671 | The same for every two rows that fit alone and break the codec's limit together |
| `ManifestTotal.SettleTotal` | quant_data/atlas/exporter.py:1384-1431 | The loop ends within four rounds; it returns texts whose bytes, with the other files, are the stated total, the least total of that kind; it raises exactly when the codec refuses the manifest or no total within the byte bound exists |
| `ManifestTotal.SettledAfterThree` | quant_data/atlas/exporter.py:1386-1410 | Within the byte bound the third total is already a fixed point, so running out of rounds cannot happen |
| `ManifestTotal.RoundsStayBelow` | quant_data/atlas/exporter.py:1386-1410 | No round ever passes a fixed point: the loop reaches the least one |
| `ManifestTotal.TotalInClosedForm` | quant_data/atlas/exporter.py:1386-1404 | The bytes of all files depend on the stated total only through its digits and those of the manifest's size |
| `ManifestTotal.ManifestBytes` | quant_data/atlas/exporter.py:1384-1391 | The manifest's text grows by exactly the digits of the total it states |
| `ManifestTotal.RecordBytes` | quant_data/atlas/exporter.py:1298-1314 | The bytes of one checksum record in terms of its path, its digest and the digits of its byte count |
| `ManifestTotal.DigitStep` | quant_data/atlas/exporter.py:1400-1410 | A number that grows by less than ten gains at most one digit |
| `PublicRows.FinishedRows` | quant_data/atlas/projections.py:571-610 | A finished projection is a permutation of its rows, strictly increasing in the contract's order, of valid rows with distinct identities, within its row bound and encodable |
| `PublicRows.RowOrderIsOrder` | quant_data/atlas/projections.py:436-452 | The row order over absent, integer and text cells is a strict weak order |
| `PublicRows.FinishedInOrder` | quant_data/atlas/projections.py:436-452 | Of two rows of a finished projection, at the first order field in which they differ the earlier one is absent, an integer before a text, the smaller integer or the text that Python puts first |
| `PublicRows.KeyIsFirst` | quant_data/atlas/projections.py:436-441 | The tagged comparison of typed keys is that order, both ways |
| `PublicMeaning.FinishesExactly` | quant_data/atlas/projections.py:571-610 | A projection is finished exactly when all rows are typed, not too many, without a repeated identity or order key, and printable; which fault is raised otherwise |
| `PublicMeaning.RowExactly` | quant_data/atlas/projections.py:455-520 | A row has exactly the declared fields, null only where allowed, integers for integers and texts of the type for the rest |
| `PublicRows.KeyOrder` | quant_data/atlas/exporter.py:1482-1488 | The tagged key order is irreflexive, transitive and negatively transitive |
| `PublicRows.SameKey` | quant_data/atlas/projections.py:436-441 | Keys that order neither way are equal |
| `PublicChunks.PublisherMeetsValidator` | quant_data/atlas/exporter.py:1579-1688 | For finished projections that were written among any other files, the dataset checks of the independent validator pass exactly when there are at most 20 chunks per dataset, 48 in all and 12000 rows in all |
| `PublicPayload.WrittenPayloadValidates` | quant_data/atlas/exporter.py:1491-1691 | Finished projections, written with the other files of the site and the manifest that the loop settled: the whole validator, inventory, sizes, digests and totals included, accepts the directory exactly when those caps are met |
| `PublicPayload.SettledAggregates` | quant_data/atlas/exporter.py:1552-1567 | The total that the loop settled on is the sum of all file sizes, and the inventory with the manifest's record is complete |
| `PublicPayload.ValidatePayload` | quant_data/atlas/exporter.py:1491-1691 | The validator's passes over inventory, sizes and datasets accept exactly the valid directories |
| `PublicPayload.CheckInventory` | quant_data/atlas/exporter.py:1523-1547 | The loop with its set of seen paths accepts exactly the inventories that list every other file once and truly, each under a safe public path |
| `PublicPayload.AddSizes` | quant_data/atlas/exporter.py:1548-1552 | The sizes of all files, added in any order |
| `PublicPayload.ChecksumsReadBack` | quant_data/atlas/exporter.py:1519-1523 | The checksum file of a settled payload loads as the inventory it was printed from |
| `PublicPayload.TotalReadBack` | quant_data/atlas/exporter.py:1553-1561 | A settled manifest that loads states the settled total at `totals.bytes` |
| `PublicChunks.ChunkPathForm` | quant_data/atlas/exporter.py:931-939 | Every chunk path of a dataset whose id is one segment has the safe form that the validator asks for |
| `PublicChunks.ChunkPathInjective` | quant_data/atlas/exporter.py:752-758 | Chunk paths of different datasets or indices differ, whatever hyphens an id has |
| `PublicChunks.ValidateDataset` | quant_data/atlas/exporter.py:1598-1681 | The validator's loops accept a dataset exactly when every chunk file has a safe path below the chunk directory, its digest, size, rows and key range, and all rows in a row are strictly ordered with unique identities and add up to the record |
| `PublicChunks.CheckRows` | quant_data/atlas/exporter.py:1633-1655 | The row loop, carrying identities and the last order key across chunk borders, accepts exactly the valid rows that continue the order |
| `PublicChunks.WrittenChunksAreOk` | quant_data/atlas/exporter.py:747-797 | The chunks written for a finished projection read back as its rows, with exact sums and key range |
| `PublicChunks.OwnFilesSurvive` | quant_data/atlas/exporter.py:747-797 | Writing several datasets never overwrites another dataset's chunk files |
| `PublicChunks.FinishedRowsInOrder` | quant_data/atlas/projections.py:571-610 | Rows in the publisher's order satisfy the validator, which has an order of its own |
| `PublicChunks.OrdersAgree` | quant_data/atlas/exporter.py:1482-1488 | The publisher's sort key and the validator's order atoms agree on typed cells |
| `PublicChunks.ValidRowsInOrder` | quant_data/atlas/exporter.py:1649-1654 | In a valid dataset every row comes behind the one before it at the first order field in which they differ |
| `PublicChunks.RowReadsBack` | quant_data/atlas/exporter.py:1633-1641 | A valid public row survives printing and reading, cell by cell |
| `PublicChunks.ChunkReads` | quant_data/atlas/exporter.py:1621-1632 | A chunk file that loads reads as the rows it was written from |
| `PublicChunks.IdentityBytesDistinct` | quant_data/atlas/exporter.py:1642-1646 | Distinct identities have distinct texts |
| `PublicChunks.IdentityEncodes` | quant_data/atlas/exporter.py:1642-1643 | The identity of a row that fits a chunk always encodes |
| `PublicMeaning.WritesExactly` | quant_data/atlas/exporter.py:747-774 | A dataset of typed rows is written exactly when each row makes a chunk of at most 262144 bytes and holds no integer of more than 4096 digits |
| `PublicMeaning.IndexWidth` | quant_data/atlas/exporter.py:755-758 | Chunk numbers have at least four digits, and read back |
| `PublicMeaning.SafeExactly` | quant_data/atlas/exporter.py:931-939 | A path is public exactly when it lies below the public directories, has no backslash, and no whole segment is empty, `.` or `..` |
| `PublicMeaning.ValidChunks` | quant_data/atlas/exporter.py:1611-1664 | The chunks of a valid dataset: at most 20, each with its digest and size, 1 to 250 typed rows, at most 262144 bytes and true keys |
| `PublicMeaning.ValidRows` | quant_data/atlas/exporter.py:1665-1681 | The rows of a valid dataset: counted, bounded, with identities that print differently, and true end keys |
| `PublicMeaning.FilesAsListed` | quant_data/atlas/exporter.py:1523-1547 | What the checksum file of a valid directory says of a file is true of it |
| `PublicMeaning.InventoryFixesTheFiles` | quant_data/atlas/exporter.py:1523-1547 | Two valid directories with one inventory have the same files, each with one digest and length |
| `PublicMeaning.ValidDirectory` | quant_data/atlas/exporter.py:1500-1691 | A valid directory is of its revision, at most 8 MiB and truly counted, with at most 12000 rows in at most 48 chunks of the declared datasets |
| `PublicMeaning.TotalsAdd` | quant_data/atlas/exporter.py:1569-1681 | Totals of rows, chunks and bytes are the sums over the datasets and their chunks |
| `PublicMeaning.DigestExactly` | quant_data/atlas/exporter.py:1537-1540 | A digest is 64 lowercase hexadecimal digits |
| `IngestionCoordinator.ValidateControlWrite` | quant_data/ingestion.py:133-236 | The nested checks with their mutable id set raise exactly the first fault of the declared order, or none |
| `IngestionCoordinator.VerdictExactly` | quant_data/ingestion.py:133-236 | Which fault the checks raise, for every write: none exactly for a good one, a partial publication exactly for a partial run with good evidence, a rejected one exactly for a rejected run or snapshot, and otherwise an invalid write |
| `IngestionCoordinator.RequestExactly` | quant_data/ingestion.py:436-462 | A request passes exactly when no name is empty and the canonical dataset is a declared output |
| `IngestionCoordinator.OpenedExactly` | quant_data/ingestion.py:506-541 | The running row goes in exactly for a new run id, an identity no run of the dataset has, and registered, active outputs |
| `IngestionCoordinator.AddedRowsExactly` | quant_data/ingestion.py:239-325 | The rows of a committed call, field by field |
| `IngestionCoordinator.SuccessAdds` | quant_data/ingestion.py:485-602 | A success adds one run with its outputs, artifacts, one snapshot with ordinals 1 to n, quality rows inside the run and the checkpoints of its outputs, and changes no other row |
| `IngestionRuns.SuccessKeeps` | quant_data/ingestion.py:468-602 | A success keeps the store consistent: finished runs only, one per dataset and identity, disjoint failures, exact checkpoints, numbered snapshots, closed lineage and quality references |
| `IngestionRuns.FailureKeeps` | quant_data/ingestion.py:340-384 | So does a recorded failure |
| `IngestionRuns.EveryStoreIsConsistent` | quant_data/ingestion.py:468-620 | Every store that any interleaving of coordinators can reach, with raising writers, failing commits and crashes, is consistent |
| `IngestionRuns.RunExtends` | quant_data/migrations/macro/0003_control_plane.sql:303-314 | Over any run of the system, no committed run, failure, output, artifact, snapshot or quality row is lost or changed |
| `IngestionRuns.CommitAdds` | quant_data/ingestion.py:522-602 | What a coordinator commits, after any interleaving since its first check, is exactly what its own request and writer result add to the tables then committed |
| `IngestionRuns.ReplayIsUnchanged` | quant_data/ingestion.py:468-505 | An identity that has succeeded is never published again, whichever of the two looks finds it |
| `IngestionRuns.CrashRollsBack` | quant_data/ingestion.py:603-620 | A crash anywhere leaves the committed tables and frees the database |
| `IngestionRuns.DatabaseFaults` | quant_data/ingestion.py:603-620 | SQLite failing at BEGIN or COMMIT raises its own error, a failed record a conflict |
| `PublicationConditions.PublishesExactly` | quant_data/ingestion.py:543-591 | Once the running row is in, a write is published exactly when its count is not negative, it is a good write (evidence, outcome, snapshot and quality results spelled out), its artifact, snapshot and quality ids and its snapshot's dataset and identity are new, its quality results about a run name this run and have distinct keys, its scopes, warnings and observed values encode and bind, its count is below 2^63, and its first artifact is in its snapshot |
| `PublicationConditions.CheckedWritesRefused` | quant_data/migrations/macro/0003_control_plane.sql:277-415 | On a fresh store one write that is published, and five that pass the coordinator's checks and are refused: for the first artifact, a quality subject, two equal quality keys, a scope that does not encode, and a count of 2^63 |
| `PublicationConditions.RefusalRecorded` | quant_data/ingestion.py:328-384 | A write that the checks refuse is recorded as partial exactly for a partial run with good evidence, and as rejected otherwise |
| `PublicationConditions.RecordedKinds` | quant_data/ingestion.py:328-337 | Status and code of a failure row tell which exception it was |
| `PublicationConditions.StatementsFail` | quant_data/ingestion.py:239-325 | Each statement fails with what encoding or binding raises, or with SQLite's own error |
| `PublicationConditions.OnlyRunningIsMarked` | quant_data/ingestion.py:564-582 | A run that has succeeded is never marked again |
| `PublicationConditions.QualityExactly` | quant_data/migrations/macro/0003_control_plane.sql:374-412 | A run's quality results are stored exactly when their observed values encode, ids are new, run subjects name the run and keys are distinct |
| `PublicationConditions.ArtifactsExactly` | quant_data/migrations/macro/0003_control_plane.sql:414-426 | A run's artifacts are stored exactly when their request scopes encode and their ids are new |
| `IngestionStore.Store.Execute` | quant_data/ingestion.py:415-620 | Exactly when the outcome is unchanged, succeeded or raised, in terms of request, stored rows and write; the tables after each: identical, one added run, or one failure row with its status and code |
| `IngestionStore.Store.Publish` | quant_data/ingestion.py:543-591 | The writing part of a transaction, step by step, is the publication function on the working copy |
| `IngestionStore.Store.InsertControlWrite` | quant_data/ingestion.py:239-325 | The insertion loops end in the state of the row-list specification, or stop at its fault |
| `IngestionStore.Store.RecordFailedRun` | quant_data/ingestion.py:340-384 | Adds exactly the failure row and raises the original fault, or leaves the tables and raises a conflict |
| `IngestionStore.Store.WriteOutputs` | quant_data/ingestion.py:543-551 | The output loop inserts all rows or stops at the first refusal |
| `IngestionStore.Store.WriteCheckpoints` | quant_data/ingestion.py:583-591 | The checkpoint loop updates each declared output or stops at the first refusal |
| `WriteLocks.RefusedExactly` | quant_data/stores.py:498-515 | A set of roles is accepted exactly when it is not empty and its stores lie apart |
| `WriteLocks.OrderedIsSorted` | quant_data/stores.py:498-515 | An accepted set is strictly increasing by canonical URI and holds exactly the stores asked for |
| `WriteLocks.InvKept` | quant_data/stores.py:525-569 | Every step of every process, time-outs and partial releases included, keeps owners and sessions in agreement |
| `WriteLocks.MutualExclusion` | quant_data/stores.py:204-240 | In every reachable state two processes that hold one store's lock are the same |
| `WriteLocks.AcceptedMeansOwned` | quant_data/stores.py:452-470 | In every reachable state a capability that passes the target check implies that its process owns that store's lock |
| `WriteLocks.AcceptedExactly` | quant_data/stores.py:452-470 | An active capability passes exactly for the roles it was made for, at the same locations |
| `WriteLocks.OwnerIsAhead` | quant_data/stores.py:540-551 | The owner of a lock that someone waits for itself waits, if at all, for a greater URI |
| `WriteLocks.TakesOrTimesOut` | quant_data/stores.py:540-551 | The next lock can be taken exactly while nobody has it, and waiting for it can time out exactly while somebody has |
| `WriteLocks.NoDeadlock` | quant_data/stores.py:525-569 | In every state of the invariant with a busy process, some process can make progress without a time-out |
| `WriteLocks.StepsRunOut` | quant_data/stores.py:525-569 | Every step but the start of a session lowers a measure, so sessions end |
| `WriteSession.LockFiles.AcquireWriteSession` | quant_data/stores.py:525-569 | The session is handed out exactly when all locks are free and none breaks; then exactly the ordered set is owned; otherwise every lock taken on the way is back |
| `WriteSession.LockFiles.TakeAll` | quant_data/stores.py:546-555 | The loop owns exactly a prefix of the ordered set, all of it exactly when it does not fail |
| `WriteSession.LockFiles.Release` | quant_data/stores.py:566-569 | Releasing in reverse restores the owners of before the session |
| `WriteSession.LockFiles.LeaveSession` | quant_data/stores.py:564-569 | The capability is made inactive and the owners of before the session are back |
| `Temporal.CompletedMeansTheDayIsOver` | quant_data/temporal.py:102-144 | The completed-date policy admits a date exactly when that day, at the cutoff's offset, ends at or before the cutoff |
| `Temporal.DateCutoffMeansTheDayIsOver` | quant_data/temporal.py:118-123 | At a date cutoff a date is admitted, under both policies, exactly when its day is over no later than the cutoff's, at one offset or at every offset |
| `Temporal.InclusiveMeansTheDayHasBegun` | quant_data/temporal.py:124-134 | The inclusive policy admits a date exactly when that day has begun at the cutoff's offset |
| `Temporal.OnlyStatedTimesCount` | quant_data/temporal.py:113-116 | What is inferred or unknown is never admitted, and no cutoff can be |
| `Temporal.TimesCompareAsInstants` | quant_data/temporal.py:136-144 | A time is admitted at a datetime cutoff exactly by its instant |
| `Temporal.WarningMarksTheDifference` | quant_data/temporal.py:102-144 | Completed implies inclusive, and the warning is raised exactly on the difference |
| `Temporal.DateCutoffIsEndOfOwnDay` | quant_data/temporal.py:102-144 | A date as the cutoff admits a time exactly as the last microsecond of that day at the time's own offset does |
| `Temporal.LaterCutoffAdmitsAsMuch` | quant_data/temporal.py:102-144 | Of two cutoffs in order, the later admits all the earlier does exactly when its calendar day is not earlier |
| `Temporal.SameOffsetKeepsDates` | quant_data/temporal.py:102-144 | Cutoffs of one offset meet that condition |
| `Temporal.TimesStayAdmitted` | quant_data/temporal.py:102-144 | Times with an offset stay admitted under every later cutoff |
| `Temporal.OffsetsCanLoseADate` | quant_data/temporal.py:102-144 | Two cutoffs in order, at offsets two hours apart, of which the later loses a date |
| `AsOf.SelectLatest` | quant_data/atlas/projections.py:644-672 | Filter, group and maximum loops select what the specification selects, or raise on unreadable or too many candidates |
| `AsOf.SelectsExactlyTheLatest` | quant_data/atlas/projections.py:644-672 | A version is selected exactly when its stated day is over or its time is past at the cutoff, and every other such version of its identity has a smaller sequence or, with the same one, an earlier availability text or, with the same one, a smaller id |
| `AsOf.SelectionRaisesExactly` | quant_data/atlas/projections.py:361-419 | A selection raises exactly with more candidates than 32 for each row, at least 128 and at most 200000, or with an availability that cannot be read |
| `AsOf.IdentitiesAsFirstSeen` | quant_data/atlas/projections.py:644-660 | The selected identities are in the order in which the eligible versions first name them |
| `AsOf.OneRowPerIdentity` | quant_data/atlas/projections.py:762-782 | Exactly one row per identity with an eligible version |
| `AsOf.NotYetAvailableChangesNothing` | quant_data/atlas/projections.py:349-363 | Within the candidate bound, a version that is not available at the cutoff changes nothing, wherever it stands |
| `AsOf.LaterCutoffNeverLoses` | quant_data/atlas/projections.py:829-849 | A later cutoff at the same offset keeps every identity and never lowers its sequence |
| `AsOf.OrderOfVersionsDoesNotMatter` | quant_data/atlas/projections.py:644-672 | The candidates' order and repetition do not matter |
| `AsOf.GroupEligible` | quant_data/atlas/projections.py:644-660 | The grouping loop puts each eligible version into its identity's group, in order, and nothing else |
| `AsOf.PickGreatest` | quant_data/atlas/projections.py:661-672 | The maximum loop returns the specified greatest version of a group |
| `AsOf.GreatestIsMaximal` | quant_data/atlas/projections.py:661-672 | No version of a group is above its greatest |
| `VersionChains.ChainsStayLinked` | quant_data/company/stage4_importer.py:2241-2329 | After any writes every chain has sequences 1 to n, each version names its predecessor, and neighbours differ in a compared column |
| `VersionChains.PriorIsLast` | quant_data/company/stage4_importer.py:2371-2400 | The row with the greatest sequence is the last of its chain |
| `Ordering.SortIsStable` | quant_data/company/stage4_importer.py:1785-1796 | Sorting keeps elements with one key in their order |
| `VersionChains.StoredVersionsStay` | quant_data/company/stage4_importer.py:2754-2841 | Writes only append: stored versions never change |
| `VersionChains.AppendMakesCurrent` | quant_data/company/stage4_importer.py:3158-3232 | A write makes its columns current for its key and for no other, and adds no row exactly when they were already |
| `VersionChains.RepeatWritesNothingExactly` | quant_data/company/stage4_importer.py:3274-3348 | Importing a batch again adds nothing exactly when the batch gives no key two different columns |
| `VersionTables.VersionTable.AppendVersion` | quant_data/company/stage4_importer.py:1700-1760 | The table after a write, the count returned, and the current columns |
| `VersionTables.VersionTable.AppendBatch` | quant_data/company/stage4_importer.py:3560-3591 | The loop over a batch appends what the specification appends and counts the versions |
| `SymbolLinks.TextOrderIsDateOrder` | quant_data/company/stage4_importer.py:186-194 | Comparing ISO texts is comparing calendar dates |
| `SymbolLinks.OverlapMeansCommonDate` | quant_data/company/stage4_importer.py:186-194 | Two intervals overlap exactly when some date lies in both |
| `SymbolLinks.CoversMeansInside` | quant_data/company/stage4_importer.py:1763-1776 | An interval covers another exactly when it holds every date of the other |
| `SymbolLinks.ResolvedInsideOneSecurity` | quant_data/company/stage4_importer.py:1763-1796 | A resolved symbol link comes from its issuer and lies inside exactly one security link, whose identifier it carries |
| `SymbolImports.SymbolsExactly` | quant_data/company/stage4_importer.py:1763-1784 | Resolution succeeds exactly when each ticker and provider symbol has one security over its interval, and then finds exactly those links, each with that security |
| `SymbolImports.SymbolsInOrder` | quant_data/company/stage4_importer.py:1785-1796 | They are ordered by provider, identifier, security, start and end |
| `SymbolImports.OneKeyStaysInOrder` | quant_data/company/stage4_importer.py:1785-1796 | Links that are stored under one key stay in the order they were given |
| `SymbolImports.AcceptedImportsExactly` | quant_data/company/stage4_importer.py:1138-1210 | An import is accepted exactly when every interval has a date, no identifier of a kind is given twice for a date, each symbol link has one security, symbol links of one name and date agree on issuer and security, and no stored row gives one to another issuer |
| `SymbolImports.EverySymbolIsStored` | quant_data/company/stage4_importer.py:1899-2006 | After an accepted import each symbol link is stored with its security, and is current unless another link of its key says otherwise |
| `SymbolImports.CurrentAsGivenExactly` | quant_data/company/stage4_importer.py:1899-2006 | All symbol links of an accepted payload are current as given exactly when no two of one key differ |
| `SymbolImports.TwoKindsOneRow` | quant_data/company/stage4_importer.py:1899-1975 | An accepted payload with a ticker and a provider symbol of one key, one of which is not current |
| `SymbolLinks.StoredInsideOneSecurity` | quant_data/company/stage4_importer.py:1763-1975 | Over all imports, every stored link lies inside exactly one security link that an accepted import gave for its issuer, and carries that link's identifier |
| `SymbolLinks.ValidateReferences` | quant_data/company/stage4_importer.py:1138-1210 | The pair loops accept exactly the payloads whose links and resolved symbols do not clash |
| `SymbolLinks.PayloadNamesOneSecurity` | quant_data/company/stage4_importer.py:1182-1210 | In an accepted payload overlapping links of one symbol name one issuer and one security |
| `SymbolLinks.AppendLinkKeeps` | quant_data/company/stage4_importer.py:1873-1975 | One appended assertion keeps single ownership and linked chains, and only appends |
| `SymbolLinks.ImportKeeps` | quant_data/company/stage4_importer.py:1978-2006 | So does one import |
| `SymbolLinks.RunsKeep` | quant_data/company/stage4_importer.py:1873-1975 | So do all imports from an empty store, accepted or refused |
| `SymbolLinks.OneIssuerOnAnyDate` | quant_data/company/stage4_importer.py:1873-1896 | After any imports, two stored links of one provider symbol that hold on one date belong to one issuer |
| `SymbolLinks.OneSecurityKeptExactly` | quant_data/company/stage4_importer.py:1899-1975 | An appended link keeps one security per symbol and date exactly when no stored overlapping link of the symbol has another security |
| `SymbolLinks.ImportKeepsOneSecurityExactly` | quant_data/company/stage4_importer.py:1978-2006 | One accepted import keeps one security per symbol and date exactly when it resolves no symbol to another security than a link stored before that shares a date |
| `SymbolLinks.OneSecurityOverRunsExactly` | quant_data/company/stage4_importer.py:1873-2006 | Over all imports there is one security per symbol and date exactly when every import was refused or agreed with what was stored before it |
| `SymbolLinks.TwoRunsTwoSecurities` | quant_data/company/stage4_importer.py:1899-1975 | Two accepted imports of one issuer that leave one symbol with two securities on the same dates |
| `SymbolLinks.LinkStore.Publish` | quant_data/company/stage4_importer.py:3736-3790 | An import commits all its links or leaves the table as it was |
| `SymbolLinks.LinkStore.WriteSymbolLinks` | quant_data/company/stage4_importer.py:1978-2006 | The link loop appends what the specification appends and counts it |
| `Schema.ValidateSchema` | quant_data/schema.py:40-115 | What validation returns or raises, with which issues |
| `Schema.Visit` | quant_data/schema.py:53-112 | The recursive visitor with its shared, capped list finds the cap's worth of the uncapped issues, in order |
| `Schema.CleanExactly` | quant_data/schema.py:53-112 | Without a cap no issue is found exactly when the value satisfies the declarative meaning of the schema, at every depth |
| `SchemaIssues.IssuesExactly` | quant_data/schema.py:53-112 | The issues found, the cap aside, are exactly the violations: each names a keyword that the value at its place breaks, a field that is missing, or one that is not declared |
| `SchemaIssues.TypesExactly` | quant_data/schema.py:17-37 | Which values have which type: booleans are no numbers, and integers are |
| `SchemaIssues.EqualExactly` | quant_data/schema.py:62-65 | Equality for `const` and `enum` is equality up to key order, numbers by value and booleans as numbers |
| `SchemaIssues.NumbersByValue` | quant_data/schema.py:62-65 | Numbers are equal exactly with one value, True counting as 1 and False as 0 |
| `Schema.AcceptsExactly` | quant_data/schema.py:40-115 | With a cap of at least one, validation accepts exactly the values that satisfy the schema |
| `Schema.CapKeepsTheFirst` | quant_data/schema.py:48-51 | The cap keeps the first issues |
| `Schema.WithoutRoomAcceptsAnything` | quant_data/schema.py:40-51 | With a cap of zero or less, validation accepts every value that does not raise on the way |
| `Schema.NullPassesForAnInteger` | quant_data/schema.py:48-60 | With a cap of zero or less null is accepted where an integer is required |
| `Schema.CapDecides` | quant_data/schema.py:40-115 | Acceptance means the schema, for all values and schemas, exactly from a cap of one on |
| `RegistrySchema.NeverUnsupported` | quant_data/registry.py:980-1046 | A strict schema never causes the unsupported-type issue, on any value, at any depth |
| `RegistrySchema.ValidatedKeysAreDeclared` | quant_data/registry.py:1010-1030 | A value that satisfies a strict schema has only declared keys, none of them prohibited, at every depth |
| `RegistrySchema.StrictIsSupported` | quant_data/registry.py:980-1046 | A strict schema reads as one of the shapes the validator supports |
| `StrictSchemas.StrictExactly` | quant_data/registry.py:980-1046 | A declaration is strict exactly when it is a union of scalar types and nothing else, a closed object of strict and permitted properties that declares what it requires, an array of a strict declaration with bounds in order, or a scalar with its own keywords |
| `StrictSchemas.SomeValueConforms` | quant_data/registry.py:997-1033 | Every strict declaration of shapes can be met: what it requires it declares, and its array bounds leave room |
| `RegistrySchema.SafeExactlyWithNumericBounds` | quant_data/registry.py:980-1046 | Validation with a strict schema raises nothing but the error for numbers beyond the codec's limits, on all values, exactly when all its bounds are numbers |
| `RegistrySchema.NumericNeverRaises` | quant_data/schema.py:84-112 | With numeric bounds the visitor raises nothing but the error for numbers beyond the codec's limits |
| `RegistrySchema.BadBoundRaises` | quant_data/schema.py:84-112 | For any other strict schema there is a value on which it raises |
| `RegistrySchema.TextBoundRaises` | quant_data/schema.py:101-112 | A strict integer schema whose minimum is a text, and the zero on which it raises |
| `Composition.Compose` | quant_data/composition.py:74-161 | The loops build the composition that the specification states, or raise its fault |
| `Composition.ComposesExactly` | quant_data/composition.py:80-162 | A composition succeeds exactly with two or more components of distinct datasets, over two or more stores, each owned, bounded and without a repeated available identity, whose joined document is within the codec's limits |
| `Composition.RowsArePrefix` | quant_data/composition.py:122-145 | The rows are strictly increasing, each joinable; a joinable identity that is missing lies behind all rows and the result is truncated at the limit |
| `Composition.TruncatedExactly` | quant_data/composition.py:123-127 | The result is marked truncated exactly when some joinable identity is not among its rows |
| `Composition.ValuesAreExact` | quant_data/composition.py:129-145 | A row holds a payload for a dataset exactly when that dataset has such an available row, and lists it as missing exactly when it has none |
| `Composition.ReceiptsAreExact` | quant_data/composition.py:111-118 | One receipt per component in dataset order, with the number of its available rows |
| `Composition.WarnedExactly` | quant_data/composition.py:98-103 | The result carries the warning exactly when some row got in on the cutoff's own day under the inclusive policy |
| `Composition.FaultsInOrder` | quant_data/composition.py:80-121 | Which fault is raised: too few components, repeated datasets, the first failing component in dataset order, one store alone |
| `Composition.DocumentStates` | quant_data/composition.py:129-157 | The printed result states every receipt, every row with each dataset's payload or null, its warning and whether it is complete |
| `Composition.ComponentOrderDoesNotMatter` | quant_data/composition.py:82-93 | The order of the components changes nothing |
| `Composition.RowOrderDoesNotMatter` | quant_data/composition.py:97-110 | The order of the rows inside the components changes nothing |
| `Composition.AcceptedExactly` | quant_data/composition.py:97-110 | The accepted map holds exactly the available identities with their payloads |
| `Composition.AcceptsUnlessRepeated` | quant_data/composition.py:107-109 | The rows of a component are accepted exactly when no identity is available twice |
| `Composition.AcceptComponents` | quant_data/composition.py:88-118 | The component loop with its maps, receipts, stores and warnings |
| `Composition.AcceptLoop` | quant_data/composition.py:97-109 | The row loop and its warning |
| `JsonCodec.Encode` | quant_data/json_codec.py:147-192 | The recursive printer with its sorted keys and its part list returns the specified text or raises the specified fault |
| `JsonCodec.UniqueObject` | quant_data/json_codec.py:30-39 | Succeeds exactly when all keys are unique, and then holds exactly the pairs |
| `JsonGrammar.ReadsExactly` | quant_data/json_codec.py:101-123 | The reader accepts exactly the texts of the grammar of RFC 8259, sections 2 to 7, and reads the value each spells |
| `JsonGrammar.Unambiguous` | quant_data/json_codec.py:101-123 | A text spells one value at most |
| `JsonGrammar.LoadsExactly` | quant_data/json_codec.py:101-134 | A text loads as a value exactly when it spells it, is at most 8 MiB long, and the value has unique keys, depth at most 32, integers of at most 4096 digits and decimals within their limits |
| `JsonLimits.DumpedExactly` | quant_data/json_codec.py:147-200 | A value is printed exactly when it is at most 32 deep, finite, with numbers within their limits, and its text at most 8 MiB long; which fault is raised otherwise |
| `JsonLimits.RefusedExactly` | quant_data/json_codec.py:147-192 | The same for a value at any depth |
| `JsonLimits.IntegersWithinLimits` | quant_data/json_codec.py:55-58 | Integers print exactly between the two 13610-bit bounds |
| `JsonLimits.DecimalsWithinLimits` | quant_data/json_codec.py:63-72 | Decimals print exactly with at most 4096 digits, none further than 4096 places from the point |
| `JsonLimits.DecimalValue` | quant_data/json_codec.py:137-144 | The value of a decimal is its digits moved by its exponent |
| `JsonLimits.EscapesExactly` | quant_data/json_codec.py:167-168 | Quotes, backslashes and control characters are escaped, by name where there is one, and nothing else is |
| `JsonLimits.CharBytesExactly` | quant_data/json_codec.py:195-198 | A character takes the least number of UTF-8 bytes that carry its code point |
| `Ordering.TextLtExactly` | quant_data/json_codec.py:184-187 | The first difference decides the order of keys: the smaller character or the end of the text |
| `JsonCanonical.KeyOrderDoesNotMatter` | quant_data/json_codec.py:181-187 | Values that differ in key order only encode alike, or raise alike |
| `JsonCanonical.TextDeterminesValue` | quant_data/json_codec.py:147-192 | Equal texts come from values that are equal up to key order and the notation of numbers |
| `JsonCanonical.RoundTrip` | quant_data/json_codec.py:101-134 | A printed text loads exactly when it has no integral number of more than 4096 digits; then it loads as the same value and prints as the same text |
| `JsonRoundTrip.ReadsValue` | quant_data/json_codec.py:137-192 | The reader undoes the printer in front of any text that cannot extend a number |
| `JsonCanonical.ReadsWhole` | quant_data/json_codec.py:101-134 | The reader of whole documents undoes the printer |
| `JsonCanonical.ReadBackPrintsSame` | quant_data/json_codec.py:137-144 | What was read back prints the same text |
| `JsonCanonical.SortKeysSorts` | quant_data/json_codec.py:181-187 | In the canonical form the keys of every object strictly increase |
| `JsonCanonical.DigitLimitImpliesBitLimit` | quant_data/json_codec.py:75-81 | An integer within 4096 digits is within 13610 bits: the second check of the parser never fires |
| `JsonCanonical.LongIntegerDoesNotLoad` | quant_data/json_codec.py:42-81 | 10^4096 prints and does not load |

## Left out

- Floats: numbers are integers and decimals; a float is neither printed nor validated.
- Surrogates: the reader refuses escapes of lone surrogates, and a character is a code point.
- Reader faults: which fault the loader raises on a text with several faults may differ from the order of the standard parser.
- Deadlines and clocks: a deadline is a step that may fail at any point.
- The file system: permissions, symbolic links, directory syncs and left-over temporary files; replacing, creating and locking are atomic steps, and unlocking does not fail.
- Hash functions: SHA-256 is a function to texts of 64 characters, or a constructor; stable ids are identities of their fields.
- SQL text and pragmas: tables are maps and sets with their unique keys and triggers; reading ISO texts and timestamps is taken as done where the source parses them.
- PublicPayload.WrittenPayloadValidates: the manifest is a record of its revision, datasets and totals; that its file parses to it is proved for the total and for the checksum file. Key sets, labels, freshness, registry and provenance are left out.
- PublicPayload.ValidatePayload: the same.
- PublicChunks.ValidateDataset: label, state, completeness and schema of a dataset record are left out.
- IngestionCoordinator.ValidateControlWrite: digests, media types, references, counts and times of one record are one flag.
- PublicationConditions.PublishesExactly: what a record's JSON columns or bound values raise at its insertion is given with the record (`binding`, `warnings`), not computed from a JSON value.
- WriteLocks.RefusedExactly: whether the configured paths are distinct files is one flag of a store map.
- WriteLocks.AcceptedMeansOwned: a process has one session at a time, so a capability and its session are one.
- VersionTables.VersionTable.AppendBatch: the source's counter also counts the membership rows of a batch.
- SymbolLinks.ValidateReferences: the checks on filings, facts and mappings of the payload are left out.
- SymbolLinks.LinkStore.Publish: memberships and the other tables of the transaction are left out.
- SymbolLinks.LinkStore.WriteSymbolLinks: the ticker membership rows and their count are left out.
- Composition.Compose: the digest that is put into the result is left out; its text is the encoded document.
- Capture of source copies, site bundle, labels and freshness of the public manifest, and the first-version methods that publication no longer uses.
- Precision companions: the check that a public time has the precision named beside it.
- GDP projection: it filters and does not pick a version; availability and order are modelled.
- Writer SQL: the writer's own tables are not modelled, and it does not touch the control tables.
- Request formats: whether run metadata is well formed is one flag of the request.
- The store's file lock around one ingestion: the machine has the database's own exclusion of writers alone, so its runs include those that the lock would prevent.
- Control tables of the other three stores: the macro migrations stand for all four.
- Nested lock sessions of one process and the wait time measured for an acquired session.
- Time zone conversion at the years 1 and 9999, where the source's arithmetic can overflow.
- Company records other than links and version chains: memberships, filings and metric mappings.
- Schemas with malformed type lists that are not strict, such as ones with unhashable members, and issue texts.
- The migration order check in `load_registry` and its comparisons with frozen constants.
- Composition's `read_ingestion_run_component`.
- Dashboard, HTTP boundary, operation runner and acceptance stages.
