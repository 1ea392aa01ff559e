/**
 A whole public directory and everything `_validate_public_payload_v2` in
 quant_data/atlas/exporter.py demands of it: the manifest, the inventory of all files
 with their sizes and digests, the stated totals, and the datasets.
 */
module PublicPayload {
  import opened Wrappers
  import opened Ordering
  import opened Digits
  import opened Json
  import opened JsonReader
  import opened JsonRoundTrip
  import opened JsonCanonical
  import opened PublicRows
  import opened PublicChunks
  import M = ManifestTotal

  const MANIFEST: string := "data/manifest.json"
  const CHECKSUMS: string := "data/checksums.json"
  const SCHEMA: string := "data/schema.json"

  /** What the manifest states; `rest` is all that the validator only compares with the
      declaration. */
  datatype Manifest = Manifest(revision: string, datasets: seq<DatasetRecord>, rows: nat, chunkBytes: nat, bytes: nat,
                               fileCount: nat, rest: string)

  /** A public directory, and what its manifest and its checksum file parse to. */
  datatype Payload = Payload(manifest: Manifest, inventory: seq<M.PublicFile>, tree: Files)

  /** What the registry declares for the export, and the hash function. */
  datatype Declaration = Declaration(datasets: seq<DatasetContract>, formats: Formats, sha: Sha)

  // ----- what the validator demands -----

  function TotalBytes(datasets: seq<DatasetRecord>): nat {
    if datasets == [] then 0 else TotalBytes(datasets[..|datasets| - 1]) + datasets[|datasets| - 1].bytes
  }

  /** Sizes of some files of a directory, added up. */
  ghost function BytesAt(tree: Files, paths: set<string>): nat
    requires paths <= tree.Keys
  {
    if paths == {} then 0
    else
      var path :| path in paths;
      Utf8Length(tree[path]) + BytesAt(tree, paths - {path})
  }

  /** A record of the checksum file that tells the truth about another file. */
  predicate RecordOk(r: M.PublicFile, tree: Files, sha: Sha) {
    && SafeRelative(r.path) && r.path != CHECKSUMS && r.path in tree
    && M.IsDigest(r.sha256) && r.sha256 == sha(tree[r.path]) && r.bytes == Utf8Length(tree[r.path])
  }

  predicate DistinctPaths(inventory: seq<M.PublicFile>) {
    forall i, j :: 0 <= i < j < |inventory| ==> inventory[i].path != inventory[j].path
  }

  predicate Listed(inventory: seq<M.PublicFile>, path: string) {
    exists i :: 0 <= i < |inventory| && inventory[i].path == path
  }

  /** Every file but the checksum file is listed once, truly, and nothing else is. */
  predicate InventoryComplete(inventory: seq<M.PublicFile>, tree: Files, sha: Sha) {
    && inventory != [] && DistinctPaths(inventory)
    && (forall i :: 0 <= i < |inventory| ==> RecordOk(inventory[i], tree, sha))
    && (forall path :: path in tree && path != CHECKSUMS ==> Listed(inventory, path))
  }

  ghost predicate AggregatesOk(p: Payload) {
    && p.manifest.bytes == BytesAt(p.tree, p.tree.Keys) <= M.MAX_PUBLIC_BYTES
    && p.manifest.fileCount == |p.tree|
  }

  /** `_validate_public_payload_v2` raises nothing. */
  ghost predicate Validates(d: Declaration, p: Payload, revision: string) {
    && p.manifest.revision == revision
    && MANIFEST in p.tree && CHECKSUMS in p.tree && SCHEMA in p.tree
    && InventoryComplete(p.inventory, p.tree, d.sha) && AggregatesOk(p)
    && PayloadValid(p.manifest.datasets, p.tree, d.datasets, d.formats, d.sha)
    && p.manifest.rows == TotalRows(p.manifest.datasets) && p.manifest.chunkBytes == TotalBytes(p.manifest.datasets)
  }

  // ----- the size of a directory -----

  lemma {:induction false} BytesWithout(tree: Files, paths: set<string>, path: string)
    requires path in paths && paths <= tree.Keys
    ensures BytesAt(tree, paths) == Utf8Length(tree[path]) + BytesAt(tree, paths - {path})
    decreases paths
  {
    hide Utf8Length;
    var first := FirstOf(tree, paths);
    if first != path {
      BytesWithout(tree, paths - {first}, path);
      BytesWithout(tree, paths - {path}, first);
      assert paths - {first} - {path} == paths - {path} - {first};
    }
  }

  /** The file that the definition takes first. */
  lemma FirstOf(tree: Files, paths: set<string>) returns (path: string)
    requires paths != {} && paths <= tree.Keys
    ensures path in paths && BytesAt(tree, paths) == Utf8Length(tree[path]) + BytesAt(tree, paths - {path})
  {
    hide Utf8Length;
    path :| path in paths && BytesAt(tree, paths) == Utf8Length(tree[path]) + BytesAt(tree, paths - {path});
  }

  function PathsOf(inventory: seq<M.PublicFile>): (r: set<string>)
    ensures forall path :: path in r <==> Listed(inventory, path)
  {
    set i | 0 <= i < |inventory| :: inventory[i].path
  }

  /** Files listed once each: as many as records, and as large. */
  lemma {:induction false} ListedBytes(inventory: seq<M.PublicFile>, tree: Files, sha: Sha)
    requires DistinctPaths(inventory) && forall i :: 0 <= i < |inventory| ==> RecordOk(inventory[i], tree, sha)
    ensures PathsOf(inventory) <= tree.Keys && |PathsOf(inventory)| == |inventory|
    ensures BytesAt(tree, PathsOf(inventory)) == M.FileBytes(inventory)
  {
    hide Utf8Length, M.IsDigest, SafeRelative;
    forall path | path in PathsOf(inventory) ensures path in tree {
      var i :| 0 <= i < |inventory| && inventory[i].path == path;
      assert RecordOk(inventory[i], tree, sha);
    }
    if inventory != [] {
      var rest := inventory[1..];
      assert forall i :: 0 <= i < |rest| ==> rest[i] == inventory[i + 1];
      ListedBytes(rest, tree, sha);
      FirstPath(inventory);
      BytesWithout(tree, PathsOf(inventory), inventory[0].path);
      assert RecordOk(inventory[0], tree, sha);
    }
  }

  lemma FirstPath(inventory: seq<M.PublicFile>)
    requires inventory != [] && DistinctPaths(inventory)
    ensures inventory[0].path in PathsOf(inventory)
    ensures PathsOf(inventory) - {inventory[0].path} == PathsOf(inventory[1..])
    ensures |PathsOf(inventory)| == |PathsOf(inventory[1..])| + 1
  {
    var first, rest := inventory[0].path, inventory[1..];
    assert forall i :: 0 <= i < |rest| ==> rest[i] == inventory[i + 1];
    forall path ensures path in PathsOf(inventory) - {first} <==> path in PathsOf(rest) {
      if path in PathsOf(inventory) - {first} {
        var i :| 0 <= i < |inventory| && inventory[i].path == path;
        assert rest[i - 1].path == path;
      }
      if path in PathsOf(rest) {
        var i :| 0 <= i < |rest| && rest[i].path == path;
        assert inventory[i + 1].path == path;
      }
    }
    assert PathsOf(inventory) - {first} == PathsOf(rest);
    assert inventory[0].path in PathsOf(inventory);
  }

  /** With a complete inventory, the directory is the listed files and the checksum file. */
  lemma {:induction false} CompleteBytes(inventory: seq<M.PublicFile>, tree: Files, sha: Sha)
    requires InventoryComplete(inventory, tree, sha) && CHECKSUMS in tree
    ensures |tree| == |inventory| + 1
    ensures BytesAt(tree, tree.Keys) == M.FileBytes(inventory) + Utf8Length(tree[CHECKSUMS])
  {
    hide Utf8Length, RecordOk, Listed;
    ListedBytes(inventory, tree, sha);
    NotListed(inventory, tree, sha);
    BytesWithout(tree, tree.Keys, CHECKSUMS);
    assert tree.Keys - {CHECKSUMS} == PathsOf(inventory);
    assert |tree| == |tree.Keys|;
  }

  lemma NotListed(inventory: seq<M.PublicFile>, tree: Files, sha: Sha)
    requires forall i :: 0 <= i < |inventory| ==> RecordOk(inventory[i], tree, sha)
    ensures !Listed(inventory, CHECKSUMS)
  {
  }

  // ----- a settled payload passes -----

  /** The directory before the manifest and the checksum file are written, as listed. */
  predicate Base(files: seq<M.PublicFile>, tree: Files, sha: Sha) {
    && MANIFEST !in tree && CHECKSUMS !in tree && SCHEMA in tree
    && DistinctPaths(files)
    && (forall i :: 0 <= i < |files| ==> RecordOk(files[i], tree, sha))
    && (forall path :: path in tree ==> Listed(files, path))
  }

  /** The two files that are written last. */
  function Completed(base: Files, settled: M.Payload): Files {
    base[MANIFEST := settled.manifest][CHECKSUMS := settled.checksums]
  }

  lemma CompletedInventory(draft: M.Draft, base: Files, settled: M.Payload, sha: Sha)
    requires Base(draft.files, base, sha) && M.IsDigest(sha(settled.manifest))
    ensures InventoryComplete(draft.files + [M.ManifestFile(settled.manifest, sha)], Completed(base, settled), sha)
  {
    hide Utf8Length, M.IsDigest, Listed, SafeRelative;
    DataFilesSafe();
    var inventory, tree := draft.files + [M.ManifestFile(settled.manifest, sha)], Completed(base, settled);
    var n := |draft.files|;
    forall i | 0 <= i < |inventory| ensures RecordOk(inventory[i], tree, sha) {
      if i < n { assert RecordOk(draft.files[i], base, sha); }
    }
    forall i, j | 0 <= i < j < |inventory| ensures inventory[i].path != inventory[j].path {
      assert RecordOk(draft.files[i], base, sha);
    }
    forall path | path in tree && path != CHECKSUMS ensures Listed(inventory, path) {
      ListedStill(draft.files, M.ManifestFile(settled.manifest, sha), path);
    }
  }

  lemma {:induction false} DataFilesSafe()
    ensures SafeRelative(MANIFEST) && SafeRelative(SCHEMA)
  {
    hide SafeRelative;
    assert "data/" + "manifest.json" == MANIFEST;
    assert "data/" + "schema.json" == SCHEMA;
    OneLevel("manifest.json");
    OneLevel("schema.json");
  }

  lemma {:induction false} OneLevel(file: string)
    requires '/' !in file && '\\' !in file && |file| > 2
    ensures SafeRelative("data/" + file)
  {
    FirstSegment("data", file);
    OneSegment(file);
    assert "data" + ("/" + file) == "data/" + file;
    assert |"data"| == 4 && ["data"] + [file] == ["data", file];
    hide Segments;
    assert forall c :: c in "data/" + file ==> c in "data/" || c in file;
    assert PlainSegment("data") && PlainSegment(file);
  }

  lemma ListedStill(files: seq<M.PublicFile>, last: M.PublicFile, path: string)
    ensures Listed(files + [last], path) <==> Listed(files, path) || path == last.path
  {
    var all := files + [last];
    if Listed(files, path) {
      var i :| 0 <= i < |files| && files[i].path == path;
      assert all[i].path == path;
    }
    assert all[|files|].path == last.path;
  }

  lemma {:induction false} FileBytesSnoc(files: seq<M.PublicFile>, last: M.PublicFile)
    ensures M.FileBytes(files + [last]) == M.FileBytes(files) + last.bytes
  {
    if files == [] {
      assert [] + [last] == [last];
      assert [last][1..] == [];
    } else {
      assert (files + [last])[1..] == files[1..] + [last];
      FileBytesSnoc(files[1..], last);
    }
  }

  /** The total that the loop settled on is the size of the directory. */
  lemma SettledAggregates(draft: M.Draft, base: Files, settled: M.Payload, p: Payload, sha: Sha)
    requires Base(draft.files, base, sha) && M.IsDigest(sha(settled.manifest)) && M.StatesItsSize(settled, draft, sha)
    requires p.tree == Completed(base, settled) && p.inventory == draft.files + [M.ManifestFile(settled.manifest, sha)]
    ensures InventoryComplete(p.inventory, p.tree, sha)
    ensures p.manifest.bytes == settled.total && p.manifest.fileCount == |draft.files| + 2 ==> AggregatesOk(p)
  {
    hide Utf8Length, M.IsDigest, Base, InventoryComplete, M.TextOf, M.Manifest, M.Checksums;
    CompletedInventory(draft, base, settled, sha);
    CompleteBytes(p.inventory, p.tree, sha);
    FileBytesSnoc(draft.files, M.ManifestFile(settled.manifest, sha));
  }

  /** Finished projections, written with any other files of the site, and the manifest that
      the loop settled: the validator, inventory and totals included, accepts the directory
      exactly when the caps on chunks and rows are met. */
  lemma {:induction false} WrittenPayloadValidates(projections: seq<Projection>, d: Declaration, base: Files,
                                                   draft: M.Draft, settled: M.Payload, p: Payload, revision: string)
    requires DistinctIds(projections) && (forall i :: 0 <= i < |projections| ==> Finished(projections[i], d.formats))
    requires d.datasets == Declarations(projections) && (forall text :: M.IsDigest(d.sha(text)))
    requires WritePayload(projections, d.sha).Ok?
    requires forall path :: path in WritePayload(projections, d.sha).value.1 ==>
      path in base && base[path] == WritePayload(projections, d.sha).value.1[path]
    requires Base(draft.files, base, d.sha) && M.StatesItsSize(settled, draft, d.sha)
    requires p.tree == Completed(base, settled)
    requires p.inventory == draft.files + [M.ManifestFile(settled.manifest, d.sha)]
    requires var datasets := WritePayload(projections, d.sha).value.0;
      p.manifest == Manifest(revision, datasets, TotalRows(datasets), TotalBytes(datasets), settled.total,
                             |draft.files| + 2, p.manifest.rest)
    ensures var datasets := WritePayload(projections, d.sha).value.0;
      Validates(d, p, revision) <==>
        && (forall i :: 0 <= i < |datasets| ==> |datasets[i].chunks| <= CHUNKS_PER_DATASET)
        && TotalChunks(datasets) <= CHUNKS_IN_ALL && TotalRows(datasets) <= ROWS_IN_ALL
  {
    hide WritePayload, Finished, DistinctIds, InventoryComplete, AggregatesOk, M.StatesItsSize, M.IsDigest,
         PayloadValid,
         TotalRows, TotalChunks, TotalBytes;
    SettledAggregates(draft, base, settled, p, d.sha);
    PublisherMeetsValidator(projections, d.formats, d.sha, p.tree);
  }

  // ----- the two last files parse to what they state -----

  /** Read back as it is, keys unique, integers short. */
  ghost predicate Plain(v: Value) {
    ReadBack(SortKeys(v)) == SortKeys(v) && UniqueKeys(v) && IntegralNumbersShort(v)
  }

  lemma {:induction false} LeafFields(fields: seq<Field>)
    requires forall i :: 0 <= i < |fields| ==> fields[i].value.Int? || fields[i].value.Str?
    ensures ReadBack(Obj(fields)) == Obj(fields)
    ensures UniqueFields(fields) ==> UniqueKeys(Obj(fields))
  {
    hide UniqueFields;
    assert ReadBackFields(fields) == fields;
  }

  lemma {:induction false} ShortFieldsOnly(fields: seq<Field>)
    requires forall i :: 0 <= i < |fields| ==>
      fields[i].value.Str? || (fields[i].value.Int? && DigitCount(Abs(fields[i].value.i)) <= MAX_DECIMAL_DIGITS)
    ensures IntegralNumbersShort(Obj(fields))
  {
    hide DigitCount, Abs;
    forall i | 0 <= i < |fields| ensures IntegralNumbersShort(fields[i].value) {}
    assert ShortFields(fields);
  }

  lemma {:induction false} PlainRecord(file: M.PublicFile)
    requires file.bytes <= M.MAX_PUBLIC_BYTES
    ensures Plain(M.Record(file))
  {
    hide SortKeys, DigitCount, ReadBack, UniqueKeys, IntegralNumbersShort, UniqueFields, M.Record;
    M.RecordSorted(file);
    M.SevenDigits(file.bytes);
    var v := M.Record(file);
    LeafFields(SortKeys(v).fields);
    RecordLeaves(file);
    LeafFields(v.fields);
    ShortFieldsOnly(v.fields);
  }

  lemma RecordLeaves(file: M.PublicFile)
    ensures M.Record(file).Obj? && UniqueFields(M.Record(file).fields)
    ensures forall i :: 0 <= i < |M.Record(file).fields| ==>
      M.Record(file).fields[i].value.Str? || M.Record(file).fields[i].value == Int(file.bytes)
  {
    var fields := M.Record(file).fields;
    assert |"path"| == 4 && |"sha256"| == 6 && |"bytes"| == 5;
    assert fields[0].key == "path" && fields[1].key == "sha256" && fields[2].key == "bytes";
  }

  lemma {:induction false} PlainList(rows: seq<Value>)
    requires forall i :: 0 <= i < |rows| ==> Plain(rows[i])
    ensures Plain(Arr(rows))
  {
    var sorted := SortItems(rows);
    forall i | 0 <= i < |rows|
      ensures ReadBack(sorted[i]) == sorted[i] && UniqueKeys(rows[i]) && IntegralNumbersShort(rows[i])
    {
      assert Plain(rows[i]);
    }
    assert ReadBackItems(sorted) == sorted;
  }

  lemma {:induction false} PlainField(key: string, v: Value)
    requires Plain(v)
    ensures Plain(Obj([Field(key, v)]))
  {
    M.OneFieldSorted(Field(key, v));
    hide SortKeys;
    var g := Field(key, SortKeys(v));
    assert ReadBackFields([g]) == [g];
    assert ShortFields([Field(key, v)]);
  }

  /** The checksum file loads as the inventory it was printed from. */
  lemma {:induction false} ChecksumsReadBack(draft: M.Draft, settled: M.Payload, sha: Sha)
    requires M.StatesItsSize(settled, draft, sha)
    ensures Loaded(settled.checksums) == Ok(SortKeys(M.Checksums(draft, settled.manifest, sha)))
  {
    hide Plain, Utf8Length, Dumped, Loaded, M.Manifest, M.Record, Print, SortKeys;
    var file := M.ManifestFile(settled.manifest, sha);
    var rows := M.Records(draft.files) + [M.Record(file)];
    forall i | 0 <= i < |rows| ensures Plain(rows[i]) {
      if i < |draft.files| {
        M.OneFileAmongAll(draft.files, i);
        PlainRecord(draft.files[i]);
      } else {
        PlainRecord(file);
      }
    }
    PlainList(rows);
    PlainField("files", Arr(rows));
    M.ChecksumsEncoding(draft, settled.manifest, sha);
    PlainLoads(M.Checksums(draft, settled.manifest, sha), settled.checksums);
  }

  lemma {:induction false} PlainLoads(v: Value, text: string)
    requires Plain(v) && Dumped(v) == Ok(text)
    ensures Loaded(text) == Ok(SortKeys(v))
  {
    hide SortKeys, ReadBack, UniqueKeys, IntegralNumbersShort, Dumped, Loaded;
    RoundTrip(v, text);
  }

  /** The template has the hole for the total at `totals.bytes`. */
  predicate HoleAtTotal(template: Value) {
    template.Obj? &&
    match Lookup(template.fields, "totals")
    case Some(Obj(totals)) => Lookup(totals, "bytes") == Some(NonFinite)
    case _ => false
  }

  lemma {:induction false} FilledField(fields: seq<Field>, key: string, total: nat)
    requires Lookup(fields, key).Some?
    ensures Lookup(M.FillFields(fields, total), key) == Some(M.Fill(Lookup(fields, key).value, total))
  {
    hide M.Fill;
    if fields[0].key != key {
      assert M.FillFields(fields, total)[1..] == M.FillFields(fields[1..], total);
      FilledField(fields[1..], key, total);
    }
  }

  lemma {:induction false} ReadField(fields: seq<Field>, key: string)
    requires UniqueKeys(Obj(fields)) && Lookup(fields, key).Some?
    ensures ReadBack(SortKeys(Obj(fields))).Obj?
    ensures Lookup(ReadBack(SortKeys(Obj(fields))).fields, key) == Some(ReadBack(SortKeys(Lookup(fields, key).value)))
  {
    hide Sort, Lookup, UniqueFields;
    var f := Field(key, Lookup(fields, key).value);
    var sorted := Sort(SortFieldValues(fields), FieldLt);
    SortedFieldOrigin(fields, f);
    var i :| 0 <= i < |sorted| && sorted[i] == Field(key, SortKeys(f.value));
    SortedUnique(fields);
    ReadFieldAt(sorted, i);
  }

  lemma {:induction false} SortedUnique(fields: seq<Field>)
    requires UniqueKeys(Obj(fields))
    ensures UniqueFields(Sort(SortFieldValues(fields), FieldLt))
  {
    hide Sort, UniqueFields;
    SortKeysSorts(Obj(fields));
  }

  lemma {:induction false} ReadFieldAt(fields: seq<Field>, i: nat)
    requires UniqueFields(fields) && i < |fields|
    ensures Lookup(ReadBackFields(fields), fields[i].key) == Some(ReadBack(fields[i].value))
  {
    hide ReadBack;
    var back := ReadBackFields(fields);
    assert back[i] in back;
    LookupUnique(back, back[i]);
  }

  /** The manifest file, when it loads, states the total that was settled. */
  lemma {:induction false} TotalReadBack(draft: M.Draft, settled: M.Payload, sha: Sha)
    requires M.StatesItsSize(settled, draft, sha) && HoleAtTotal(draft.template)
    requires UniqueKeys(M.Manifest(draft, settled.total))
    requires Dumped(M.Manifest(draft, settled.total)) == Ok(settled.manifest)
    requires Loaded(settled.manifest).Ok?
    ensures var back := Loaded(settled.manifest).value;
      back.Obj? &&
      match Lookup(back.fields, "totals")
      case Some(Obj(totals)) => Lookup(totals, "bytes") == Some(Int(settled.total))
      case _ => false
  {
    hide SortKeys, ReadBack, IntegralNumbersShort, Utf8Length, Dumped, Loaded, M.Checksums, Print, M.FillFields,
         UniqueFields,
         M.StatesItsSize, Lookup;
    var manifest := M.Manifest(draft, settled.total);
    RoundTrip(manifest, settled.manifest);
    FilledField(draft.template.fields, "totals", settled.total);
    var totals := Lookup(draft.template.fields, "totals").value.fields;
    FilledField(totals, "bytes", settled.total);
    ReadField(manifest.fields, "totals");
    var filled := M.FillFields(totals, settled.total);
    ChildKeys(manifest.fields, Field("totals", Obj(filled)));
    ReadField(filled, "bytes");
    IntegerStays(settled.total);
  }

  lemma IntegerStays(n: nat)
    ensures ReadBack(SortKeys(Int(n))) == Int(n)
  {
  }

  // ----- the validator -----

  /** `seen`: the paths of the records checked so far. */
  method CheckInventory(inventory: seq<M.PublicFile>, tree: Files, sha: Sha) returns (ok: bool)
    ensures ok <==> InventoryComplete(inventory, tree, sha)
  {
    hide RecordOk;
    if inventory == [] { return false; }
    var seen: set<string> := {};
    for i := 0 to |inventory|
      invariant forall k :: 0 <= k < i ==> RecordOk(inventory[k], tree, sha)
      invariant forall j, k :: 0 <= j < k < i ==> inventory[j].path != inventory[k].path
      invariant forall path :: path in seen <==> exists k :: 0 <= k < i && inventory[k].path == path
    {
      if inventory[i].path in seen || !RecordOk(inventory[i], tree, sha) { return false; }
      seen := seen + {inventory[i].path};
    }
    ok := forall path :: path in tree && path != CHECKSUMS ==> path in seen;
    assert ok <==> forall path :: path in tree && path != CHECKSUMS ==> Listed(inventory, path);
  }

  /** `sum(path.stat().st_size for path in all_files)`. */
  method AddSizes(tree: Files) returns (total: nat)
    ensures total == BytesAt(tree, tree.Keys)
  {
    hide Utf8Length;
    total := 0;
    var left := tree.Keys;
    while left != {}
      invariant left <= tree.Keys && total + BytesAt(tree, left) == BytesAt(tree, tree.Keys)
      decreases |left|
    {
      var path :| path in left;
      BytesWithout(tree, left, path);
      total := total + Utf8Length(tree[path]);
      left := left - {path};
    }
  }

  /** `_validate_public_payload_v2`. */
  method ValidatePayload(d: Declaration, p: Payload, revision: string) returns (ok: bool)
    ensures ok <==> Validates(d, p, revision)
  {
    hide InventoryComplete, DatasetValid, TotalRows, TotalBytes, TotalChunks;
    if p.manifest.revision != revision || MANIFEST !in p.tree || CHECKSUMS !in p.tree || SCHEMA !in p.tree {
      return false;
    }
    var inventory := CheckInventory(p.inventory, p.tree, d.sha);
    var size := AddSizes(p.tree);
    if !inventory || p.manifest.bytes != size || size > M.MAX_PUBLIC_BYTES || p.manifest.fileCount != |p.tree| {
      return false;
    }
    ok := CheckDatasets(d, p.manifest, p.tree);
  }

  /** The dataset loop with its running totals. */
  method CheckDatasets(d: Declaration, manifest: Manifest, tree: Files) returns (ok: bool)
    ensures ok <==>
      && PayloadValid(manifest.datasets, tree, d.datasets, d.formats, d.sha)
      && manifest.rows == TotalRows(manifest.datasets) && manifest.chunkBytes == TotalBytes(manifest.datasets)
  {
    hide DatasetValid;
    var datasets := manifest.datasets;
    if |datasets| != |d.datasets| { return false; }
    var rows, bytes, chunks := 0, 0, 0;
    assert datasets[..0] == [];
    for i := 0 to |datasets|
      invariant rows == TotalRows(datasets[..i]) && bytes == TotalBytes(datasets[..i])
      invariant chunks == TotalChunks(datasets[..i])
      invariant forall k :: 0 <= k < i ==>
        datasets[k].id == d.datasets[k].id && DatasetValid(datasets[k], tree, d.datasets[k].contract, d.formats, d.sha)
    {
      assert datasets[..i + 1][..i] == datasets[..i];
      if datasets[i].id != d.datasets[i].id { return false; }
      var valid := ValidateDataset(datasets[i], tree, d.datasets[i].contract, d.formats, d.sha);
      if !valid { return false; }
      rows, bytes, chunks := rows + datasets[i].rows, bytes + datasets[i].bytes, chunks + |datasets[i].chunks|;
    }
    assert datasets[..|datasets|] == datasets;
    ok := rows == manifest.rows && bytes == manifest.chunkBytes && rows <= ROWS_IN_ALL && chunks <= CHUNKS_IN_ALL;
  }
}
