/**
 Chunk files and their records (`_write_chunks` in quant_data/atlas/exporter.py), and the
 validator that reads them back with its own checks (`_validate_public_payload_v2`).
 */
module PublicChunks {
  import opened Wrappers
  import opened Ordering
  import opened Digits
  import opened Json
  import opened JsonReader
  import opened JsonRoundTrip
  import opened JsonCanonical
  import opened Chunking
  import opened PublicRows

  const CHUNK_ROWS: nat := 250
  const CHUNK_BYTES: nat := 262144
  const CHUNKS_PER_DATASET: nat := 20
  const CHUNKS_IN_ALL: nat := 48
  const ROWS_IN_ALL: nat := 12000

  // ----- records -----

  /** `f"{index:04d}"`. */
  function IndexText(index: nat): (s: string)
    ensures s != [] && AllDigits(s)
  {
    var digits := NatText(index);
    if |digits| < 4 then Zeros(4 - |digits|) + digits else digits
  }

  /** `data/chunks/<dataset>-<index>.json`. */
  function ChunkPath(dataset: string, index: nat): string {
    "data/chunks/" + (dataset + ("-" + (IndexText(index) + ".json")))
  }

  /** `raw.split("/")`. */
  function Segments(path: string): (r: seq<string>)
    ensures r != []
  {
    if path == [] then [[]]
    else
      var rest := Segments(path[1..]);
      if path[0] == '/' then [[]] + rest else [[path[0]] + rest[0]] + rest[1..]
  }

  predicate PlainSegment(s: string) {
    s != "" && s != "." && s != ".."
  }

  /** `_safe_public_relative`: a normal relative path below the public directories. */
  predicate SafeRelative(path: string) {
    && (forall i :: 0 <= i < |Segments(path)| ==> PlainSegment(Segments(path)[i]))
    && '\\' !in path
    && (path == "index.html" || "assets/" <= path || "data/" <= path)
  }

  predicate ChunkPathOk(path: string) {
    SafeRelative(path) && "data/chunks/" <= path
  }

  /** An id that is one segment. */
  predicate PlainId(id: string) {
    '/' !in id && '\\' !in id
  }

  /** Relative path to text. */
  type Files = map<string, string>

  datatype ChunkRecord = ChunkRecord(path: string, sha256: string, rows: nat, bytes: nat,
                                     firstKey: seq<Value>, lastKey: seq<Value>)

  datatype DatasetRecord = DatasetRecord(id: string, rows: nat, bytes: nat, firstKey: seq<Value>, lastKey: seq<Value>,
                                         chunks: seq<ChunkRecord>)

  type Sha = string -> string

  /** The record of one payload: counts and keys are read back from its text. */
  function RecordOf(path: string, payload: string, identity: seq<string>, sha: Sha): Result<ChunkRecord, Fault> {
    match Loaded(payload)
    case Err(e) => Err(e)
    case Ok(v) =>
      if !v.Arr? || v.items == [] then Err(ValidationFault)
      else Ok(ChunkRecord(path, sha(payload), |v.items|, Utf8Length(payload),
                          Cells(v.items[0], identity), Cells(v.items[|v.items| - 1], identity)))
  }

  function RecordsOf(id: string, payloads: seq<string>, identity: seq<string>, sha: Sha)
    : Result<seq<ChunkRecord>, Fault>
  {
    if payloads == [] then Ok([])
    else
      var n := |payloads| - 1;
      match RecordsOf(id, payloads[..n], identity, sha)
      case Err(e) => Err(e)
      case Ok(records) =>
        match RecordOf(ChunkPath(id, n + 1), payloads[n], identity, sha)
        case Err(e) => Err(e)
        case Ok(record) => Ok(records + [record])
  }

  function FilesOf(id: string, payloads: seq<string>): (r: Files)
    ensures forall p :: p in r <==> exists i :: 1 <= i <= |payloads| && p == ChunkPath(id, i)
    ensures forall i :: 0 <= i < |payloads| ==> ChunkPath(id, i + 1) in r && r[ChunkPath(id, i + 1)] == payloads[i]
  {
    hide ChunkPath;
    OwnPathsDistinct(id);
    map i | 1 <= i <= |payloads| :: ChunkPath(id, i) := payloads[i - 1]
  }

  function SumRows(chunks: seq<ChunkRecord>): nat {
    if chunks == [] then 0 else SumRows(chunks[..|chunks| - 1]) + chunks[|chunks| - 1].rows
  }

  function SumRecordBytes(chunks: seq<ChunkRecord>): nat {
    if chunks == [] then 0 else SumRecordBytes(chunks[..|chunks| - 1]) + chunks[|chunks| - 1].bytes
  }

  function DatasetOf(id: string, chunks: seq<ChunkRecord>): DatasetRecord {
    DatasetRecord(id, SumRows(chunks), SumRecordBytes(chunks),
                  if chunks == [] then [] else chunks[0].firstKey,
                  if chunks == [] then [] else chunks[|chunks| - 1].lastKey, chunks)
  }

  /** One projection's turn in `_write_chunks`. */
  function WriteDataset(id: string, ordered: seq<Value>, identity: seq<string>, sha: Sha)
    : Result<(DatasetRecord, Files), Fault>
  {
    match Chunks(ordered, CHUNK_ROWS, CHUNK_BYTES)
    case Err(e) => Err(e)
    case Ok(chunks) =>
      match RecordsOf(id, Texts(chunks), identity, sha)
      case Err(e) => Err(e)
      case Ok(records) => Ok((DatasetOf(id, records), FilesOf(id, Texts(chunks))))
  }

  // ----- the form of chunk paths -----

  lemma {:induction false} OneSegment(s: string)
    requires '/' !in s
    ensures Segments(s) == [s]
  {
    if s != [] {
      assert s[0] in s;
      assert forall c :: c in s[1..] ==> c in s;
      OneSegment(s[1..]);
      assert [s[0]] + s[1..] == s;
    }
  }

  lemma {:induction false} FirstSegment(a: string, rest: string)
    requires '/' !in a
    ensures Segments(a + ("/" + rest)) == [a] + Segments(rest)
  {
    if a == [] {
      assert a + ("/" + rest) == "/" + rest && ("/" + rest)[1..] == rest;
    } else {
      assert a[0] in a;
      assert forall c :: c in a[1..] ==> c in a;
      FirstSegment(a[1..], rest);
      assert (a + ("/" + rest))[1..] == a[1..] + ("/" + rest);
      assert [a[0]] + a[1..] == a;
    }
  }

  /** A file in a directory below `data`. */
  lemma {:induction false} FileBelow(directory: string, file: string)
    requires '/' !in directory && '/' !in file && PlainSegment(directory) && PlainSegment(file)
    ensures Segments("data/" + (directory + ("/" + file))) == ["data", directory, file]
  {
    FirstSegment("data", directory + ("/" + file));
    assert "data" + ("/" + (directory + ("/" + file))) == "data/" + (directory + ("/" + file));
    FirstSegment(directory, file);
    OneSegment(file);
    assert ["data"] + ([directory] + [file]) == ["data", directory, file];
  }

  /** The publisher's chunk paths have the form that the validator asks for. */
  lemma {:induction false} ChunkPathForm(id: string, index: nat)
    requires PlainId(id)
    ensures ChunkPathOk(ChunkPath(id, index))
  {
    hide IndexText, Segments;
    var file := id + ("-" + (IndexText(index) + ".json"));
    assert AllDigits(IndexText(index));
    assert forall c :: c in IndexText(index) ==> IsDigit(c);
    assert forall c :: c in file ==> c in id || c == '-' || c in IndexText(index) || c in ".json";
    assert |file| >= 6;
    FileBelow("chunks", file);
    assert "data/" + ("chunks" + ("/" + file)) == "data/chunks/" + file == ChunkPath(id, index);
    assert |"chunks"| == 6 && |"data"| == 4 && PlainSegment("data") && PlainSegment("chunks") && PlainSegment(file);
  }

  // ----- chunk paths do not collide -----

  lemma {:induction false} IndexTextValue(index: nat)
    ensures TextNat(IndexText(index)) == index
  {
    hide NatText, Zeros, TextNat;
    var digits := NatText(index);
    NatTextValue(index);
    if |digits| < 4 { TextNatZeros(4 - |digits|, digits); }
  }

  /** The index is what stands behind the last hyphen. */
  lemma SplitAtHyphen(a: string, b: string, d: string, e: string)
    requires AllDigits(d) && AllDigits(e) && a + ("-" + d) == b + ("-" + e) && |d| <= |e|
    ensures a == b && d == e
  {
    var whole := a + ("-" + d);
    var other := b + ("-" + e);
    var k := |whole| - |d| - 1;
    assert whole[k] == '-' && other[k] == '-';
    assert whole[..k] == a && other[..k] == b;
    assert whole[k + 1..] == d && other[k + 1..] == e;
  }

  lemma ChunkPathInjective(a: string, i: nat, b: string, j: nat)
    requires ChunkPath(a, i) == ChunkPath(b, j)
    ensures a == b && i == j
  {
    hide IndexText;
    var d, e := IndexText(i), IndexText(j);
    SamePrefix("data/chunks/", a + ("-" + (d + ".json")), b + ("-" + (e + ".json")));
    assert a + ("-" + (d + ".json")) == (a + ("-" + d)) + ".json";
    assert b + ("-" + (e + ".json")) == (b + ("-" + e)) + ".json";
    SameSuffix(a + ("-" + d), b + ("-" + e), ".json");
    if |d| <= |e| { SplitAtHyphen(a, b, d, e); } else { SplitAtHyphen(b, a, e, d); }
    IndexTextValue(i);
    IndexTextValue(j);
  }

  lemma SamePrefix(p: string, a: string, b: string)
    requires p + a == p + b
    ensures a == b
  {
    assert (p + a)[|p|..] == a && (p + b)[|p|..] == b;
  }

  lemma SameSuffix(a: string, b: string, s: string)
    requires a + s == b + s
    ensures a == b
  {
    assert |a| == |b|;
    assert (a + s)[..|a|] == a && (b + s)[..|b|] == b;
  }

  lemma OwnPathsDistinct(id: string)
    ensures forall i: nat, j: nat :: ChunkPath(id, i) == ChunkPath(id, j) ==> i == j
  {
    hide ChunkPath;
    forall i: nat, j: nat | ChunkPath(id, i) == ChunkPath(id, j) ensures i == j { ChunkPathInjective(id, i, id, j); }
  }

  // ----- what the validator demands -----

  predicate ParsedRowOk(row: Value, c: Contract, formats: Formats) {
    && row.Obj?
    && (forall i :: 0 <= i < |row.fields| ==> Declared(c.fields, row.fields[i].key))
    && (forall i :: 0 <= i < |c.fields| ==>
          Lookup(row.fields, c.fields[i].name).Some? && CellOk(Cell(row, c.fields[i].name), c.fields[i], formats))
  }

  function Parsed(files: Files, path: string): seq<Value> {
    if path in files && Loaded(files[path]).Ok? && Loaded(files[path]).value.Arr? then Loaded(files[path]).value.items
    else []
  }

  predicate ChunkOk(chunk: ChunkRecord, files: Files, c: Contract, formats: Formats, sha: Sha) {
    var rows := Parsed(files, chunk.path);
    && ChunkPathOk(chunk.path) && chunk.path in files && rows != []
    && |rows| == chunk.rows <= CHUNK_ROWS
    && Utf8Length(files[chunk.path]) == chunk.bytes <= CHUNK_BYTES
    && sha(files[chunk.path]) == chunk.sha256
    && (forall i :: 0 <= i < |rows| ==> ParsedRowOk(rows[i], c, formats))
    && chunk.firstKey == Cells(rows[0], c.identity) && chunk.lastKey == Cells(rows[|rows| - 1], c.identity)
  }

  function ParsedAll(chunks: seq<ChunkRecord>, files: Files): seq<Value> {
    if chunks == [] then []
    else ParsedAll(chunks[..|chunks| - 1], files) + Parsed(files, chunks[|chunks| - 1].path)
  }

  /** `_order_atom`: a rank, and the value behind it. */
  datatype OrderAtom = NoneAtom | NumberAtom(number: int) | TextAtom(text: string)

  /** Other values raise; typed cells have none. */
  function OrderAtomOf(value: Value): OrderAtom {
    match value
    case Int(i) => NumberAtom(i)
    case Str(s) => TextAtom(s)
    case _ => NoneAtom
  }

  predicate AtomBefore(a: OrderAtom, b: OrderAtom) {
    match (a, b)
    case (NoneAtom, NoneAtom) => false
    case (NoneAtom, _) => true
    case (NumberAtom(m), NumberAtom(n)) => m < n
    case (NumberAtom(_), TextAtom(_)) => true
    case (TextAtom(s), TextAtom(t)) => TextLt(s, t)
    case _ => false
  }

  function OrderAtoms(row: Value, orderBy: seq<string>): (r: seq<OrderAtom>)
    ensures |r| == |orderBy| && forall i :: 0 <= i < |r| ==> r[i] == OrderAtomOf(Cell(row, orderBy[i]))
  {
    if orderBy == [] then [] else [OrderAtomOf(Cell(row, orderBy[0]))] + OrderAtoms(row, orderBy[1..])
  }

  /** How Python compares two tuples of them. */
  predicate AtomsBefore(a: seq<OrderAtom>, b: seq<OrderAtom>) {
    if a == [] || b == [] then a == [] && b != []
    else if a[0] == b[0] then AtomsBefore(a[1..], b[1..])
    else AtomBefore(a[0], b[0])
  }

  predicate OrderRises(orderBy: seq<string>, a: Value, b: Value) {
    AtomsBefore(OrderAtoms(a, orderBy), OrderAtoms(b, orderBy))
  }

  /** `_strict_bytes` of the identity values. */
  function IdentityText(row: Value, identity: seq<string>): Result<string, Fault> {
    Dumped(Arr(Cells(row, identity)))
  }

  /** Across all chunks: identities distinct as bytes, order strictly increasing. */
  predicate RowsInOrder(rows: seq<Value>, c: Contract) {
    && (forall i :: 0 <= i < |rows| ==> IdentityText(rows[i], c.identity).Ok?)
    && (forall i, j :: 0 <= i < j < |rows| ==> IdentityText(rows[i], c.identity) != IdentityText(rows[j], c.identity))
    && (forall i :: 0 < i < |rows| ==> OrderRises(c.orderBy, rows[i - 1], rows[i]))
  }

  predicate DatasetValid(d: DatasetRecord, files: Files, c: Contract, formats: Formats, sha: Sha) {
    var rows := ParsedAll(d.chunks, files);
    && |d.chunks| <= CHUNKS_PER_DATASET
    && (forall i :: 0 <= i < |d.chunks| ==> ChunkOk(d.chunks[i], files, c, formats, sha))
    && RowsInOrder(rows, c)
    && d.rows == |rows| <= c.maxRows && d.bytes == SumRecordBytes(d.chunks)
    && d.firstKey == (if rows == [] then [] else Cells(rows[0], c.identity))
    && d.lastKey == (if rows == [] then [] else Cells(rows[|rows| - 1], c.identity))
  }

  // ----- reading a chunk back -----

  lemma {:induction false} LookupOrderless(fields: seq<Field>, others: seq<Field>, key: string)
    requires UniqueFields(fields) && UniqueFields(others)
    requires forall f :: f in fields <==> f in others
    ensures Lookup(fields, key) == Lookup(others, key)
  {
    hide UniqueFields;
    var a, b := Lookup(fields, key), Lookup(others, key);
    if a.Some? { LookupUnique(others, Field(key, a.value)); }
    if b.Some? { LookupUnique(fields, Field(key, b.value)); }
  }

  /** Reading a row back gives its fields in key order; its cells are the same. */
  lemma {:induction false} RowReadsBack(row: Value, c: Contract, formats: Formats, field: string)
    requires RowOk(row, c, formats) && UniqueNames(c.fields)
    ensures ReadBack(SortKeys(row)) == SortKeys(row) && SortKeys(row).Obj?
    ensures UniqueFields(SortKeys(row).fields)
    ensures forall f :: f in SortKeys(row).fields <==> f in row.fields
    ensures Cell(SortKeys(row), field) == Cell(row, field)
    ensures Lookup(SortKeys(row).fields, field) == Lookup(row.fields, field)
  {
    RowKeysUnique(row, c, formats);
    var prepared := SortFieldValues(row.fields);
    LeavesStay(row, c, formats);
    SortedFieldsKeepKeys(row.fields);
    SortedRow(row);
    hide Sort, RowOk, CellOk, FieldLt, SortFieldValues, UniqueFields, UniqueNames;
    var sorted := Sort(prepared, FieldLt);
    forall i | 0 <= i < |sorted| ensures ReadBack(sorted[i].value) == sorted[i].value {
      assert sorted[i] in sorted;
      var j :| 0 <= j < |row.fields| && row.fields[j] == sorted[i];
    }
    assert ReadBackFields(sorted) == sorted;
    LookupOrderless(sorted, row.fields, field);
  }

  lemma {:induction false} SortedRow(row: Value)
    requires row.Obj?
    ensures SortKeys(row) == Obj(Sort(SortFieldValues(row.fields), FieldLt))
  {
  }

  lemma LeavesStay(row: Value, c: Contract, formats: Formats)
    requires RowOk(row, c, formats)
    ensures SortFieldValues(row.fields) == row.fields
    ensures forall i :: 0 <= i < |row.fields| ==> ReadBack(row.fields[i].value) == row.fields[i].value
  {
    hide SortFieldValues, CellOk;
    forall i | 0 <= i < |row.fields|
      ensures SortKeys(row.fields[i].value) == row.fields[i].value
      ensures ReadBack(row.fields[i].value) == row.fields[i].value
    {
      LeafKeys(row.fields[i].value, c.fields[i], formats);
    }
    hide SortKeys, ReadBack;
    assert SortFieldValues(row.fields) == row.fields;
  }

  lemma {:induction false} CellsReadBack(row: Value, c: Contract, formats: Formats, fields: seq<string>)
    requires RowOk(row, c, formats) && UniqueNames(c.fields)
    ensures Cells(SortKeys(row), fields) == Cells(row, fields)
  {
    hide RowOk, Cell, Cells;
    forall i | 0 <= i < |fields| ensures Cell(SortKeys(row), fields[i]) == Cell(row, fields[i]) {
      RowReadsBack(row, c, formats, fields[i]);
    }
  }

  lemma {:induction false} ParsedRow(row: Value, c: Contract, formats: Formats)
    requires RowOk(row, c, formats) && UniqueNames(c.fields)
    ensures ParsedRowOk(SortKeys(row), c, formats)
  {
    RowReadsBack(row, c, formats, "");
    var sorted := SortKeys(row);
    hide SortKeys, CellOk, Lookup, UniqueNames, UniqueFields;
    forall i | 0 <= i < |sorted.fields| ensures Declared(c.fields, sorted.fields[i].key) {
      assert sorted.fields[i] in row.fields;
      var j :| 0 <= j < |row.fields| && row.fields[j] == sorted.fields[i];
      assert c.fields[j].name == sorted.fields[i].key;
    }
    forall i | 0 <= i < |c.fields|
      ensures Lookup(sorted.fields, c.fields[i].name).Some?
      ensures CellOk(Cell(sorted, c.fields[i].name), c.fields[i], formats)
    {
      RowReadsBack(row, c, formats, c.fields[i].name);
      OwnCell(row, c, formats, i);
    }
  }

  lemma OwnCell(row: Value, c: Contract, formats: Formats, i: nat)
    requires RowOk(row, c, formats) && UniqueNames(c.fields) && i < |c.fields|
    ensures Lookup(row.fields, c.fields[i].name) == Some(row.fields[i].value)
    ensures Cell(row, c.fields[i].name) == row.fields[i].value && CellOk(row.fields[i].value, c.fields[i], formats)
  {
    RowKeysUnique(row, c, formats);
    hide CellOk, UniqueNames;
    assert row.fields[i].key == c.fields[i].name;
    assert row.fields[i] in row.fields;
    LookupUnique(row.fields, row.fields[i]);
  }

  /** A chunk's file reads back as its rows, fields in key order. */
  lemma {:induction false} ChunkReads(chunk: seq<Value>, c: Contract, formats: Formats)
    requires UniqueNames(c.fields) && AllRowsOk(chunk, c, formats) && AllEncodable(chunk)
    requires ListBytes(chunk) <= CHUNK_BYTES && Loaded(ListText(chunk)).Ok?
    ensures Loaded(ListText(chunk)).value == Arr(SortItems(chunk))
  {
    hide RowOk, Dumped, Loaded, ListText, ListBytes, Encodable, UniqueNames;
    hide ReadBack, SortKeys;
    DumpedList(chunk);
    forall i | 0 <= i < |chunk| ensures UniqueKeys(chunk[i]) && ReadBack(SortKeys(chunk[i])) == SortKeys(chunk[i]) {
      RowKeysUnique(chunk[i], c, formats);
      RowReadsBack(chunk[i], c, formats, "");
    }
    RoundTrip(Arr(chunk), ListText(chunk));
    var items := SortItems(chunk);
    assert ReadBackItems(items) == items;
    ReadBackList(chunk);
  }

  lemma {:induction false} ReadBackList(items: seq<Value>)
    ensures ReadBack(SortKeys(Arr(items))) == Arr(ReadBackItems(SortItems(items)))
  {
  }

  // ----- identities -----

  lemma {:induction false} SameAtoms(a: seq<Value>, b: seq<Value>)
    requires Same(Arr(a), Arr(b), false)
    requires (forall i :: 0 <= i < |a| ==> Kind(a[i]) < 3) && (forall i :: 0 <= i < |b| ==> Kind(b[i]) < 3)
    ensures a == b
  {
    forall i | 0 <= i < |a| ensures a[i] == b[i] {
      assert Same(a[i], b[i], false);
    }
  }

  lemma AtomsHaveKeys(a: seq<Value>)
    requires forall i :: 0 <= i < |a| ==> Kind(a[i]) < 3
    ensures UniqueKeys(Arr(a))
  {
    forall i | 0 <= i < |a| ensures UniqueKeys(a[i]) { assert Kind(a[i]) < 3; }
  }

  /** Different identities have different bytes. */
  lemma IdentityBytesDistinct(a: seq<Value>, b: seq<Value>)
    requires (forall i :: 0 <= i < |a| ==> Kind(a[i]) < 3) && (forall i :: 0 <= i < |b| ==> Kind(b[i]) < 3)
    requires a != b && Dumped(Arr(a)).Ok?
    ensures Dumped(Arr(a)) != Dumped(Arr(b))
  {
    hide SortKeys, Print, Refusal, Utf8Length, Same, UniqueKeys, Kind;
    if Dumped(Arr(a)) == Dumped(Arr(b)) {
      AtomsHaveKeys(a);
      AtomsHaveKeys(b);
      TextDeterminesValue(Arr(a), Arr(b), 0);
      SameAtoms(a, b);
    }
  }

  lemma {:induction false} JoinMember(parts: seq<string>, i: nat)
    requires i < |parts|
    ensures Utf8Length(parts[i]) <= Utf8Length(Join(parts))
  {
    hide Utf8Length;
    if |parts| > 1 {
      Utf8Concat(parts[0] + ",", Join(parts[1..]));
      Utf8Concat(parts[0], ",");
      if i > 0 { JoinMember(parts[1..], i - 1); }
    }
  }

  /** A cell's text is part of its row's. */
  lemma CellBytes(row: Value, c: Contract, formats: Formats, field: string)
    requires RowOk(row, c, formats) && UniqueNames(c.fields) && Declared(c.fields, field)
    ensures RowBytes(Cell(row, field)) <= RowBytes(row)
    ensures Encodable(row) ==> Encodable(Cell(row, field))
  {
    var i :| 0 <= i < |c.fields| && c.fields[i].name == field;
    OwnCell(row, c, formats, i);
    LeafKeys(row.fields[i].value, c.fields[i], formats);
    RowReadsBack(row, c, formats, field);
    var sorted := SortKeys(row).fields;
    assert row.fields[i] in sorted;
    var j :| 0 <= j < |sorted| && sorted[j] == row.fields[i];
    hide RowOk, CellOk, SortKeys, Lookup, UniqueNames, UniqueFields;
    FieldInRow(sorted, j);
    LeafRefusal(row.fields[i].value, c.fields[i], formats);
  }

  lemma FieldInRow(fields: seq<Field>, j: nat)
    requires j < |fields|
    ensures Utf8Length(Print(fields[j].value)) <= Utf8Length(Print(Obj(fields)))
    ensures Refusal(Obj(fields), 1).None? ==> Refusal(fields[j].value, 2).None?
  {
    hide Utf8Length, PrintFields, Join, Quote, RefusalInFields;
    var parts := PrintFields(fields);
    JoinMember(parts, j);
    Utf8Concat("{" + Join(parts), "}");
    Utf8Concat("{", Join(parts));
    Utf8Concat(Quote(fields[j].key) + ":", Print(fields[j].value));
  }

  lemma {:induction false} LeafRefusal(v: Value, f: FieldContract, formats: Formats)
    requires CellOk(v, f, formats)
    ensures Refusal(v, 2).None? ==> Refusal(v, 1).None?
  {
  }

  lemma {:induction false} FewCells(cells: seq<Value>, bound: nat)
    requires forall i :: 0 <= i < |cells| ==> RowBytes(cells[i]) <= bound
    ensures SumBytes(cells) <= |cells| * bound
  {
    hide RowBytes;
    if cells != [] {
      var n := |cells| - 1;
      FewCells(cells[..n], bound);
      assert (n + 1) * bound == n * bound + bound;
    }
  }

  /** The identity of a row that fits a chunk can be encoded. */
  lemma {:induction false} IdentityEncodes(row: Value, c: Contract, formats: Formats)
    requires ContractOk(c) && RowOk(row, c, formats) && RowFits(row, CHUNK_BYTES)
    ensures Dumped(Arr(Cells(row, c.identity))).Ok?
  {
    var cells := Cells(row, c.identity);
    ListBytesSnoc([], row);
    hide RowOk, CellOk, Declared, RowBytes, Encodable, Dumped, UniqueNames;
    forall i | 0 <= i < |cells| ensures RowBytes(cells[i]) <= CHUNK_BYTES - 2 && Encodable(cells[i]) {
      CellBytes(row, c, formats, c.identity[i]);
    }
    FewCells(cells, CHUNK_BYTES - 2);
    assert |cells| * (CHUNK_BYTES - 2) <= 32 * (CHUNK_BYTES - 2);
    DumpedList(cells);
  }

  // ----- the records and the files belong together -----

  lemma {:induction false} RecordAt(id: string, payloads: seq<string>, identity: seq<string>, sha: Sha, i: nat)
    requires RecordsOf(id, payloads, identity, sha).Ok? && i < |payloads|
    ensures |RecordsOf(id, payloads, identity, sha).value| == |payloads|
    ensures RecordOf(ChunkPath(id, i + 1), payloads[i], identity, sha) ==
      Ok(RecordsOf(id, payloads, identity, sha).value[i])
  {
    hide RecordOf, ChunkPath;
    var n := |payloads| - 1;
    if i < n {
      RecordAt(id, payloads[..n], identity, sha, i);
    } else if n > 0 {
      RecordAt(id, payloads[..n], identity, sha, 0);
    } else {
      assert payloads[..0] == [];
    }
  }

  lemma {:induction false} SortedConcat(a: seq<Value>, b: seq<Value>)
    ensures SortItems(a + b) == SortItems(a) + SortItems(b)
  {
    hide SortKeys, SortItems;
    var all := SortItems(a + b);
    assert forall i :: 0 <= i < |a| ==> all[i] == SortKeys((a + b)[i]) == SortKeys(a[i]);
    assert forall i :: 0 <= i < |b| ==> all[|a| + i] == SortKeys((a + b)[|a| + i]) == SortKeys(b[i]);
  }

  lemma {:induction false} ConcatSnoc(chunks: seq<seq<Value>>, chunk: seq<Value>)
    ensures Concat(chunks + [chunk]) == Concat(chunks) + chunk
  {
    if chunks == [] {
      assert [] + [chunk] == [chunk] && [chunk][1..] == [];
    } else {
      ConcatSnoc(chunks[1..], chunk);
      assert (chunks + [chunk])[1..] == chunks[1..] + [chunk];
    }
  }

  /** All rows the validator reads, in the order it reads them. */
  lemma {:induction false} ParsedAllRows(records: seq<ChunkRecord>, files: Files, chunks: seq<seq<Value>>)
    requires |records| == |chunks|
    requires forall i :: 0 <= i < |chunks| ==> Parsed(files, records[i].path) == SortItems(chunks[i])
    ensures ParsedAll(records, files) == SortItems(Concat(chunks))
  {
    hide Parsed, SortItems;
    if chunks == [] {
      NothingSorted();
    } else {
      var n := |chunks| - 1;
      ParsedAllRows(records[..n], files, chunks[..n]);
      assert chunks == chunks[..n] + [chunks[n]];
      ConcatSnoc(chunks[..n], chunks[n]);
      SortedConcat(Concat(chunks[..n]), chunks[n]);
    }
  }

  lemma NothingSorted()
    ensures SortItems([]) == [] && Concat([]) == []
  {
  }

  lemma {:induction false} CountsAdd(records: seq<ChunkRecord>, chunks: seq<seq<Value>>)
    requires |records| == |chunks|
    requires forall i :: 0 <= i < |chunks| ==> records[i].rows == |chunks[i]|
    ensures SumRows(records) == |Concat(chunks)|
  {
    if chunks != [] {
      var n := |chunks| - 1;
      CountsAdd(records[..n], chunks[..n]);
      assert chunks == chunks[..n] + [chunks[n]];
      ConcatSnoc(chunks[..n], chunks[n]);
    }
  }

  /** Rows in the publisher's order satisfy the validator's. */
  lemma {:induction false} FinishedRowsInOrder(ordered: seq<Value>, c: Contract, formats: Formats)
    requires ContractOk(c) && AllRowsOk(ordered, c, formats)
    requires StrictlySorted(ordered, RowOrder(c.orderBy)) && DistinctCells(ordered, c.identity)
    requires forall i :: 0 <= i < |ordered| ==> RowFits(ordered[i], CHUNK_BYTES)
    ensures RowsInOrder(SortItems(ordered), c)
  {
    hide RowOk, RowFits, Cells, Dumped, KeyLt, Declared, UniqueNames, SortKeys, SortItems, Kind;
    var rows := SortItems(ordered);
    forall i | 0 <= i < |rows|
      ensures IdentityText(rows[i], c.identity).Ok?
      ensures IdentityText(rows[i], c.identity) == Dumped(Arr(Cells(ordered[i], c.identity)))
    {
      CellsReadBack(ordered[i], c, formats, c.identity);
      IdentityEncodes(ordered[i], c, formats);
    }
    forall i, j | 0 <= i < j < |rows| ensures IdentityText(rows[i], c.identity) != IdentityText(rows[j], c.identity) {
      var a, b := Cells(ordered[i], c.identity), Cells(ordered[j], c.identity);
      TypedIdentity(ordered[i], c, formats);
      TypedIdentity(ordered[j], c, formats);
      assert a != b && Dumped(Arr(a)).Ok?;
      IdentityBytesDistinct(a, b);
    }
    forall i | 0 < i < |rows| ensures OrderRises(c.orderBy, rows[i - 1], rows[i]) {
      CellsReadBack(ordered[i - 1], c, formats, c.orderBy);
      CellsReadBack(ordered[i], c, formats, c.orderBy);
      TypedKey(ordered[i - 1], c, formats);
      TypedKey(ordered[i], c, formats);
      assert RowOrder(c.orderBy)(ordered[i - 1], ordered[i]);
      OrdersAgree(rows[i - 1], rows[i], c.orderBy);
    }
  }

  lemma AtomsAgree(a: Value, b: Value)
    requires Kind(a) < 3 && Kind(b) < 3
    ensures AtomBefore(OrderAtomOf(a), OrderAtomOf(b)) <==> CellFirst(a, b)
    ensures OrderAtomOf(a) == OrderAtomOf(b) <==> a == b
  {
    hide TextLt;
  }

  lemma {:induction false} RisesFirst(a: Value, b: Value, orderBy: seq<string>)
    requires Typed(Cells(a, orderBy)) && Typed(Cells(b, orderBy))
    ensures OrderRises(orderBy, a, b) <==> CellsFirst(Cells(a, orderBy), Cells(b, orderBy))
  {
    hide AtomBefore, OrderAtomOf, CellFirst, CellsFirst, Cell, Cells, Kind, OrderRises;
    if orderBy == [] {
      NoOrder(a, b);
    } else {
      var x, y := Cells(a, orderBy), Cells(b, orderBy);
      RisesOrRest(a, b, orderBy);
      RisesFirst(a, b, orderBy[1..]);
      AtomsAgree(x[0], y[0]);
      FirstOrRest(x, y);
      EqualIsNotFirst(x[0], y[0]);
    }
  }

  lemma {:induction false} NoOrder(a: Value, b: Value)
    ensures !OrderRises([], a, b) && !CellsFirst(Cells(a, []), Cells(b, []))
  {
  }

  lemma {:induction false} RisesOrRest(a: Value, b: Value, orderBy: seq<string>)
    requires orderBy != []
    ensures var x, y := Cells(a, orderBy), Cells(b, orderBy);
      && x[1..] == Cells(a, orderBy[1..]) && y[1..] == Cells(b, orderBy[1..])
      && (OrderRises(orderBy, a, b) <==>
            if OrderAtomOf(x[0]) == OrderAtomOf(y[0]) then OrderRises(orderBy[1..], a, b)
            else AtomBefore(OrderAtomOf(x[0]), OrderAtomOf(y[0])))
  {
    hide AtomBefore, OrderAtomOf, Cell;
    assert OrderAtoms(a, orderBy)[1..] == OrderAtoms(a, orderBy[1..]);
    assert OrderAtoms(b, orderBy)[1..] == OrderAtoms(b, orderBy[1..]);
  }

  lemma EqualIsNotFirst(a: Value, b: Value)
    ensures a == b ==> !CellFirst(a, b)
  {
    if a.Str? { TextIrreflexive(a.s); }
  }

  /** The publisher's order and the validator's, each with its own keys, agree on rows whose
      order cells have their types. */
  lemma {:induction false} OrdersAgree(a: Value, b: Value, orderBy: seq<string>)
    requires Typed(Cells(a, orderBy)) && Typed(Cells(b, orderBy))
    ensures OrderRises(orderBy, a, b) <==> RowLt(orderBy, a, b)
  {
    hide OrderRises, CellsFirst, KeyLt;
    RisesFirst(a, b, orderBy);
    KeyIsFirst(Cells(a, orderBy), Cells(b, orderBy));
  }

  /** In a valid dataset every row comes behind the one before it in the order fields. */
  lemma {:induction false} ValidRowsInOrder(d: DatasetRecord, files: Files, c: Contract, formats: Formats, sha: Sha,
                                            i: nat)
    requires ContractOk(c) && DatasetValid(d, files, c, formats, sha) && 0 < i < |ParsedAll(d.chunks, files)|
    ensures var rows := ParsedAll(d.chunks, files);
      CellsFirst(Cells(rows[i - 1], c.orderBy), Cells(rows[i], c.orderBy))
  {
    hide CellsFirst, Cells, OrderRises, ParsedRowOk, ParsedAll, SumRecordBytes, ContractOk, Kind;
    var rows := ParsedAll(d.chunks, files);
    ParsedTyped(d.chunks, files, c, formats, sha, i - 1);
    ParsedTyped(d.chunks, files, c, formats, sha, i);
    RisesFirst(rows[i - 1], rows[i], c.orderBy);
  }

  lemma {:induction false} ParsedTyped(chunks: seq<ChunkRecord>, files: Files, c: Contract, formats: Formats, sha: Sha,
                                       i: nat)
    requires ContractOk(c) && i < |ParsedAll(chunks, files)|
    requires forall k :: 0 <= k < |chunks| ==> ChunkOk(chunks[k], files, c, formats, sha)
    ensures Typed(Cells(ParsedAll(chunks, files)[i], c.orderBy))
  {
    hide Cells, ParsedRowOk, ContractOk, Kind, Parsed;
    var n := |chunks| - 1;
    var front := ParsedAll(chunks[..n], files);
    if i < |front| {
      ParsedTyped(chunks[..n], files, c, formats, sha, i);
    } else {
      TypedOrder(Parsed(files, chunks[n].path)[i - |front|], c, formats);
    }
  }

  lemma {:induction false} TypedOrder(row: Value, c: Contract, formats: Formats)
    requires ContractOk(c) && ParsedRowOk(row, c, formats)
    ensures Typed(Cells(row, c.orderBy))
  {
    hide Cell, UniqueNames, Lookup;
    forall i | 0 <= i < |c.orderBy| ensures Kind(Cells(row, c.orderBy)[i]) < 3 {
      assert Declared(c.fields, c.orderBy[i]);
      var j :| 0 <= j < |c.fields| && c.fields[j].name == c.orderBy[i];
      assert CellOk(Cell(row, c.fields[j].name), c.fields[j], formats);
    }
  }

  lemma {:induction false} TypedIdentity(row: Value, c: Contract, formats: Formats)
    requires ContractOk(c) && RowOk(row, c, formats)
    ensures forall i :: 0 <= i < |c.identity| ==> Kind(Cells(row, c.identity)[i]) < 3
  {
    hide RowOk, Declared, UniqueNames;
    forall i | 0 <= i < |c.identity| ensures Kind(Cells(row, c.identity)[i]) < 3 {
      DeclaredCell(row, c, formats, c.identity[i]);
    }
  }

  /** One chunk, written and validated. */
  lemma {:induction false} ChunkIsOk(chunk: seq<Value>, path: string, record: ChunkRecord, files: Files, c: Contract,
                                     formats: Formats, sha: Sha)
    requires UniqueNames(c.fields) && AllRowsOk(chunk, c, formats) && AllEncodable(chunk)
    requires chunk != [] && Fits(chunk, CHUNK_ROWS, CHUNK_BYTES)
    requires RecordOf(path, ListText(chunk), c.identity, sha) == Ok(record)
    requires ChunkPathOk(path) && path in files && files[path] == ListText(chunk)
    ensures ChunkOk(record, files, c, formats, sha)
    ensures Parsed(files, record.path) == SortItems(chunk) && record.rows == |chunk|
    ensures record.firstKey == Cells(SortItems(chunk)[0], c.identity)
    ensures record.lastKey == Cells(SortItems(chunk)[|chunk| - 1], c.identity)
  {
    hide RowOk, Loaded, ListText, ListBytes, Encodable, UniqueNames, ParsedRowOk, SortItems, SortKeys, Cells,
         Utf8Length, AllRowsOk, AllEncodable, ChunkPathOk;
    ChunkReads(chunk, c, formats);
    ListTextBytes(chunk);
    AllRowsAreOk(chunk, c, formats);
    var rows := SortItems(chunk);
    forall i | 0 <= i < |rows| ensures ParsedRowOk(rows[i], c, formats) {
      ParsedRow(chunk[i], c, formats);
    }
  }

  lemma AllRowsAreOk(rows: seq<Value>, c: Contract, formats: Formats)
    requires AllRowsOk(rows, c, formats)
    ensures forall i :: 0 <= i < |rows| ==> RowOk(rows[i], c, formats)
  {
    hide RowOk;
  }

  lemma {:induction false} ChunkWithin(chunks: seq<seq<Value>>, i: nat, row: Value)
    requires i < |chunks| && row in chunks[i]
    ensures row in Concat(chunks)
  {
    if i > 0 { ChunkWithin(chunks[1..], i - 1, row); }
  }

  /** Every chunk the publisher wrote for a finished projection passes. */
  lemma {:induction false} WrittenChunksAreOk(ordered: seq<Value>, c: Contract, formats: Formats, id: string,
                                              sha: Sha, files: Files)
    requires PlainId(id) && ContractOk(c) && AllRowsOk(ordered, c, formats)
    requires WriteDataset(id, ordered, c.identity, sha).Ok?
    requires forall p :: p in WriteDataset(id, ordered, c.identity, sha).value.1 ==>
      p in files && files[p] == WriteDataset(id, ordered, c.identity, sha).value.1[p]
    ensures var d := WriteDataset(id, ordered, c.identity, sha).value.0;
      && (forall i :: 0 <= i < |d.chunks| ==> ChunkOk(d.chunks[i], files, c, formats, sha))
      && ParsedAll(d.chunks, files) == SortItems(ordered)
      && d.rows == |ordered| && d.bytes == SumRecordBytes(d.chunks)
      && d.firstKey == (if ordered == [] then [] else Cells(SortItems(ordered)[0], c.identity))
      && d.lastKey == (if ordered == [] then [] else Cells(SortItems(ordered)[|ordered| - 1], c.identity))
    ensures forall i :: 0 <= i < |ordered| ==> RowFits(ordered[i], CHUNK_BYTES)
  {
    hide AllRowsOk, RecordsOf, Chunks, WrittenChunk, ParsedAll, Cells, SortItems, Concat, Bounded, Maximal, SumRows,
         SumRecordBytes, ContractOk, Texts, RowFits, WriteDataset, DatasetOf, ChunkOk;
    var chunks, d := EveryChunkWritten(ordered, c, formats, id, sha, files);
    forall i | 0 <= i < |d.chunks| ensures ChunkOk(d.chunks[i], files, c, formats, sha) {
      WrittenIsOk(chunks[i], d.chunks[i], files, c, formats, sha);
    }
    DatasetAdds(id, chunks, d.chunks, files, c, formats, sha);
  }

  lemma {:induction false} EveryChunkWritten(ordered: seq<Value>, c: Contract, formats: Formats, id: string, sha: Sha,
                                             files: Files)
    returns (chunks: seq<seq<Value>>, d: DatasetRecord)
    requires PlainId(id) && ContractOk(c) && AllRowsOk(ordered, c, formats)
    requires WriteDataset(id, ordered, c.identity, sha).Ok?
    requires forall p :: p in WriteDataset(id, ordered, c.identity, sha).value.1 ==>
      p in files && files[p] == WriteDataset(id, ordered, c.identity, sha).value.1[p]
    ensures d == WriteDataset(id, ordered, c.identity, sha).value.0 && d == DatasetOf(id, d.chunks)
    ensures Concat(chunks) == ordered && |d.chunks| == |chunks|
    ensures forall i :: 0 <= i < |chunks| ==> WrittenChunk(chunks[i], d.chunks[i], files, c, formats, sha)
    ensures forall i :: 0 <= i < |ordered| ==> RowFits(ordered[i], CHUNK_BYTES)
  {
    hide AllRowsOk, ListText, RecordsOf, Chunks, WrittenChunk, Concat, Bounded, SumRows, SumRecordBytes, ContractOk,
         RowFits, Maximal, WriteDataset, RecordOf, ChunkPath, ChunkPathOk, Texts;
    var records;
    chunks, records := DatasetWritten(id, ordered, c.identity, sha);
    ChunksAreOptimal(ordered, CHUNK_ROWS, CHUNK_BYTES);
    ChunksSucceedExactly(ordered, CHUNK_ROWS, CHUNK_BYTES);
    d := DatasetOf(id, records);
    forall i | 0 <= i < |chunks| ensures WrittenChunk(chunks[i], d.chunks[i], files, c, formats, sha) {
      RecordAt(id, Texts(chunks), c.identity, sha, i);
      assert ChunkPath(id, i + 1) in FilesOf(id, Texts(chunks));
      ChunkPathForm(id, i + 1);
      OneWrittenChunk(ordered, chunks, i, ChunkPath(id, i + 1), d.chunks[i], files, c, formats, sha);
    }
  }

  lemma {:induction false} DatasetWritten(id: string, ordered: seq<Value>, identity: seq<string>, sha: Sha)
    returns (chunks: seq<seq<Value>>, records: seq<ChunkRecord>)
    requires WriteDataset(id, ordered, identity, sha).Ok?
    ensures Chunks(ordered, CHUNK_ROWS, CHUNK_BYTES) == Ok(chunks)
    ensures RecordsOf(id, Texts(chunks), identity, sha) == Ok(records) && |records| == |chunks|
    ensures WriteDataset(id, ordered, identity, sha).value == (DatasetOf(id, records), FilesOf(id, Texts(chunks)))
  {
    hide Chunks, RecordsOf, DatasetOf, ChunkPath;
    chunks := Chunks(ordered, CHUNK_ROWS, CHUNK_BYTES).value;
    records := RecordsOf(id, Texts(chunks), identity, sha).value;
    if chunks == [] { RecordsOfNothing(id, identity, sha); } else { RecordAt(id, Texts(chunks), identity, sha, 0); }
  }

  lemma WrittenIsOk(chunk: seq<Value>, record: ChunkRecord, files: Files, c: Contract, formats: Formats, sha: Sha)
    requires WrittenChunk(chunk, record, files, c, formats, sha)
    ensures ChunkOk(record, files, c, formats, sha)
  {
    hide ChunkOk;
  }

  lemma {:induction false} DatasetAdds(id: string, chunks: seq<seq<Value>>, records: seq<ChunkRecord>, files: Files,
                                       c: Contract,
                                       formats: Formats, sha: Sha)
    requires |records| == |chunks|
    requires forall i :: 0 <= i < |chunks| ==> WrittenChunk(chunks[i], records[i], files, c, formats, sha)
    ensures var ordered, d := Concat(chunks), DatasetOf(id, records);
      && ParsedAll(records, files) == SortItems(ordered)
      && d.rows == |ordered| && d.bytes == SumRecordBytes(records)
      && d.firstKey == (if ordered == [] then [] else Cells(SortItems(ordered)[0], c.identity))
      && d.lastKey == (if ordered == [] then [] else Cells(SortItems(ordered)[|ordered| - 1], c.identity))
  {
    hide ChunkOk, Parsed, ParsedAll, Cells, SortItems, Concat, SumRows, SumRecordBytes;
    forall i | 0 <= i < |chunks|
      ensures chunks[i] != [] && Parsed(files, records[i].path) == SortItems(chunks[i])
      ensures records[i].rows == |chunks[i]|
    {
      assert WrittenChunk(chunks[i], records[i], files, c, formats, sha);
    }
    ParsedAllRows(records, files, chunks);
    CountsAdd(records, chunks);
    if chunks == [] {
      NothingConcat();
    } else {
      Ends(chunks);
      assert WrittenChunk(chunks[0], records[0], files, c, formats, sha);
      assert WrittenChunk(chunks[|chunks| - 1], records[|chunks| - 1], files, c, formats, sha);
    }
  }

  lemma NothingConcat()
    ensures Concat([]) == [] && SortItems([]) == []
  {
  }

  /** A chunk, its record and its file agree. */
  predicate WrittenChunk(chunk: seq<Value>, record: ChunkRecord, files: Files, c: Contract, formats: Formats,
                         sha: Sha) {
    && chunk != [] && ChunkOk(record, files, c, formats, sha)
    && Parsed(files, record.path) == SortItems(chunk) && record.rows == |chunk|
    && record.firstKey == Cells(SortItems(chunk)[0], c.identity)
    && record.lastKey == Cells(SortItems(chunk)[|chunk| - 1], c.identity)
  }

  lemma {:induction false} OneWrittenChunk(ordered: seq<Value>, chunks: seq<seq<Value>>, i: nat, path: string,
                                           record: ChunkRecord, files: Files, c: Contract, formats: Formats, sha: Sha)
    requires ContractOk(c) && AllRowsOk(ordered, c, formats) && Concat(chunks) == ordered && i < |chunks|
    requires forall k :: 0 <= k < |ordered| ==> RowFits(ordered[k], CHUNK_BYTES)
    requires Maximal(chunks, CHUNK_ROWS, CHUNK_BYTES) && Bounded(chunks, CHUNK_ROWS, CHUNK_BYTES)
    requires RecordOf(path, ListText(chunks[i]), c.identity, sha) == Ok(record)
    requires ChunkPathOk(path) && path in files && files[path] == ListText(chunks[i])
    ensures WrittenChunk(chunks[i], record, files, c, formats, sha)
  {
    hide ChunkPathOk, AllRowsOk, ListText, RecordOf, ChunkOk, Parsed, Cells, SortItems, Concat, Fits, RowFits, Declared,
         Encodable, UniqueNames;
    ChunkRowsOk(ordered, chunks, i, c, formats);
    ChunkIsOk(chunks[i], path, record, files, c, formats, sha);
  }

  lemma {:induction false} RecordsOfNothing(id: string, identity: seq<string>, sha: Sha)
    ensures RecordsOf(id, Texts([]), identity, sha) == Ok([])
  {
  }

  lemma {:induction false} NothingParsed(files: Files)
    ensures ParsedAll([], files) == []
  {
  }

  lemma {:induction false} ChunkRowsOk(ordered: seq<Value>, chunks: seq<seq<Value>>, i: nat, c: Contract,
                                       formats: Formats)
    requires AllRowsOk(ordered, c, formats) && Concat(chunks) == ordered && i < |chunks|
    requires forall k :: 0 <= k < |ordered| ==> RowFits(ordered[k], CHUNK_BYTES)
    ensures AllRowsOk(chunks[i], c, formats) && AllEncodable(chunks[i])
  {
    hide RowOk, Concat, Encodable, ListBytes;
    forall k | 0 <= k < |chunks[i]| ensures RowOk(chunks[i][k], c, formats) && Encodable(chunks[i][k]) {
      ChunkWithin(chunks, i, chunks[i][k]);
      var j :| 0 <= j < |ordered| && ordered[j] == chunks[i][k];
      assert RowFits(ordered[j], CHUNK_BYTES);
    }
  }

  /** First and last rows of a split, keys sorted. */
  lemma {:induction false} Ends(chunks: seq<seq<Value>>)
    requires chunks != [] && forall i :: 0 <= i < |chunks| ==> chunks[i] != []
    ensures Concat(chunks) != []
    ensures SortItems(Concat(chunks))[0] == SortItems(chunks[0])[0]
    ensures SortItems(Concat(chunks))[|Concat(chunks)| - 1] ==
      SortItems(chunks[|chunks| - 1])[|chunks[|chunks| - 1]| - 1]
  {
    var first, last := chunks[0], chunks[|chunks| - 1];
    var rest, front := ConcatEnds(chunks);
    hide SortKeys, SortItems, Concat;
    assert first != [] && last != [];
    SortedEnds(Concat(chunks), first, rest, front, last);
  }

  lemma ConcatEnds(chunks: seq<seq<Value>>) returns (rest: seq<Value>, front: seq<Value>)
    requires chunks != []
    ensures Concat(chunks) == chunks[0] + rest == front + chunks[|chunks| - 1]
  {
    var n := |chunks| - 1;
    assert Concat(chunks) == chunks[0] + Concat(chunks[1..]);
    hide Concat;
    assert chunks == chunks[..n] + [chunks[n]];
    ConcatSnoc(chunks[..n], chunks[n]);
    rest, front := Concat(chunks[1..]), Concat(chunks[..n]);
  }

  lemma {:induction false} SortedEnds(all: seq<Value>, first: seq<Value>, rest: seq<Value>, front: seq<Value>,
                                      last: seq<Value>)
    requires first != [] && last != [] && all == first + rest == front + last
    ensures all != []
    ensures SortItems(all)[0] == SortItems(first)[0]
    ensures SortItems(all)[|all| - 1] == SortItems(last)[|last| - 1]
  {
    hide SortKeys, SortItems;
  }

  lemma OrderedRowsMeetValidator(ordered: seq<Value>, c: Contract, formats: Formats, id: string, sha: Sha, files: Files)
    requires PlainId(id) && ContractOk(c) && AllRowsOk(ordered, c, formats) && |ordered| <= c.maxRows
    requires StrictlySorted(ordered, RowOrder(c.orderBy)) && DistinctCells(ordered, c.identity)
    requires WriteDataset(id, ordered, c.identity, sha).Ok?
    requires forall p :: p in WriteDataset(id, ordered, c.identity, sha).value.1 ==>
      p in files && files[p] == WriteDataset(id, ordered, c.identity, sha).value.1[p]
    ensures var d := WriteDataset(id, ordered, c.identity, sha).value.0;
      && d.rows == |ordered|
      && (DatasetValid(d, files, c, formats, sha) <==> |d.chunks| <= CHUNKS_PER_DATASET)
  {
    hide ContractOk, AllRowsOk, DistinctCells, StrictlySorted, WriteDataset, ChunkOk, ParsedAll, RowsInOrder,
         SortItems, Cells, RowFits, SumRecordBytes;
    WrittenChunksAreOk(ordered, c, formats, id, sha, files);
    FinishedRowsInOrder(ordered, c, formats);
  }

  // ----- the whole payload -----

  datatype Projection = Projection(id: string, contract: Contract, rows: seq<Value>)

  /** What the export declares of a dataset. */
  datatype DatasetContract = DatasetContract(id: string, contract: Contract)

  function Declarations(projections: seq<Projection>): (r: seq<DatasetContract>)
    ensures |r| == |projections|
    ensures forall i :: 0 <= i < |r| ==> r[i] == DatasetContract(projections[i].id, projections[i].contract)
  {
    seq(|projections|, i requires 0 <= i < |projections| => DatasetContract(projections[i].id, projections[i].contract))
  }

  /** The rows come out of `Finish` for the projection's contract; its id is one segment. */
  ghost predicate Finished(p: Projection, formats: Formats) {
    PlainId(p.id) && ContractOk(p.contract) && exists source :: Finish(source, p.contract, formats) == Ok(p.rows)
  }

  function WriteOne(p: Projection, sha: Sha): Result<(DatasetRecord, Files), Fault> {
    WriteDataset(p.id, p.rows, p.contract.identity, sha)
  }

  /** The dataset's record and files are the ones written for `p`. */
  ghost predicate WrittenFor(p: Projection, sha: Sha, d: DatasetRecord, files: Files) {
    && WriteOne(p, sha).Ok? && WriteOne(p, sha).value.0 == d
    && forall path :: path in WriteOne(p, sha).value.1 ==>
         path in files && files[path] == WriteOne(p, sha).value.1[path]
  }

  /** `_write_chunks`: every projection in turn, into one directory. */
  function WritePayload(projections: seq<Projection>, sha: Sha): Result<(seq<DatasetRecord>, Files), Fault> {
    if projections == [] then Ok(([], map[]))
    else
      var n := |projections| - 1;
      Joined(WritePayload(projections[..n], sha), WriteOne(projections[n], sha))
  }

  /** One more dataset behind the ones written. */
  function Joined(before: Result<(seq<DatasetRecord>, Files), Fault>, one: Result<(DatasetRecord, Files), Fault>)
    : Result<(seq<DatasetRecord>, Files), Fault>
  {
    if before.Err? then Err(before.error)
    else if one.Err? then Err(one.error)
    else Ok((before.value.0 + [one.value.0], before.value.1 + one.value.1))
  }

  predicate DistinctIds(projections: seq<Projection>) {
    forall i, j :: 0 <= i < j < |projections| ==> projections[i].id != projections[j].id
  }

  function TotalChunks(datasets: seq<DatasetRecord>): nat {
    if datasets == [] then 0 else TotalChunks(datasets[..|datasets| - 1]) + |datasets[|datasets| - 1].chunks|
  }

  function TotalRows(datasets: seq<DatasetRecord>): nat {
    if datasets == [] then 0 else TotalRows(datasets[..|datasets| - 1]) + datasets[|datasets| - 1].rows
  }

  /** The dataset part of `_validate_public_payload_v2`. */
  predicate PayloadValid(datasets: seq<DatasetRecord>, files: Files, declared: seq<DatasetContract>, formats: Formats,
                         sha: Sha) {
    && |datasets| == |declared|
    && (forall i :: 0 <= i < |datasets| ==>
          datasets[i].id == declared[i].id && DatasetValid(datasets[i], files, declared[i].contract, formats, sha))
    && TotalRows(datasets) <= ROWS_IN_ALL && TotalChunks(datasets) <= CHUNKS_IN_ALL
  }

  lemma {:induction false} OwnFilesSurvive(projections: seq<Projection>, sha: Sha, i: nat)
    requires DistinctIds(projections) && WritePayload(projections, sha).Ok? && i < |projections|
    ensures |WritePayload(projections, sha).value.0| == |projections|
    ensures var (datasets, files) := WritePayload(projections, sha).value;
      WrittenFor(projections[i], sha, datasets[i], files)
  {
    hide WriteOne, WritePayload, WrittenFor, DistinctIds;
    var n := |projections| - 1;
    WriteLast(projections, sha);
    DistinctFront(projections);
    var front, files := WritePayload(projections[..n], sha).value.0, WritePayload(projections[..n], sha).value.1;
    if n == 0 { NoDatasets(sha); } else { OwnFilesSurvive(projections[..n], sha, if i < n then i else 0); }
    assert |front| == n;
    if i < n {
      LaterFilesKeep(projections[i], projections[n], sha, front[i], files);
    } else {
      OwnFilesLast(projections[n], sha, files);
    }
  }

  lemma DistinctFront(projections: seq<Projection>)
    requires projections != [] && DistinctIds(projections)
    ensures var n := |projections| - 1;
      DistinctIds(projections[..n]) && forall i :: 0 <= i < n ==> projections[i].id != projections[n].id
  {
  }

  lemma OwnFilesLast(p: Projection, sha: Sha, files: Files)
    requires WriteOne(p, sha).Ok?
    ensures WrittenFor(p, sha, WriteOne(p, sha).value.0, files + WriteOne(p, sha).value.1)
  {
    hide WriteOne;
  }

  /** Paths carry the dataset's id, so another dataset's files are other files. */
  lemma LaterFilesKeep(p: Projection, later: Projection, sha: Sha, d: DatasetRecord, files: Files)
    requires WrittenFor(p, sha, d, files) && WriteOne(later, sha).Ok? && p.id != later.id
    ensures WrittenFor(p, sha, d, files + WriteOne(later, sha).value.1)
  {
    hide WriteOne, ChunkPath;
    OwnPaths(p, sha);
    OwnPaths(later, sha);
    forall path | path in WriteOne(p, sha).value.1 ensures path !in WriteOne(later, sha).value.1 {
      if path in WriteOne(later, sha).value.1 { PathsApart(p, later, sha, path); }
    }
  }

  lemma PathsApart(p: Projection, later: Projection, sha: Sha, path: string)
    requires p.id != later.id && WriteOne(p, sha).Ok? && WriteOne(later, sha).Ok?
    requires path in WriteOne(p, sha).value.1
    ensures path !in WriteOne(later, sha).value.1
  {
    hide WriteOne, ChunkPath;
    OwnPaths(p, sha);
    OwnPaths(later, sha);
    if path in WriteOne(later, sha).value.1 {
      var i: nat :| path == ChunkPath(p.id, i);
      var j: nat :| path == ChunkPath(later.id, j);
      ChunkPathInjective(p.id, i, later.id, j);
    }
  }

  lemma {:induction false} WriteLast(projections: seq<Projection>, sha: Sha)
    requires projections != []
    ensures var n := |projections| - 1;
      WritePayload(projections, sha) == Joined(WritePayload(projections[..n], sha), WriteOne(projections[n], sha))
  {
    hide WriteOne, Joined;
  }

  lemma OwnPaths(p: Projection, sha: Sha)
    ensures WriteOne(p, sha).Ok? ==>
      forall path :: path in WriteOne(p, sha).value.1 ==> exists i: nat :: path == ChunkPath(p.id, i)
  {
    hide Chunks, RecordsOf, ChunkPath;
  }

  /** Whatever finished projections are published, among whatever other files, the validator, with its own checks of
      types, order, identity, keys, counts, sizes and digests, accepts exactly when the
      caps on chunks and rows are met. */
  lemma {:induction false} PublisherMeetsValidator(projections: seq<Projection>, formats: Formats, sha: Sha,
                                                   tree: Files)
    requires DistinctIds(projections) && (forall i :: 0 <= i < |projections| ==> Finished(projections[i], formats))
    requires WritePayload(projections, sha).Ok?
    requires forall path :: path in WritePayload(projections, sha).value.1 ==>
      path in tree && tree[path] == WritePayload(projections, sha).value.1[path]
    ensures var datasets := WritePayload(projections, sha).value.0;
      PayloadValid(datasets, tree, Declarations(projections), formats, sha) <==>
        && (forall i :: 0 <= i < |datasets| ==> |datasets[i].chunks| <= CHUNKS_PER_DATASET)
        && TotalChunks(datasets) <= CHUNKS_IN_ALL && TotalRows(datasets) <= ROWS_IN_ALL
  {
    hide Finished, WrittenFor, DatasetValid, TotalChunks, TotalRows, WritePayload, DistinctIds;
    var (datasets, files) := WritePayload(projections, sha).value;
    if projections == [] { NoDatasets(sha); } else { OwnFilesSurvive(projections, sha, 0); }
    forall i | 0 <= i < |projections|
      ensures i < |datasets| && datasets[i].id == projections[i].id
      ensures DatasetValid(datasets[i], tree, projections[i].contract, formats, sha) <==>
        |datasets[i].chunks| <= CHUNKS_PER_DATASET
    {
      OwnFilesSurvive(projections, sha, i);
      WrittenId(projections[i], sha, datasets[i], files);
      InLargerTree(projections[i], sha, datasets[i], files, tree);
      FinishedMeetsValidator(projections[i], formats, sha, datasets[i], tree);
    }
  }

  lemma InLargerTree(p: Projection, sha: Sha, d: DatasetRecord, files: Files, tree: Files)
    requires WrittenFor(p, sha, d, files) && forall path :: path in files ==> path in tree && tree[path] == files[path]
    ensures WrittenFor(p, sha, d, tree)
  {
    hide WriteOne;
  }

  lemma WrittenId(p: Projection, sha: Sha, d: DatasetRecord, files: Files)
    requires WrittenFor(p, sha, d, files)
    ensures d.id == p.id
  {
    hide Chunks, RecordsOf;
  }

  lemma NoDatasets(sha: Sha)
    ensures WritePayload([], sha) == Ok(([], map[]))
  {
  }

  lemma FinishedMeetsValidator(p: Projection, formats: Formats, sha: Sha, d: DatasetRecord, files: Files)
    requires Finished(p, formats) && WrittenFor(p, sha, d, files)
    ensures DatasetValid(d, files, p.contract, formats, sha) <==> |d.chunks| <= CHUNKS_PER_DATASET
  {
    var source :| Finish(source, p.contract, formats) == Ok(p.rows);
    FinishedRows(source, p.contract, formats);
    hide Finish, ContractOk, AllRowsOk, DistinctCells, StrictlySorted, Dumped, WriteDataset, DatasetValid;
    OrderedRowsMeetValidator(p.rows, p.contract, formats, p.id, sha, files);
  }

  // ----- the validator's loops -----

  lemma RowsInOrderSnoc(rows: seq<Value>, row: Value, c: Contract)
    ensures RowsInOrder(rows + [row], c) <==>
      && RowsInOrder(rows, c) && IdentityText(row, c.identity).Ok?
      && (forall i :: 0 <= i < |rows| ==> IdentityText(rows[i], c.identity) != IdentityText(row, c.identity))
      && (rows != [] ==> OrderRises(c.orderBy, rows[|rows| - 1], row))
  {
    hide IdentityText, OrderRises;
    var all := rows + [row];
    assert all[|rows|] == row && forall i :: 0 <= i < |rows| ==> all[i] == rows[i];
  }

  lemma {:induction false} RowsInOrderPrefix(rows: seq<Value>, more: seq<Value>, c: Contract)
    requires RowsInOrder(rows + more, c)
    ensures RowsInOrder(rows, c)
  {
    hide IdentityText, OrderRises;
    var all := rows + more;
    assert forall i :: 0 <= i < |rows| ==> all[i] == rows[i];
  }

  /** What the row loop carries from row to row, across chunk borders. */
  ghost predicate Carried(seen: seq<Value>, identities: set<string>, previous: Option<seq<OrderAtom>>, c: Contract) {
    && RowsInOrder(seen, c)
    && (forall t :: t in identities <==> exists i :: 0 <= i < |seen| && IdentityText(seen[i], c.identity) == Ok(t))
    && previous == (if seen == [] then None else Some(OrderAtoms(seen[|seen| - 1], c.orderBy)))
  }

  lemma {:induction false} CarriedSnoc(seen: seq<Value>, identities: set<string>, previous: Option<seq<OrderAtom>>,
                                       c: Contract, row: Value)
    requires Carried(seen, identities, previous, c)
    ensures var identity := IdentityText(row, c.identity);
      if identity.Ok? && identity.value !in identities
         && (previous.Some? ==> AtomsBefore(previous.value, OrderAtoms(row, c.orderBy)))
      then Carried(seen + [row], identities + {identity.value}, Some(OrderAtoms(row, c.orderBy)), c)
      else !RowsInOrder(seen + [row], c)
  {
    hide RowsInOrder, IdentityText, AtomsBefore, OrderAtoms, Cells;
    RowsInOrderSnoc(seen, row, c);
    var identity := IdentityText(row, c.identity);
    var rows := seen + [row];
    if identity.Ok? {
      forall t ensures t in identities + {identity.value} <==>
                       exists i :: 0 <= i < |rows| && IdentityText(rows[i], c.identity) == Ok(t) {
        if t in identities {
          var i :| 0 <= i < |seen| && IdentityText(seen[i], c.identity) == Ok(t);
          assert rows[i] == seen[i];
        }
        assert rows[|seen|] == row;
      }
    }
  }

  /** The rows of one chunk: types, identities not met before, order keys rising. */
  method CheckRows(rows: seq<Value>, c: Contract, formats: Formats, before: set<string>,
                   last: Option<seq<OrderAtom>>,
                   ghost seen: seq<Value>)
    returns (ok: bool, identities: set<string>, previous: Option<seq<OrderAtom>>)
    requires Carried(seen, before, last, c)
    ensures ok <==> (forall i :: 0 <= i < |rows| ==> ParsedRowOk(rows[i], c, formats)) && RowsInOrder(seen + rows, c)
    ensures ok ==> Carried(seen + rows, identities, previous, c)
  {
    hide Carried, RowsInOrder, Dumped, AtomsBefore, OrderAtoms, Cells, ParsedRowOk;
    ok, identities, previous := true, before, last;
    assert seen + rows[..0] == seen;
    for i := 0 to |rows|
      invariant forall k :: 0 <= k < i ==> ParsedRowOk(rows[k], c, formats)
      invariant Carried(seen + rows[..i], identities, previous, c)
    {
      var row := rows[i];
      CarriedSnoc(seen + rows[..i], identities, previous, c, row);
      assert (seen + rows[..i]) + [row] == seen + rows[..i + 1];
      PrefixOfAll(seen, rows, i + 1, c);
      if !ParsedRowOk(row, c, formats) { return false, identities, previous; }
      var identity := Dumped(Arr(Cells(row, c.identity)));
      if identity.Err? || identity.value in identities { return false, identities, previous; }
      identities := identities + {identity.value};
      var order := OrderAtoms(row, c.orderBy);
      if previous.Some? && !AtomsBefore(previous.value, order) { return false, identities, previous; }
      previous := Some(order);
    }
    assert rows[..|rows|] == rows;
    CarriedInOrder(seen + rows, identities, previous, c);
  }

  lemma CarriedInOrder(seen: seq<Value>, identities: set<string>, previous: Option<seq<OrderAtom>>, c: Contract)
    requires Carried(seen, identities, previous, c)
    ensures RowsInOrder(seen, c)
  {
  }

  lemma PrefixOfAll(seen: seq<Value>, rows: seq<Value>, k: nat, c: Contract)
    requires k <= |rows|
    ensures RowsInOrder(seen + rows, c) ==> RowsInOrder(seen + rows[..k], c)
  {
    hide RowsInOrder;
    assert (seen + rows[..k]) + rows[k..] == seen + rows;
    if RowsInOrder(seen + rows, c) { RowsInOrderPrefix(seen + rows[..k], rows[k..], c); }
  }

  lemma {:induction false} ParsedAllPrefix(chunks: seq<ChunkRecord>, files: Files, k: nat) returns (more: seq<Value>)
    requires k <= |chunks|
    ensures ParsedAll(chunks, files) == ParsedAll(chunks[..k], files) + more
    decreases |chunks|
  {
    hide Parsed, ParsedAll;
    if k == |chunks| {
      assert chunks[..k] == chunks;
      more := [];
    } else {
      var n := |chunks| - 1;
      var rest := ParsedAllPrefix(chunks[..n], files, k);
      assert chunks[..n][..k] == chunks[..k];
      ParsedLast(chunks, files);
      more := rest + Parsed(files, chunks[n].path);
    }
  }

  lemma {:induction false} ParsedLast(chunks: seq<ChunkRecord>, files: Files)
    requires chunks != []
    ensures var n := |chunks| - 1;
      ParsedAll(chunks, files) == ParsedAll(chunks[..n], files) + Parsed(files, chunks[n].path)
  {
    hide Parsed;
  }

  lemma {:induction false} OrderOfPrefix(chunks: seq<ChunkRecord>, files: Files, k: nat, c: Contract)
    requires k <= |chunks| && RowsInOrder(ParsedAll(chunks, files), c)
    ensures RowsInOrder(ParsedAll(chunks[..k], files), c)
  {
    hide RowsInOrder, ParsedAll;
    var more := ParsedAllPrefix(chunks, files, k);
    RowsInOrderPrefix(ParsedAll(chunks[..k], files), more, c);
  }

  lemma {:induction false} NextChunk(chunks: seq<ChunkRecord>, files: Files, i: nat)
    requires i < |chunks|
    ensures ParsedAll(chunks[..i + 1], files) == ParsedAll(chunks[..i], files) + Parsed(files, chunks[i].path)
    ensures SumRecordBytes(chunks[..i + 1]) == SumRecordBytes(chunks[..i]) + chunks[i].bytes
  {
    assert chunks[..i + 1][..i] == chunks[..i];
  }

  /** What of `ChunkOk` does not look inside the rows. */
  predicate ChunkFrameOk(chunk: ChunkRecord, files: Files, c: Contract, sha: Sha) {
    var rows := Parsed(files, chunk.path);
    && ChunkPathOk(chunk.path) && chunk.path in files && rows != []
    && |rows| == chunk.rows <= CHUNK_ROWS
    && Utf8Length(files[chunk.path]) == chunk.bytes <= CHUNK_BYTES
    && sha(files[chunk.path]) == chunk.sha256
    && chunk.firstKey == Cells(rows[0], c.identity) && chunk.lastKey == Cells(rows[|rows| - 1], c.identity)
  }

  lemma ChunkInTwoParts(chunk: ChunkRecord, files: Files, c: Contract, formats: Formats, sha: Sha)
    ensures ChunkOk(chunk, files, c, formats, sha) <==>
      ChunkFrameOk(chunk, files, c, sha) &&
      forall i :: 0 <= i < |Parsed(files, chunk.path)| ==> ParsedRowOk(Parsed(files, chunk.path)[i], c, formats)
  {
    hide ParsedRowOk, Parsed, Cells, Utf8Length, ChunkPathOk;
  }

  /** What the loop over the chunks carries. */
  datatype Pass = Pass(identities: set<string>, previous: Option<seq<OrderAtom>>, first: Option<seq<Value>>,
                       last: Option<seq<Value>>, rows: nat, bytes: nat)

  /** The first `i` chunks are fine, and `s` is what they left behind. */
  ghost predicate Passed(s: Pass, chunks: seq<ChunkRecord>, i: nat, files: Files, c: Contract, formats: Formats,
                         sha: Sha)
    requires i <= |chunks|
  {
    var seen := ParsedAll(chunks[..i], files);
    && (forall k :: 0 <= k < i ==> ChunkOk(chunks[k], files, c, formats, sha))
    && Carried(seen, s.identities, s.previous, c)
    && s.rows == |seen| && s.bytes == SumRecordBytes(chunks[..i])
    && s.first == KeyAt(seen, 0, c.identity) && s.last == KeyAt(seen, |seen| - 1, c.identity)
  }

  /** Every chunk is fine, and so are all rows behind each other. */
  ghost predicate ChunksFine(chunks: seq<ChunkRecord>, files: Files, c: Contract, formats: Formats, sha: Sha) {
    && (forall k :: 0 <= k < |chunks| ==> ChunkOk(chunks[k], files, c, formats, sha))
    && RowsInOrder(ParsedAll(chunks, files), c)
  }

  /** The next chunk, with its rows. */
  method CheckChunk(s: Pass, chunks: seq<ChunkRecord>, i: nat, files: Files, c: Contract, formats: Formats, sha: Sha)
    returns (ok: bool, next: Pass)
    requires i < |chunks| && Passed(s, chunks, i, files, c, formats, sha)
    ensures ok ==> Passed(next, chunks, i + 1, files, c, formats, sha)
    ensures !ok ==> !ChunksFine(chunks, files, c, formats, sha)
  {
    hide ChunkOk, ChunkFrameOk, ParsedRowOk, RowsInOrder, Carried, Cells, Parsed, ParsedAll, SumRecordBytes,
         Utf8Length, Loaded;
    var chunk := chunks[i];
    var rows := Parsed(files, chunk.path);
    ghost var seen := ParsedAll(chunks[..i], files);
    ChunkInTwoParts(chunk, files, c, formats, sha);
    if !ChunkFrameOk(chunk, files, c, sha) { return false, s; }
    var fine, identities, previous := CheckRows(rows, c, formats, s.identities, s.previous, seen);
    NextChunk(chunks, files, i);
    if !fine {
      if ChunksFine(chunks, files, c, formats, sha) { OrderOfPrefix(chunks, files, i + 1, c); }
      return false, s;
    }
    FrameHasRows(chunk, files, c, sha);
    KeysBehind(seen, rows, c.identity);
    next := Pass(identities, previous, if s.first.None? then Some(Cells(rows[0], c.identity)) else s.first,
                 Some(Cells(rows[|rows| - 1], c.identity)), s.rows + |rows|, s.bytes + chunk.bytes);
    ok := true;
  }

  lemma {:induction false} KeysBehind(seen: seq<Value>, rows: seq<Value>, identity: seq<string>)
    requires rows != []
    ensures KeyAt(seen + rows, 0, identity) ==
      if seen == [] then Some(Cells(rows[0], identity)) else KeyAt(seen, 0, identity)
    ensures KeyAt(seen + rows, |seen + rows| - 1, identity) == Some(Cells(rows[|rows| - 1], identity))
  {
    hide Cells;
  }

  /** The validator's pass over one dataset. */
  method ValidateDataset(d: DatasetRecord, files: Files, c: Contract, formats: Formats, sha: Sha) returns (ok: bool)
    ensures ok <==> DatasetValid(d, files, c, formats, sha)
  {
    hide Passed, ChunksFine, DatasetValid;
    if |d.chunks| > CHUNKS_PER_DATASET {
      TooManyChunks(d, files, c, formats, sha);
      return false;
    }
    var s := Pass({}, None, None, None, 0, 0);
    NothingPassed(d.chunks, files, c, formats, sha);
    for i := 0 to |d.chunks|
      invariant Passed(s, d.chunks, i, files, c, formats, sha)
    {
      var fine;
      fine, s := CheckChunk(s, d.chunks, i, files, c, formats, sha);
      if !fine {
        ValidChunksFine(d, files, c, formats, sha);
        return false;
      }
    }
    AllPassed(s, d, files, c, formats, sha);
    ok := d.rows == s.rows && d.bytes == s.bytes && s.rows <= c.maxRows
      && d.firstKey == (if s.first.None? then [] else s.first.value)
      && d.lastKey == (if s.last.None? then [] else s.last.value);
  }

  lemma TooManyChunks(d: DatasetRecord, files: Files, c: Contract, formats: Formats, sha: Sha)
    requires |d.chunks| > CHUNKS_PER_DATASET
    ensures !DatasetValid(d, files, c, formats, sha)
  {
  }

  lemma ValidChunksFine(d: DatasetRecord, files: Files, c: Contract, formats: Formats, sha: Sha)
    ensures DatasetValid(d, files, c, formats, sha) ==> ChunksFine(d.chunks, files, c, formats, sha)
  {
    hide ChunkOk, RowsInOrder, ParsedAll, SumRecordBytes, Cells;
  }

  lemma NothingPassed(chunks: seq<ChunkRecord>, files: Files, c: Contract, formats: Formats, sha: Sha)
    ensures Passed(Pass({}, None, None, None, 0, 0), chunks, 0, files, c, formats, sha)
  {
    assert chunks[..0] == [];
    NothingParsed(files);
    NothingCarried(c);
    hide ChunkOk, Carried, Cells, ParsedAll;
  }

  /** Behind all chunks only counts and keys are left to compare. */
  lemma AllPassed(s: Pass, d: DatasetRecord, files: Files, c: Contract, formats: Formats, sha: Sha)
    requires |d.chunks| <= CHUNKS_PER_DATASET && Passed(s, d.chunks, |d.chunks|, files, c, formats, sha)
    ensures DatasetValid(d, files, c, formats, sha) <==>
      && d.rows == s.rows && d.bytes == s.bytes && s.rows <= c.maxRows
      && d.firstKey == (if s.first.None? then [] else s.first.value)
      && d.lastKey == (if s.last.None? then [] else s.last.value)
  {
    hide ChunkOk, RowsInOrder, Carried, Cells, ParsedAll, SumRecordBytes;
    assert d.chunks[..|d.chunks|] == d.chunks;
    CarriedInOrder(ParsedAll(d.chunks, files), s.identities, s.previous, c);
  }

  function KeyAt(rows: seq<Value>, k: int, identity: seq<string>): Option<seq<Value>> {
    if 0 <= k < |rows| then Some(Cells(rows[k], identity)) else None
  }

  lemma FrameHasRows(chunk: ChunkRecord, files: Files, c: Contract, sha: Sha)
    requires ChunkFrameOk(chunk, files, c, sha)
    ensures Parsed(files, chunk.path) != []
  {
  }

  lemma NothingCarried(c: Contract)
    ensures Carried([], {}, None, c) && SumRecordBytes([]) == 0
  {
  }
}
