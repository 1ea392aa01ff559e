/**
 What public rows, datasets and directories that pass are (quant_data/atlas/projections.py
 and quant_data/atlas/exporter.py), told without the functions that check them.
 */
module PublicMeaning {
  import opened Wrappers
  import opened Ordering
  import opened Digits
  import opened Json
  import opened JsonReader
  import opened JsonRoundTrip
  import opened JsonCanonical
  import opened Chunking
  import opened PublicRows
  import opened PublicChunks
  import opened PublicPayload
  import M = ManifestTotal

  // ----- rows -----

  /** Null where the field may be null, integers for integers, and texts of the type for
      everything else. */
  predicate CellTyped(value: Value, f: FieldContract, formats: Formats) {
    || (value == Null && f.nullable)
    || (value.Int? && f.typeName == "integer")
    || (value.Str? && f.typeName != "integer" && formats(f.typeName, value.s))
  }

  predicate RowTyped(row: Value, c: Contract, formats: Formats) {
    && row.Obj? && |row.fields| == |c.fields|
    && forall i :: 0 <= i < |row.fields| ==>
         row.fields[i].key == c.fields[i].name && CellTyped(row.fields[i].value, c.fields[i], formats)
  }

  lemma RowExactly(row: Value, c: Contract, formats: Formats)
    ensures RowOk(row, c, formats) <==> RowTyped(row, c, formats)
  {
    forall value, f ensures CellOk(value, f, formats) <==> CellTyped(value, f, formats) {}
    hide CellOk, CellTyped;
  }

  /** When a projection is finished: all rows typed, not too many, no identity and no order
      key twice, and small enough to print. What is raised otherwise. */
  lemma {:induction false} FinishesExactly(rows: seq<Value>, c: Contract, formats: Formats)
    ensures var ordered := Sort(rows, RowOrder(c.orderBy));
      Finish(rows, c, formats).Ok? <==>
        && (forall row :: row in rows ==> RowTyped(row, c, formats)) && |rows| <= c.maxRows
        && (forall i, j :: 0 <= i < j < |rows| ==> Cells(rows[i], c.identity) != Cells(rows[j], c.identity))
        && (forall i, j :: 0 <= i < j < |rows| ==> Cells(rows[i], c.orderBy) != Cells(rows[j], c.orderBy))
        && Dumped(Arr(ordered)).Ok?
    ensures (forall row :: row in rows ==> RowTyped(row, c, formats)) && |rows| > c.maxRows ==>
      Finish(rows, c, formats) == Err(ResourceLimit)
    ensures (exists row :: row in rows && !RowTyped(row, c, formats)) ==>
      Finish(rows, c, formats) == Err(ValidationFault)
    ensures (forall row :: row in rows ==> RowTyped(row, c, formats)) && |rows| <= c.maxRows &&
            (exists i, j :: 0 <= i < j < |rows| &&
               (Cells(rows[i], c.identity) == Cells(rows[j], c.identity) ||
                Cells(rows[i], c.orderBy) == Cells(rows[j], c.orderBy))) ==>
      Finish(rows, c, formats) == Err(ValidationFault)
  {
    hide RowOk, RowTyped, Cells, Dumped, Sort;
    var ordered := Sort(rows, RowOrder(c.orderBy));
    forall row ensures RowOk(row, c, formats) <==> RowTyped(row, c, formats) { RowExactly(row, c, formats); }
    if DistinctCells(rows, c.orderBy) { SortKeepsDistinct(rows, ordered, c.orderBy); }
    if DistinctCells(ordered, c.orderBy) { SortKeepsDistinct(ordered, rows, c.orderBy); }
    assert AllRowsOk(rows, c, formats) <==> forall row :: row in rows ==> RowOk(row, c, formats);
  }

  // ----- paths -----

  /** `path[i..j]` is a whole segment. */
  predicate SegmentAt(path: string, i: int, j: int) {
    && 0 <= i <= j <= |path| && '/' !in path[i..j]
    && (i == 0 || path[i - 1] == '/') && (j == |path| || path[j] == '/')
  }

  /** Some segment from `from` on reads `s`. */
  ghost predicate SegmentReads(path: string, from: int, s: string) {
    exists i, j :: from <= i && SegmentAt(path, i, j) && path[i..j] == s
  }

  lemma SegmentShifts(path: string, i: int, j: int)
    requires path != "" && 0 < i <= j
    ensures SegmentAt(path, i, j) <==> SegmentAt(path[1..], i - 1, j - 1) && (i == 1 ==> path[0] == '/')
    ensures j <= |path| ==> path[1..][i - 1..j - 1] == path[i..j]
  {
    if j <= |path| { assert path[1..][i - 1..j - 1] == path[i..j]; }
  }

  lemma {:induction false} ReadsShift(path: string, from: nat, s: string)
    requires path != "" && (from == 0 ==> path[0] == '/')
    ensures SegmentReads(path, from + 1, s) <==> SegmentReads(path[1..], from, s)
  {
    hide SegmentAt, SegmentReads;
    if SegmentReads(path, from + 1, s) {
      var i, j := ReadsWhere(path, from + 1, s);
      SegmentShifts(path, i, j);
      ReadsAt(path[1..], from, i - 1, j - 1, s);
    }
    if SegmentReads(path[1..], from, s) {
      var i, j := ReadsWhere(path[1..], from, s);
      SegmentShifts(path, i + 1, j + 1);
      ReadsAt(path, from + 1, i + 1, j + 1, s);
    }
  }

  lemma ReadsWhere(path: string, from: int, s: string) returns (i: int, j: int)
    requires SegmentReads(path, from, s)
    ensures from <= i && 0 <= i <= j <= |path| && SegmentAt(path, i, j) && path[i..j] == s
  {
    i, j :| from <= i && SegmentAt(path, i, j) && path[i..j] == s;
  }

  lemma ReadsAt(path: string, from: int, i: int, j: int, s: string)
    requires from <= i && SegmentAt(path, i, j) && path[i..j] == s
    ensures SegmentReads(path, from, s)
  {
  }

  /** The segments are the first one and those behind it. */
  lemma {:induction false} SegmentsExactly(path: string, s: string) returns (j: int)
    ensures SegmentAt(path, 0, j) && Segments(path)[0] == path[..j]
    ensures s in Segments(path)[1..] <==> SegmentReads(path, 1, s)
  {
    hide SegmentReads, Segments;
    if path == "" {
      j := 0;
      NoneBehind(s);
    } else {
      var k := SegmentsExactly(path[1..], s);
      SegmentsUnfold(path);
      if path[0] == '/' {
        j := 0;
        SlashFirst(path, k, s);
      } else {
        j := k + 1;
        LetterFirst(path, k, s);
      }
    }
  }

  lemma {:induction false} SegmentsUnfold(path: string)
    requires path != ""
    ensures var rest := Segments(path[1..]);
      Segments(path) == if path[0] == '/' then [[]] + rest else [[path[0]] + rest[0]] + rest[1..]
  {
  }

  lemma {:induction false} SlashFirst(path: string, k: int, s: string)
    requires path != "" && path[0] == '/' && Segments(path) == [[]] + Segments(path[1..])
    requires SegmentAt(path[1..], 0, k) && Segments(path[1..])[0] == path[1..][..k]
    requires s in Segments(path[1..])[1..] <==> SegmentReads(path[1..], 1, s)
    ensures SegmentAt(path, 0, 0) && Segments(path)[0] == path[..0]
    ensures s in Segments(path)[1..] <==> SegmentReads(path, 1, s)
  {
    hide SegmentReads, Segments;
    var rest := Segments(path[1..]);
    ReadsShift(path, 0, s);
    FirstReads(path[1..], k, s);
    assert Segments(path)[1..] == rest;
    assert rest == [rest[0]] + rest[1..];
  }

  lemma {:induction false} LetterFirst(path: string, k: int, s: string)
    requires path != "" && path[0] != '/'
    requires var rest := Segments(path[1..]); Segments(path) == [[path[0]] + rest[0]] + rest[1..]
    requires SegmentAt(path[1..], 0, k) && Segments(path[1..])[0] == path[1..][..k]
    requires s in Segments(path[1..])[1..] <==> SegmentReads(path[1..], 1, s)
    ensures SegmentAt(path, 0, k + 1) && Segments(path)[0] == path[..k + 1]
    ensures s in Segments(path)[1..] <==> SegmentReads(path, 1, s)
  {
    hide SegmentReads, Segments;
    assert path[..k + 1] == [path[0]] + path[1..][..k];
    ReadsShift(path, 1, s);
    NotAtOne(path, s);
    assert Segments(path)[1..] == Segments(path[1..])[1..];
  }

  lemma NoneBehind(s: string)
    ensures !SegmentReads("", 1, s) && Segments("") == [""] && Segments("")[1..] == []
  {
  }

  /** From the front on: the first segment, or one behind it. */
  lemma {:induction false} FirstReads(path: string, k: int, s: string)
    requires SegmentAt(path, 0, k)
    ensures SegmentReads(path, 0, s) <==> path[..k] == s || SegmentReads(path, 1, s)
  {
    if SegmentReads(path, 0, s) {
      var i, j :| 0 <= i && SegmentAt(path, i, j) && path[i..j] == s;
      if i == 0 {
        OneFirst(path, j, k);
        assert path[0..j] == path[..j];
      }
    }
    if path[..k] == s { assert path[0..k] == s; }
  }

  lemma OneFirst(path: string, j: int, k: int)
    requires SegmentAt(path, 0, j) && SegmentAt(path, 0, k)
    ensures j == k
  {
    assert forall m :: 0 <= m < k ==> path[0..k][m] == path[m];
    assert forall m :: 0 <= m < j ==> path[0..j][m] == path[m];
  }

  lemma NotAtOne(path: string, s: string)
    requires path != "" && path[0] != '/'
    ensures SegmentReads(path, 1, s) <==> SegmentReads(path, 2, s)
  {
  }

  /** A public path: below the public directories, without backslashes, and no segment is
      empty, `.` or `..`. */
  lemma {:induction false} SafeExactly(path: string)
    ensures SafeRelative(path) <==>
      && (forall i, j :: SegmentAt(path, i, j) ==> path[i..j] !in {"", ".", ".."})
      && (forall k :: 0 <= k < |path| ==> path[k] != '\\')
      && (path == "index.html" || "assets/" <= path || "data/" <= path)
  {
    hide Segments;
    var segments := Segments(path);
    forall s ensures s in segments <==> SegmentReads(path, 0, s) {
      var j := SegmentsExactly(path, s);
      FirstReads(path, j, s);
      assert segments == [segments[0]] + segments[1..];
    }
    if SafeRelative(path) {
      forall i, j | SegmentAt(path, i, j) ensures path[i..j] !in {"", ".", ".."} {
        assert SegmentReads(path, 0, path[i..j]);
        var k :| 0 <= k < |segments| && segments[k] == path[i..j];
      }
    }
    if forall i, j :: SegmentAt(path, i, j) ==> path[i..j] !in {"", ".", ".."} {
      forall k | 0 <= k < |segments| ensures PlainSegment(segments[k]) {
        assert segments[k] in segments;
        var i, j :| 0 <= i && SegmentAt(path, i, j) && path[i..j] == segments[k];
      }
    }
  }

  /** Four digits at least. */
  lemma IndexWidth(index: nat)
    ensures |IndexText(index)| == if index < 10000 then 4 else DigitCount(index)
    ensures TextNat(IndexText(index)) == index
  {
    hide Pow;
    IndexTextValue(index);
    DigitCountBounds(index);
    FourDigits();
    if index < 10000 {
      if DigitCount(index) > 4 { PowMonotone(10, 4, DigitCount(index) - 1); }
    } else {
      if DigitCount(index) < 4 { PowMonotone(10, DigitCount(index), 4); }
    }
  }

  lemma FourDigits()
    ensures Pow(10, 4) == 10000
  {
  }

  // ----- writing a dataset -----

  /** The row alone makes a chunk, and that chunk can be read back. */
  predicate Writable(row: Value) {
    && Dumped(Arr([row])).Ok? && Utf8Length(Dumped(Arr([row])).value) <= 262_144
    && IntegralNumbersShort(row)
  }

  lemma {:induction false} FitsExactly(row: Value)
    ensures RowFits(row, CHUNK_BYTES) <==> Dumped(Arr([row])).Ok? && Utf8Length(Dumped(Arr([row])).value) <= 262_144
  {
    hide SortKeys, Refusal, Print, Utf8Length;
    if Encodable(row) {
      DumpedList([row]);
      ListTextBytes([row]);
    } else {
      OneRefused(row);
    }
  }

  lemma {:induction false} OneRefused(row: Value)
    requires !Encodable(row)
    ensures Dumped(Arr([row])).Err?
  {
    hide Print, Utf8Length;
    assert SortItems([row])[0] == SortKeys(row);
  }

  lemma {:induction false} InSomeChunk(chunks: seq<seq<Value>>, row: Value)
    requires row in Concat(chunks)
    ensures exists i :: 0 <= i < |chunks| && row in chunks[i]
  {
    if row !in chunks[0] {
      InSomeChunk(chunks[1..], row);
      var i :| 0 <= i < |chunks[1..]| && row in chunks[1..][i];
      assert row in chunks[i + 1];
    }
  }

  lemma {:induction false} ChunkLoads(chunk: seq<Value>, c: Contract, formats: Formats)
    requires UniqueNames(c.fields) && AllRowsOk(chunk, c, formats) && AllEncodable(chunk)
    requires ListBytes(chunk) <= CHUNK_BYTES
    ensures Loaded(ListText(chunk)).Ok? <==> AllShort(chunk)
    ensures Loaded(ListText(chunk)).Ok? ==>
      Loaded(ListText(chunk)).value.Arr? && |Loaded(ListText(chunk)).value.items| == |chunk|
  {
    hide RowOk, Dumped, Loaded, ListText, ListBytes, Encodable, UniqueNames, IntegralNumbersShort, UniqueKeys;
    DumpedList(chunk);
    forall i | 0 <= i < |chunk| ensures UniqueKeys(chunk[i]) { RowKeysUnique(chunk[i], c, formats); }
    ListUnique(chunk);
    RoundTrip(Arr(chunk), ListText(chunk));
    ShortList(chunk);
    if Loaded(ListText(chunk)).Ok? { ChunkReads(chunk, c, formats); }
  }

  lemma ListUnique(items: seq<Value>)
    requires forall i :: 0 <= i < |items| ==> UniqueKeys(items[i])
    ensures UniqueKeys(Arr(items))
  {
  }

  predicate AllShort(rows: seq<Value>) {
    forall row :: row in rows ==> IntegralNumbersShort(row)
  }

  lemma ShortArray(items: seq<Value>)
    ensures IntegralNumbersShort(Arr(items)) <==> forall i :: 0 <= i < |items| ==> IntegralNumbersShort(items[i])
  {
  }

  lemma {:induction false} ShortList(items: seq<Value>)
    ensures IntegralNumbersShort(Arr(items)) <==> AllShort(items)
  {
    hide IntegralNumbersShort;
    ShortArray(items);
  }

  lemma {:induction false} RecordsExactly(id: string, payloads: seq<string>, identity: seq<string>, sha: Sha)
    ensures RecordsOf(id, payloads, identity, sha).Ok? <==>
      forall i :: 0 <= i < |payloads| ==> RecordOf(ChunkPath(id, i + 1), payloads[i], identity, sha).Ok?
  {
    hide RecordOf, ChunkPath;
    if payloads != [] {
      var n := |payloads| - 1;
      RecordsExactly(id, payloads[..n], identity, sha);
      assert forall i :: 0 <= i < n ==> payloads[..n][i] == payloads[i];
    }
  }

  lemma RecordExactly(path: string, payload: string, identity: seq<string>, sha: Sha)
    ensures RecordOf(path, payload, identity, sha).Ok? <==>
      Loaded(payload).Ok? && Loaded(payload).value.Arr? && Loaded(payload).value.items != []
  {
    hide Loaded, Utf8Length, Cells;
  }

  /** When a finished projection is written: each of its rows makes a chunk of at most 262144
      bytes, and none of them holds an integer of more than 4096 digits. */
  lemma {:induction false} WritesExactly(id: string, ordered: seq<Value>, c: Contract, formats: Formats, sha: Sha)
    requires UniqueNames(c.fields) && AllRowsOk(ordered, c, formats)
    ensures WriteDataset(id, ordered, c.identity, sha).Ok? <==> forall row :: row in ordered ==> Writable(row)
  {
    hide AllRowsOk, UniqueNames, RowFits, Chunks, RecordsOf, RecordOf, Concat, Maximal, Bounded, Texts, Writable,
         AllShort,
         WriteDataset, ChunkPath;
    WriteUnfolds(id, ordered, c.identity, sha);
    ChunksSucceedExactly(ordered, CHUNK_ROWS, CHUNK_BYTES);
    WritableRows(ordered);
    if Chunks(ordered, CHUNK_ROWS, CHUNK_BYTES).Ok? {
      ChunksAreOptimal(ordered, CHUNK_ROWS, CHUNK_BYTES);
      var chunks := Chunks(ordered, CHUNK_ROWS, CHUNK_BYTES).value;
      RecordsExactly(id, Texts(chunks), c.identity, sha);
      EveryChunkReads(id, ordered, chunks, c, formats, sha);
    }
  }

  lemma {:induction false} WriteUnfolds(id: string, ordered: seq<Value>, identity: seq<string>, sha: Sha)
    ensures WriteDataset(id, ordered, identity, sha).Ok? <==>
      var chunks := Chunks(ordered, CHUNK_ROWS, CHUNK_BYTES);
      chunks.Ok? && RecordsOf(id, Texts(chunks.value), identity, sha).Ok?
  {
    hide Chunks, RecordsOf, Texts, DatasetOf;
  }

  lemma {:induction false} WritableRows(ordered: seq<Value>)
    ensures (forall row :: row in ordered ==> Writable(row)) <==>
      (forall i :: 0 <= i < |ordered| ==> RowFits(ordered[i], CHUNK_BYTES)) && AllShort(ordered)
  {
    hide RowFits, IntegralNumbersShort, Dumped, Utf8Length;
    forall row ensures Writable(row) <==> RowFits(row, CHUNK_BYTES) && IntegralNumbersShort(row) { FitsExactly(row); }
    hide Writable;
    assert (forall i :: 0 <= i < |ordered| ==> RowFits(ordered[i], CHUNK_BYTES)) <==>
      forall row :: row in ordered ==> RowFits(row, CHUNK_BYTES);
  }

  lemma {:induction false} EveryChunkReads(id: string, ordered: seq<Value>, chunks: seq<seq<Value>>, c: Contract,
                                           formats: Formats, sha: Sha)
    requires UniqueNames(c.fields) && AllRowsOk(ordered, c, formats) && Concat(chunks) == ordered
    requires Maximal(chunks, CHUNK_ROWS, CHUNK_BYTES) && Bounded(chunks, CHUNK_ROWS, CHUNK_BYTES)
    requires forall i :: 0 <= i < |ordered| ==> RowFits(ordered[i], CHUNK_BYTES)
    ensures AllShort(ordered) <==>
      forall i :: 0 <= i < |Texts(chunks)| ==> RecordOf(ChunkPath(id, i + 1), Texts(chunks)[i], c.identity, sha).Ok?
  {
    hide AllRowsOk, RowFits, RecordOf, Concat, ChunkPath, AllShort, UniqueNames, Encodable, ListText, ListBytes, Loaded;
    forall i | 0 <= i < |chunks|
      ensures RecordOf(ChunkPath(id, i + 1), Texts(chunks)[i], c.identity, sha).Ok? <==> AllShort(chunks[i])
    {
      ChunkRowsOk(ordered, chunks, i, c, formats);
      ChunkLoads(chunks[i], c, formats);
      RecordExactly(ChunkPath(id, i + 1), ListText(chunks[i]), c.identity, sha);
    }
    ShortInChunks(ordered, chunks);
  }

  lemma {:induction false} ShortInChunks(ordered: seq<Value>, chunks: seq<seq<Value>>)
    requires Concat(chunks) == ordered
    ensures AllShort(ordered) <==> forall i :: 0 <= i < |chunks| ==> AllShort(chunks[i])
  {
    hide IntegralNumbersShort, Concat;
    forall i, row | 0 <= i < |chunks| && row in chunks[i] ensures row in ordered { ChunkWithin(chunks, i, row); }
    forall row | row in ordered ensures exists i :: 0 <= i < |chunks| && row in chunks[i] { InSomeChunk(chunks, row); }
  }

  // ----- a valid dataset -----

  /** A row as it is read back: exactly the declared fields, each with a value of its type. */
  predicate RowReads(row: Value, c: Contract, formats: Formats) {
    && row.Obj? && (forall f :: f in row.fields ==> exists g :: g in c.fields && g.name == f.key)
    && forall g :: g in c.fields ==> Lookup(row.fields, g.name).Some? && CellTyped(Cell(row, g.name), g, formats)
  }

  lemma {:induction false} ParsedExactly(row: Value, c: Contract, formats: Formats)
    ensures ParsedRowOk(row, c, formats) <==> RowReads(row, c, formats)
  {
    hide Lookup, CellOk, CellTyped, Cell;
    forall value, f ensures CellOk(value, f, formats) <==> CellTyped(value, f, formats) {
      CellExactly(value, f, formats);
    }
    forall name ensures Declared(c.fields, name) <==> exists g :: g in c.fields && g.name == name {
      DeclaredExactly(c.fields, name);
    }
    hide Declared;
    if row.Obj? {
      assert (forall i :: 0 <= i < |row.fields| ==> Declared(c.fields, row.fields[i].key)) <==>
        forall f :: f in row.fields ==> Declared(c.fields, f.key);
    }
  }

  lemma CellExactly(value: Value, f: FieldContract, formats: Formats)
    ensures CellOk(value, f, formats) <==> CellTyped(value, f, formats)
  {
  }

  lemma DeclaredExactly(fields: seq<FieldContract>, name: string)
    ensures Declared(fields, name) <==> exists g :: g in fields && g.name == name
  {
    if g :| g in fields && g.name == name {
      var i :| 0 <= i < |fields| && fields[i] == g;
    }
  }

  /** What the chunks of a valid dataset are: at most 20 files below the chunk directory, each
      with its digest and size, of 1 to 250 typed rows and at most 262144 bytes, and the
      keys of its first and last row. */
  lemma {:induction false} ValidChunks(d: DatasetRecord, files: Files, c: Contract, formats: Formats, sha: Sha, i: nat)
    requires DatasetValid(d, files, c, formats, sha) && i < |d.chunks|
    ensures |d.chunks| <= 20
    ensures var chunk := d.chunks[i];
      && "data/chunks/" <= chunk.path && SafeRelative(chunk.path) && chunk.path in files
      && sha(files[chunk.path]) == chunk.sha256 && Utf8Length(files[chunk.path]) == chunk.bytes <= 262_144
      && Loaded(files[chunk.path]).Ok? && Loaded(files[chunk.path]).value.Arr?
      && var rows := Loaded(files[chunk.path]).value.items;
         && 1 <= |rows| <= 250 && |rows| == chunk.rows
         && (forall row :: row in rows ==> RowReads(row, c, formats))
         && chunk.firstKey == Cells(rows[0], c.identity) && chunk.lastKey == Cells(rows[|rows| - 1], c.identity)
  {
    hide Loaded, Cells, Utf8Length, ParsedRowOk, RowReads, RowsInOrder, ParsedAll, SumRecordBytes, SafeRelative;
    var chunk := d.chunks[i];
    assert ChunkOk(chunk, files, c, formats, sha);
    var rows := Parsed(files, chunk.path);
    forall row | row in rows ensures RowReads(row, c, formats) {
      var k :| 0 <= k < |rows| && rows[k] == row;
      ParsedExactly(row, c, formats);
    }
  }

  /** What its rows are together: identities that print and print differently, and counts. */
  lemma {:induction false} ValidRows(d: DatasetRecord, files: Files, c: Contract, formats: Formats, sha: Sha)
    requires DatasetValid(d, files, c, formats, sha)
    ensures var rows := ParsedAll(d.chunks, files);
      && |rows| == d.rows <= c.maxRows && d.bytes == SumRecordBytes(d.chunks)
      && (forall i :: 0 <= i < |rows| ==> Dumped(Arr(Cells(rows[i], c.identity))).Ok?)
      && (forall i, j :: 0 <= i < j < |rows| ==>
            Dumped(Arr(Cells(rows[i], c.identity))) != Dumped(Arr(Cells(rows[j], c.identity))))
      && (rows != [] ==>
            d.firstKey == Cells(rows[0], c.identity) && d.lastKey == Cells(rows[|rows| - 1], c.identity))
      && (rows == [] ==> d.firstKey == [] && d.lastKey == [])
  {
    hide Cells, Dumped, ChunkOk, ParsedAll, SumRecordBytes, OrderRises, RowsInOrder;
    IdentitiesPrint(ParsedAll(d.chunks, files), c);
  }

  lemma IdentitiesPrint(rows: seq<Value>, c: Contract)
    requires RowsInOrder(rows, c)
    ensures forall i :: 0 <= i < |rows| ==> Dumped(Arr(Cells(rows[i], c.identity))).Ok?
    ensures forall i, j :: 0 <= i < j < |rows| ==>
      Dumped(Arr(Cells(rows[i], c.identity))) != Dumped(Arr(Cells(rows[j], c.identity)))
  {
    hide Cells, Dumped, OrderRises;
    forall i | 0 <= i < |rows| ensures IdentityText(rows[i], c.identity) == Dumped(Arr(Cells(rows[i], c.identity))) {}
    hide IdentityText;
    forall i, j | 0 <= i < j < |rows|
      ensures Dumped(Arr(Cells(rows[i], c.identity))) != Dumped(Arr(Cells(rows[j], c.identity)))
    {
      assert IdentityText(rows[i], c.identity) != IdentityText(rows[j], c.identity);
    }
  }

  // ----- sums -----

  /** The totals are the sums over the datasets and their chunks. */
  lemma {:induction false} TotalsAdd(datasets: seq<DatasetRecord>, d: DatasetRecord, chunks: seq<ChunkRecord>,
                                     chunk: ChunkRecord)
    ensures TotalRows([]) == TotalChunks([]) == TotalBytes([]) == SumRows([]) == SumRecordBytes([]) == 0
    ensures TotalRows(datasets + [d]) == TotalRows(datasets) + d.rows
    ensures TotalChunks(datasets + [d]) == TotalChunks(datasets) + |d.chunks|
    ensures TotalBytes(datasets + [d]) == TotalBytes(datasets) + d.bytes
    ensures SumRows(chunks + [chunk]) == SumRows(chunks) + chunk.rows
    ensures SumRecordBytes(chunks + [chunk]) == SumRecordBytes(chunks) + chunk.bytes
  {
    assert (datasets + [d])[..|datasets|] == datasets;
    assert (chunks + [chunk])[..|chunks|] == chunks;
  }

  // ----- a valid directory -----

  lemma DigestExactly(s: string)
    ensures M.IsDigest(s) <==> |s| == 64 && forall i :: 0 <= i < |s| ==> s[i] in "0123456789abcdef"
  {
  }

  /** Everything the inventory of a valid directory says of a file is true of it. */
  lemma {:induction false} FilesAsListed(d: Declaration, p: Payload, revision: string, path: string)
    requires Validates(d, p, revision) && path in p.tree && path != "data/checksums.json"
    ensures exists r :: r in p.inventory && r.path == path && r.sha256 == d.sha(p.tree[path]) && |r.sha256| == 64
                        && r.bytes == Utf8Length(p.tree[path])
    ensures forall r :: r in p.inventory && r.path == path ==>
      r.sha256 == d.sha(p.tree[path]) && r.bytes == Utf8Length(p.tree[path])
  {
    hide Utf8Length, PayloadValid, AggregatesOk, SafeRelative;
    var i :| 0 <= i < |p.inventory| && p.inventory[i].path == path;
    assert RecordOk(p.inventory[i], p.tree, d.sha);
    assert p.inventory[i] in p.inventory;
    forall r | r in p.inventory && r.path == path
      ensures r.sha256 == d.sha(p.tree[path]) && r.bytes == Utf8Length(p.tree[path])
    {
      var k :| 0 <= k < |p.inventory| && p.inventory[k] == r;
      assert RecordOk(p.inventory[k], p.tree, d.sha);
    }
  }

  /** The inventory gives the directory away: two valid directories with one inventory have
      the same files, and every file has the same digest and length in both. */
  lemma {:induction false} InventoryFixesTheFiles(d: Declaration, p: Payload, q: Payload, revision: string,
                                                  other: string, path: string)
    requires Validates(d, p, revision) && Validates(d, q, other) && p.inventory == q.inventory
    ensures path in p.tree <==> path in q.tree
    ensures path in p.tree && path != "data/checksums.json" ==>
      d.sha(p.tree[path]) == d.sha(q.tree[path]) && Utf8Length(p.tree[path]) == Utf8Length(q.tree[path])
  {
    hide Utf8Length, PayloadValid, AggregatesOk, InventoryComplete;
    if path in p.tree && path != CHECKSUMS {
      FilesAsListed(d, p, revision, path);
      var r :| r in p.inventory && r.path == path;
      ListedFile(d, q, other, r);
      FilesAsListed(d, q, other, path);
    }
    if path in q.tree && path != CHECKSUMS {
      FilesAsListed(d, q, other, path);
      var r :| r in q.inventory && r.path == path;
      ListedFile(d, p, revision, r);
    }
  }

  lemma {:induction false} ListedFile(d: Declaration, p: Payload, revision: string, r: M.PublicFile)
    requires Validates(d, p, revision) && r in p.inventory
    ensures r.path in p.tree && r.path != CHECKSUMS && SafeRelative(r.path)
  {
    hide Utf8Length, PayloadValid, AggregatesOk, SafeRelative;
    var k :| 0 <= k < |p.inventory| && p.inventory[k] == r;
    assert RecordOk(p.inventory[k], p.tree, d.sha);
  }

  /** What else a valid directory is: of the revision it is stored under, at most 8 MiB in
      all its files, which its manifest counts, with at most 12000 rows in at most 48 chunks
      of the declared datasets, each of them valid. */
  lemma {:induction false} ValidDirectory(d: Declaration, p: Payload, revision: string)
    requires Validates(d, p, revision)
    ensures p.manifest.revision == revision
    ensures "data/manifest.json" in p.tree && "data/checksums.json" in p.tree && "data/schema.json" in p.tree
    ensures p.manifest.bytes == BytesAt(p.tree, p.tree.Keys) <= 8_388_608 && p.manifest.fileCount == |p.tree|
    ensures p.manifest.rows == TotalRows(p.manifest.datasets) <= 12_000
    ensures p.manifest.chunkBytes == TotalBytes(p.manifest.datasets) && TotalChunks(p.manifest.datasets) <= 48
    ensures |p.manifest.datasets| == |d.datasets|
    ensures forall i :: 0 <= i < |d.datasets| ==>
      && p.manifest.datasets[i].id == d.datasets[i].id
      && DatasetValid(p.manifest.datasets[i], p.tree, d.datasets[i].contract, d.formats, d.sha)
  {
    hide InventoryComplete, DatasetValid, TotalRows, TotalBytes, TotalChunks, BytesAt;
  }
}
