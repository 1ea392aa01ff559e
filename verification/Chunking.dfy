/**
 Cutting the ordered rows of a projection into chunk files
 (`_chunk_payloads` in quant_data/atlas/exporter.py): each row joins the open chunk
 unless that would break a bound.
 */
module Chunking {
  import opened Wrappers
  import opened Json
  import opened JsonCanonical

  // ----- sizes -----

  /** Bytes of one row as it stands in a list. */
  function RowBytes(row: Value): nat {
    Utf8Length(Print(SortKeys(row)))
  }

  function SumBytes(rows: seq<Value>): nat {
    if rows == [] then 0 else SumBytes(rows[..|rows| - 1]) + RowBytes(rows[|rows| - 1])
  }

  /** Brackets, rows, and a comma between neighbours. */
  function ListBytes(rows: seq<Value>): nat {
    2 + SumBytes(rows) + (if rows == [] then 0 else |rows| - 1)
  }

  function ListText(rows: seq<Value>): string {
    Print(SortKeys(Arr(rows)))
  }

  predicate Encodable(row: Value) {
    Refusal(SortKeys(row), 1).None?
  }

  predicate AllEncodable(rows: seq<Value>) {
    forall i :: 0 <= i < |rows| ==> Encodable(rows[i])
  }

  // ----- the greedy rule -----

  predicate Fits(rows: seq<Value>, maxRows: nat, maxBytes: nat) {
    |rows| <= maxRows && ListBytes(rows) <= maxBytes
  }

  /** The chunks still to be closed when `current` is open and `rows` are left. */
  function Greedy(current: seq<Value>, rows: seq<Value>, maxRows: nat, maxBytes: nat)
    : Result<seq<seq<Value>>, Fault>
    decreases |rows|, 0
  {
    if rows == [] then Ok(if current == [] then [] else [current])
    else
      var row, rest := rows[0], rows[1..];
      match Refusal(SortKeys(row), 1)
      case Some(e) => Err(e)
      case None =>
        var candidate := current + [row];
        if ListBytes(candidate) > MAX_JSON_BYTES then Err(ResourceLimit)
        else if ListBytes(candidate) > maxBytes && current != [] then
          if ListBytes([row]) > maxBytes then Err(ResourceLimit)
          else Close([current], Extend([row], rest, maxRows, maxBytes))
        else if ListBytes(candidate) > maxBytes then Err(ResourceLimit)
        else Extend(candidate, rest, maxRows, maxBytes)
  }

  /** The open chunk is closed as soon as it has `maxRows` rows. */
  function Extend(open: seq<Value>, rest: seq<Value>, maxRows: nat, maxBytes: nat)
    : Result<seq<seq<Value>>, Fault>
    decreases |rest|, 1
  {
    if |open| == maxRows then Close([open], Greedy([], rest, maxRows, maxBytes))
    else Greedy(open, rest, maxRows, maxBytes)
  }

  function Close(closed: seq<seq<Value>>, later: Result<seq<seq<Value>>, Fault>)
    : Result<seq<seq<Value>>, Fault>
  {
    match later
    case Err(e) => Err(e)
    case Ok(chunks) => Ok(closed + chunks)
  }

  function Chunks(rows: seq<Value>, maxRows: int, maxBytes: int): Result<seq<seq<Value>>, Fault> {
    if maxRows < 1 || maxBytes < 1 then Err(ValidationFault)
    else Greedy([], rows, maxRows, maxBytes)
  }

  function Texts(chunks: seq<seq<Value>>): (r: seq<string>)
    ensures |r| == |chunks|
    ensures forall i :: 0 <= i < |chunks| ==> r[i] == ListText(chunks[i])
  {
    if chunks == [] then [] else [ListText(chunks[0])] + Texts(chunks[1..])
  }

  // ----- what a split is -----

  function Concat(chunks: seq<seq<Value>>): seq<Value> {
    if chunks == [] then [] else chunks[0] + Concat(chunks[1..])
  }

  ghost predicate Bounded(chunks: seq<seq<Value>>, maxRows: nat, maxBytes: nat) {
    forall i :: 0 <= i < |chunks| ==> Fits(chunks[i], maxRows, maxBytes)
  }

  /** Nonempty chunks, none of which could have taken the row behind it. */
  ghost predicate Maximal(chunks: seq<seq<Value>>, maxRows: nat, maxBytes: nat) {
    && (forall i :: 0 <= i < |chunks| ==> chunks[i] != [])
    && (forall i :: 0 < i < |chunks| ==> !Fits(chunks[i - 1] + [chunks[i][0]], maxRows, maxBytes))
  }

  // ----- the size of a list, in closed form and in the text -----

  lemma {:induction false} Utf8Concat(a: string, b: string)
    ensures Utf8Length(a + b) == Utf8Length(a) + Utf8Length(b)
  {
    if a == [] {
      assert a + b == b;
    } else {
      assert (a + b)[1..] == a[1..] + b;
      Utf8Concat(a[1..], b);
    }
  }

  lemma {:induction false} SumBytesFront(rows: seq<Value>)
    requires rows != []
    ensures SumBytes(rows) == RowBytes(rows[0]) + SumBytes(rows[1..])
  {
    hide RowBytes;
    var n := |rows| - 1;
    if n > 0 {
      SumBytesFront(rows[..n]);
      assert rows[..n][1..] == rows[1..][..n - 1];
      assert rows[1..][n - 1] == rows[n];
    } else {
      assert rows[..0] == [] && rows[1..] == [];
    }
  }

  lemma {:induction false} JoinBytes(rows: seq<Value>)
    requires rows != []
    ensures Utf8Length(Join(PrintItems(SortItems(rows)))) == SumBytes(rows) + |rows| - 1
  {
    hide Print, SortKeys, Utf8Length;
    var parts := PrintItems(SortItems(rows));
    SumBytesFront(rows);
    assert parts[0] == Print(SortKeys(rows[0]));
    if |rows| == 1 {
      assert rows[1..] == [];
    } else {
      assert parts[1..] == PrintItems(SortItems(rows[1..]));
      JoinBytes(rows[1..]);
      Utf8Concat(parts[0] + ",", Join(parts[1..]));
      Utf8Concat(parts[0], ",");
      CommaIsOneByte();
    }
  }

  lemma CommaIsOneByte()
    ensures Utf8Length(",") == 1 && Utf8Length("[") == 1 && Utf8Length("]") == 1
  {
  }

  /** The closed form counts the bytes of the file. */
  lemma ListTextBytes(rows: seq<Value>)
    ensures Utf8Length(ListText(rows)) == ListBytes(rows)
  {
    hide Print, SortItems, PrintItems, Utf8Length;
    ListTextIs(rows);
    var body := Join(PrintItems(SortItems(rows)));
    Utf8Concat("[" + body, "]");
    Utf8Concat("[", body);
    CommaIsOneByte();
    if rows != [] {
      JoinBytes(rows);
    } else {
      assert body == "" && Utf8Length("") == 0 by { EmptyList(); }
    }
  }

  lemma EmptyList()
    ensures Join(PrintItems(SortItems([]))) == "" && Utf8Length("") == 0
  {
  }

  lemma {:induction false} ListTextIs(rows: seq<Value>)
    ensures ListText(rows) == "[" + Join(PrintItems(SortItems(rows))) + "]"
  {
    hide SortItems, PrintItems, Join;
  }

  /** What the codec does with a list of encodable rows. */
  lemma DumpedList(rows: seq<Value>)
    requires AllEncodable(rows)
    ensures Dumped(Arr(rows)) ==
      if ListBytes(rows) > MAX_JSON_BYTES then Err(ResourceLimit) else Ok(ListText(rows))
  {
    ListTextBytes(rows);
    ListAccepted(rows);
    hide SortKeys, Refusal, Print, Utf8Length, ListBytes;
  }

  lemma ListAccepted(rows: seq<Value>)
    requires AllEncodable(rows)
    ensures Refusal(SortKeys(Arr(rows)), 0).None?
  {
    var sorted := SortItems(rows);
    assert forall i :: 0 <= i < |sorted| ==> sorted[i] == SortKeys(rows[i]) && Encodable(rows[i]);
  }

  lemma DumpedRefusedList(rows: seq<Value>)
    requires rows != [] && AllEncodable(rows[..|rows| - 1]) && !Encodable(rows[|rows| - 1])
    ensures Dumped(Arr(rows)) == Err(Refusal(SortKeys(rows[|rows| - 1]), 1).value)
  {
    hide Print, Utf8Length;
    var sorted := SortItems(rows);
    var n := |rows| - 1;
    forall k | 0 <= k < n ensures Refusal(sorted[k], 1).None? {
      assert rows[..n][k] == rows[k];
      assert Encodable(rows[..n][k]);
    }
    RefusedLast(sorted, n);
  }

  lemma {:induction false} RefusedLast(items: seq<Value>, i: nat)
    requires i < |items| && Refusal(items[i], 1).Some?
    requires forall k :: 0 <= k < i ==> Refusal(items[k], 1).None?
    ensures RefusalInItems(items, 1) == Refusal(items[i], 1)
  {
    hide Refusal;
    if i > 0 {
      assert forall k :: 0 <= k < i - 1 ==> items[1..][k] == items[k + 1];
      RefusedLast(items[1..], i - 1);
    }
  }

  // ----- the split is lossless, bounded and maximal -----

  lemma {:induction false} SumBytesConcat(a: seq<Value>, b: seq<Value>)
    ensures SumBytes(a + b) == SumBytes(a) + SumBytes(b)
  {
    hide RowBytes;
    if b == [] {
      assert a + b == a;
    } else {
      var n := |b| - 1;
      assert (a + b)[..|a| + n] == a + b[..n];
      SumBytesConcat(a, b[..n]);
    }
  }

  lemma ListBytesSnoc(current: seq<Value>, row: Value)
    ensures current != [] ==> ListBytes(current + [row]) == ListBytes(current) + ListBytes([row]) - 1
    ensures current == [] ==> current + [row] == [row]
    ensures ListBytes([row]) == 2 + RowBytes(row)
  {
    hide RowBytes;
    SumBytesConcat(current, [row]);
    SumBytesConcat([], [row]);
    assert [row][..0] == [];
  }

  lemma {:induction false} ConcatOne(chunk: seq<Value>, chunks: seq<seq<Value>>)
    ensures Concat([chunk] + chunks) == chunk + Concat(chunks)
  {
    assert ([chunk] + chunks)[1..] == chunks;
  }

  /** A closed chunk in front keeps a split maximal when the next chunk starts with a
      row it could not take. */
  lemma MaximalCons(chunk: seq<Value>, chunks: seq<seq<Value>>, maxRows: nat, maxBytes: nat)
    requires chunk != [] && Fits(chunk, maxRows, maxBytes)
    requires Bounded(chunks, maxRows, maxBytes) && Maximal(chunks, maxRows, maxBytes)
    requires chunks != [] ==> !Fits(chunk + [chunks[0][0]], maxRows, maxBytes)
    ensures Bounded([chunk] + chunks, maxRows, maxBytes) && Maximal([chunk] + chunks, maxRows, maxBytes)
  {
    hide Fits;
    var all := [chunk] + chunks;
    assert forall i :: 1 <= i < |all| ==> all[i] == chunks[i - 1];
  }

  lemma {:induction false} GreedySplits(current: seq<Value>, rows: seq<Value>, maxRows: nat, maxBytes: nat)
    requires |current| < maxRows && (current != [] ==> Fits(current, maxRows, maxBytes))
    requires Greedy(current, rows, maxRows, maxBytes).Ok?
    ensures var chunks := Greedy(current, rows, maxRows, maxBytes).value;
      && Concat(chunks) == current + rows
      && Bounded(chunks, maxRows, maxBytes)
      && Maximal(chunks, maxRows, maxBytes)
      && (chunks != [] ==> current + rows != [] && chunks[0][0] == (current + rows)[0])
    decreases |rows|, 0
  {
    hide Encodable, RowBytes, SortKeys, Refusal, ListBytes, Concat;
    var chunks := Greedy(current, rows, maxRows, maxBytes).value;
    if rows == [] {
      ConcatOne(current, []);
      assert Concat([]) == [] by { EmptyConcat(); }
      assert [current] + [] == [current];
      assert current + rows == current;
    } else {
      var row, rest := rows[0], rows[1..];
      var candidate := current + [row];
      assert candidate + rest == current + rows;
      assert [row] + rest == rows;
      ListBytesSnoc(current, row);
      if ListBytes(candidate) > maxBytes && current != [] {
        ExtendSplits([row], rest, maxRows, maxBytes);
        var later := Extend([row], rest, maxRows, maxBytes).value;
        ConcatOne(current, later);
        assert !Fits(candidate, maxRows, maxBytes);
        MaximalCons(current, later, maxRows, maxBytes);
      } else {
        ExtendSplits(candidate, rest, maxRows, maxBytes);
      }
    }
  }

  lemma EmptyConcat()
    ensures Concat([]) == []
  {
  }

  lemma {:induction false} ExtendSplits(open: seq<Value>, rest: seq<Value>, maxRows: nat, maxBytes: nat)
    requires open != [] && Fits(open, maxRows, maxBytes)
    requires Extend(open, rest, maxRows, maxBytes).Ok?
    ensures var chunks := Extend(open, rest, maxRows, maxBytes).value;
      && Concat(chunks) == open + rest
      && Bounded(chunks, maxRows, maxBytes)
      && Maximal(chunks, maxRows, maxBytes)
      && chunks != [] && chunks[0][0] == open[0]
    decreases |rest|, 1
  {
    hide Greedy, Concat, ListBytes;
    if |open| == maxRows {
      GreedySplits([], rest, maxRows, maxBytes);
      var later := Greedy([], rest, maxRows, maxBytes).value;
      assert [] + rest == rest;
      ConcatOne(open, later);
      MaximalCons(open, later, maxRows, maxBytes);
    } else {
      GreedySplits(open, rest, maxRows, maxBytes);
      assert (open + rest)[0] == open[0];
      var chunks := Greedy(open, rest, maxRows, maxBytes).value;
      if chunks == [] { EmptyConcat(); }
    }
  }

  // ----- no split within the bounds uses fewer chunks -----

  lemma FitsPart(a: seq<Value>, b: seq<Value>, c: seq<Value>, maxRows: nat, maxBytes: nat)
    requires b != [] && Fits(a + b + c, maxRows, maxBytes)
    ensures Fits(b, maxRows, maxBytes)
  {
    hide SumBytes;
    SumBytesConcat(a + b, c);
    SumBytesConcat(a, b);
  }

  /** A maximal split of what is left of `rows` never needs more chunks than any split
      of all of them. */
  lemma {:induction false} StaysAhead(skipped: seq<Value>, chunks: seq<seq<Value>>, other: seq<seq<Value>>,
                                      maxRows: nat, maxBytes: nat)
    requires Concat(other) == skipped + Concat(chunks)
    requires Maximal(chunks, maxRows, maxBytes) && Bounded(other, maxRows, maxBytes)
    ensures |chunks| <= |other|
    decreases |other|
  {
    hide Fits;
    if chunks != [] { assert |Concat(chunks)| >= |chunks[0]| > 0; }
    if chunks != [] && other != [] {
      var first := other[0];
      assert Concat(other) == first + Concat(other[1..]);
      if |first| <= |skipped| {
        assert Concat(other[1..]) == (first + Concat(other[1..]))[|first|..];
        assert (skipped + Concat(chunks))[|first|..] == skipped[|first|..] + Concat(chunks);
        StaysAhead(skipped[|first|..], chunks, other[1..], maxRows, maxBytes);
      } else {
        FirstChunkReachesAsFar(skipped, chunks, first, Concat(other[1..]), maxRows, maxBytes);
        var taken := |first| - |skipped|;
        var left := chunks[0][taken..];
        assert Concat(chunks) == chunks[0] + Concat(chunks[1..]);
        assert Concat(other[1..]) == left + Concat(chunks[1..]) by {
          assert Concat(other[1..]) == (first + Concat(other[1..]))[|first|..];
          assert (skipped + Concat(chunks))[|first|..] == Concat(chunks)[taken..];
        }
        TailMaximal(chunks, maxRows, maxBytes);
        StaysAhead(left, chunks[1..], other[1..], maxRows, maxBytes);
      }
    }
  }

  lemma TailMaximal(chunks: seq<seq<Value>>, maxRows: nat, maxBytes: nat)
    requires chunks != [] && Maximal(chunks, maxRows, maxBytes)
    ensures Maximal(chunks[1..], maxRows, maxBytes)
  {
    hide Fits;
    var tail := chunks[1..];
    forall i | 0 < i < |tail| ensures !Fits(tail[i - 1] + [tail[i][0]], maxRows, maxBytes) {
      assert tail[i] == chunks[i + 1] && tail[i - 1] == chunks[i];
    }
  }

  lemma {:induction false} FirstChunkReachesAsFar(skipped: seq<Value>, chunks: seq<seq<Value>>, first: seq<Value>,
                                                  later: seq<Value>,
                                                  maxRows: nat, maxBytes: nat)
    requires chunks != [] && Maximal(chunks, maxRows, maxBytes) && Fits(first, maxRows, maxBytes)
    requires first + later == skipped + Concat(chunks) && |first| > |skipped|
    ensures |first| - |skipped| <= |chunks[0]|
  {
    hide Fits;
    if |first| - |skipped| > |chunks[0]| {
      OvershootTakesNextRow(skipped, chunks, first, later, maxRows, maxBytes);
    }
  }

  lemma {:induction false} OvershootTakesNextRow(skipped: seq<Value>, chunks: seq<seq<Value>>, first: seq<Value>,
                                                 later: seq<Value>,
                                                 maxRows: nat, maxBytes: nat)
    requires chunks != [] && (forall i :: 0 <= i < |chunks| ==> chunks[i] != []) && Fits(first, maxRows, maxBytes)
    requires first + later == skipped + Concat(chunks) && |first| - |skipped| > |chunks[0]|
    ensures |chunks| > 1 && Fits(chunks[0] + [chunks[1][0]], maxRows, maxBytes)
  {
    hide Fits;
    assert Concat(chunks) == chunks[0] + Concat(chunks[1..]);
    assert |Concat(chunks[1..])| > 0;
    assert Concat(chunks[1..]) == chunks[1] + Concat(chunks[1..][1..]);
    var b := chunks[0] + [chunks[1][0]];
    LongPrefix(skipped, chunks[0], chunks[1], Concat(chunks[1..][1..]), first, later);
    FitsPart(skipped, b, first[|skipped| + |b|..], maxRows, maxBytes);
  }

  lemma LongPrefix(a: seq<Value>, b: seq<Value>, c: seq<Value>, d: seq<Value>, first: seq<Value>, later: seq<Value>)
    requires first + later == a + (b + (c + d)) && |first| > |a| + |b| && c != []
    ensures first == a + (b + [c[0]]) + first[|a| + |b| + 1..]
  {
    var n := |a| + |b| + 1;
    var all := a + (b + (c + d));
    assert first == all[..|first|];
    assert all[..n] == a + (b + [c[0]]);
    assert first[..n] == all[..n];
  }

  /** The chunks are the rows again, each within both bounds, and as few as possible. */
  lemma ChunksAreOptimal(rows: seq<Value>, maxRows: int, maxBytes: int)
    requires Chunks(rows, maxRows, maxBytes).Ok?
    ensures var chunks := Chunks(rows, maxRows, maxBytes).value;
      && Concat(chunks) == rows
      && Bounded(chunks, maxRows, maxBytes)
      && Maximal(chunks, maxRows, maxBytes)
      && forall other :: Concat(other) == rows && Bounded(other, maxRows, maxBytes) ==> |chunks| <= |other|
  {
    GreedySplits([], rows, maxRows, maxBytes);
    var chunks := Chunks(rows, maxRows, maxBytes).value;
    assert [] + rows == rows;
    hide Greedy;
    forall other | Concat(other) == rows && Bounded(other, maxRows, maxBytes) ensures |chunks| <= |other| {
      assert Concat(other) == [] + Concat(chunks);
      StaysAhead([], chunks, other, maxRows, maxBytes);
    }
  }

  // ----- when chunking succeeds -----

  /** Bounds below one are invalid; otherwise a row raises what the codec raises for it, or the
      resource limit. */
  lemma {:induction false} ChunkFaults(rows: seq<Value>, maxRows: int, maxBytes: int)
    ensures maxRows < 1 || maxBytes < 1 ==> Chunks(rows, maxRows, maxBytes) == Err(ValidationFault)
    ensures maxRows >= 1 && maxBytes >= 1 && Chunks(rows, maxRows, maxBytes).Err? ==>
      || Chunks(rows, maxRows, maxBytes).error == ResourceLimit
      || exists i :: 0 <= i < |rows| && Refusal(SortKeys(rows[i]), 1) == Some(Chunks(rows, maxRows, maxBytes).error)
  {
    hide Greedy;
    if maxRows >= 1 && maxBytes >= 1 { GreedyFaults([], rows, maxRows, maxBytes); }
  }

  lemma {:induction false} GreedyFaults(current: seq<Value>, rows: seq<Value>, maxRows: nat, maxBytes: nat)
    ensures Greedy(current, rows, maxRows, maxBytes).Err? ==>
      || Greedy(current, rows, maxRows, maxBytes).error == ResourceLimit
      || exists i :: 0 <= i < |rows| &&
                     Refusal(SortKeys(rows[i]), 1) == Some(Greedy(current, rows, maxRows, maxBytes).error)
    decreases |rows|, 0
  {
    hide Refusal, SortKeys, ListBytes;
    if rows != [] {
      ExtendFaults([rows[0]], rows[1..], maxRows, maxBytes);
      ExtendFaults(current + [rows[0]], rows[1..], maxRows, maxBytes);
      assert forall i :: 0 <= i < |rows[1..]| ==> rows[1..][i] == rows[i + 1];
    }
  }

  lemma {:induction false} ExtendFaults(open: seq<Value>, rest: seq<Value>, maxRows: nat, maxBytes: nat)
    ensures Extend(open, rest, maxRows, maxBytes).Err? ==>
      || Extend(open, rest, maxRows, maxBytes).error == ResourceLimit
      || exists i :: 0 <= i < |rest| &&
                     Refusal(SortKeys(rest[i]), 1) == Some(Extend(open, rest, maxRows, maxBytes).error)
    decreases |rest|, 1
  {
    hide Refusal, SortKeys, Greedy;
    GreedyFaults([], rest, maxRows, maxBytes);
    GreedyFaults(open, rest, maxRows, maxBytes);
  }

  predicate RowFits(row: Value, maxBytes: int) {
    Encodable(row) && ListBytes([row]) <= maxBytes
  }

  lemma {:induction false} GreedySucceeds(current: seq<Value>, rows: seq<Value>, maxRows: nat, maxBytes: nat)
    requires |current| < maxRows && (current != [] ==> Fits(current, maxRows, maxBytes))
    requires 2 * maxBytes <= MAX_JSON_BYTES + 1
    ensures Greedy(current, rows, maxRows, maxBytes).Ok? <==> forall i :: 0 <= i < |rows| ==> RowFits(rows[i], maxBytes)
    decreases |rows|
  {
    hide Encodable, SortKeys, Refusal, ListBytes, Greedy, Extend;
    GreedyStep(current, rows, maxRows, maxBytes);
    if rows != [] {
      var row, rest := rows[0], rows[1..];
      var candidate := current + [row];
      ListBytesSnoc(current, row);
      SingleWithinCandidate(candidate, row);
      assert forall i :: 1 <= i < |rows| ==> rows[i] == rest[i - 1];
      assert forall i :: 0 <= i < |rest| ==> rest[i] == rows[i + 1];
      if RowFits(row, maxBytes) {
        var open := if ListBytes(candidate) > maxBytes then [row] else candidate;
        ExtendStep(open, rest, maxRows, maxBytes);
        GreedySucceeds(if |open| == maxRows then [] else open, rest, maxRows, maxBytes);
      }
    }
  }

  /** With a byte bound of at most half the codec's own limit, chunking fails exactly
      when a single row cannot be encoded within the bound. */
  lemma ChunksSucceedExactly(rows: seq<Value>, maxRows: int, maxBytes: int)
    requires maxRows >= 1 && maxBytes >= 1 && 2 * maxBytes <= MAX_JSON_BYTES + 1
    ensures Chunks(rows, maxRows, maxBytes).Ok? <==> forall i :: 0 <= i < |rows| ==> RowFits(rows[i], maxBytes)
  {
    GreedySucceeds([], rows, maxRows, maxBytes);
  }

  /** The codec can encode every chunk, and every chunk with the row behind it where the
      greedy rule tries that. */
  ghost predicate Triable(chunks: seq<seq<Value>>, maxRows: nat) {
    && (forall i :: 0 <= i < |chunks| ==> ListBytes(chunks[i]) <= MAX_JSON_BYTES)
    && (forall i :: 0 < i < |chunks| && chunks[i] != [] && |chunks[i - 1]| < maxRows ==>
          ListBytes(chunks[i - 1] + [chunks[i][0]]) <= MAX_JSON_BYTES)
  }

  /** One chunk of a maximal split, filled row by row. */
  lemma {:induction false} FillsChunk(chunks: seq<seq<Value>>, k: nat, maxRows: nat, maxBytes: nat)
    requires chunks != [] && k < |chunks[0]| && Bounded(chunks, maxRows, maxBytes) && Maximal(chunks, maxRows, maxBytes)
    requires AllEncodable(Concat(chunks))
    ensures Greedy(chunks[0][..k], chunks[0][k..] + Concat(chunks[1..]), maxRows, maxBytes) ==
      if ListBytes(chunks[0]) > MAX_JSON_BYTES then Err(ResourceLimit)
      else if |chunks| > 1 && |chunks[0]| < maxRows && ListBytes(chunks[0] + [chunks[1][0]]) > MAX_JSON_BYTES
      then Err(ResourceLimit)
      else Close([chunks[0]], Greedy([], Concat(chunks[1..]), maxRows, maxBytes))
    decreases |chunks[0]| - k
  {
    hide Greedy, Extend, Encodable, SortKeys, Refusal, ListBytes, Maximal, Concat;
    var chunk, later := chunks[0], Concat(chunks[1..]);
    var rows := chunk[k..] + later;
    var candidate := chunk[..k + 1];
    assert rows[0] == chunk[k] && rows[1..] == chunk[k + 1..] + later;
    assert chunk[..k] + [chunk[k]] == candidate;
    FirstRowsEncodable(chunks, k);
    PrefixFits(chunk, k + 1, maxRows, maxBytes);
    GreedyStep(chunk[..k], rows, maxRows, maxBytes);
    ExtendStep(candidate, rows[1..], maxRows, maxBytes);
    if ListBytes(candidate) > MAX_JSON_BYTES {
    } else if k + 1 < |chunk| {
      FillsChunk(chunks, k + 1, maxRows, maxBytes);
    } else {
      assert candidate == chunk && rows[1..] == later;
      if |chunk| < maxRows { ChunkIsFull(chunks, maxRows, maxBytes); }
    }
  }

  lemma {:induction false} FirstRowsEncodable(chunks: seq<seq<Value>>, k: nat)
    requires chunks != [] && k < |chunks[0]| && AllEncodable(Concat(chunks))
    ensures Encodable(chunks[0][k]) && AllEncodable(Concat(chunks[1..]))
  {
    hide Encodable;
    var all := Concat(chunks);
    assert all == chunks[0] + Concat(chunks[1..]);
    assert all[k] == chunks[0][k];
    forall i | 0 <= i < |Concat(chunks[1..])| ensures Encodable(Concat(chunks[1..])[i]) {
      assert all[|chunks[0]| + i] == Concat(chunks[1..])[i];
    }
  }

  lemma PrefixFits(chunk: seq<Value>, n: nat, maxRows: nat, maxBytes: nat)
    requires 0 < n <= |chunk| && Fits(chunk, maxRows, maxBytes)
    ensures Fits(chunk[..n], maxRows, maxBytes)
    ensures ListBytes(chunk[..n]) <= ListBytes(chunk)
  {
    hide RowBytes;
    assert chunk == chunk[..n] + chunk[n..];
    SumBytesConcat(chunk[..n], chunk[n..]);
  }

  /** A full chunk is closed, unless trying one more row breaks the codec's limit. */
  lemma {:induction false} ChunkIsFull(chunks: seq<seq<Value>>, maxRows: nat, maxBytes: nat)
    requires chunks != [] && chunks[0] != [] && Bounded(chunks, maxRows, maxBytes) && Maximal(chunks, maxRows, maxBytes)
    requires AllEncodable(Concat(chunks[1..])) && ListBytes(chunks[0]) <= MAX_JSON_BYTES && |chunks[0]| < maxRows
    ensures Greedy(chunks[0], Concat(chunks[1..]), maxRows, maxBytes) ==
      if |chunks| > 1 && ListBytes(chunks[0] + [chunks[1][0]]) > MAX_JSON_BYTES then Err(ResourceLimit)
      else Close([chunks[0]], Greedy([], Concat(chunks[1..]), maxRows, maxBytes))
  {
    var chunk, later := chunks[0], Concat(chunks[1..]);
    if |chunks| == 1 { assert later == []; }
    hide Greedy, Extend, Encodable, SortKeys, Refusal, ListBytes, Concat;
    GreedyStep(chunk, later, maxRows, maxBytes);
    GreedyStep([], later, maxRows, maxBytes);
    if |chunks| == 1 {
      assert [chunk] + [] == [chunk];
    } else {
      NextChunkStarts(chunks);
      var row := chunks[1][0];
      assert !Fits(chunks[0] + [chunks[1][0]], maxRows, maxBytes);
      PrefixFits(chunks[1], 1, maxRows, maxBytes);
      assert chunks[1][..1] == [row];
      ListBytesSnoc(chunk, row);
      SingleWithinCandidate(chunk + [row], row);
      assert [] + [row] == [row];
    }
  }

  lemma NextChunkStarts(chunks: seq<seq<Value>>)
    requires |chunks| > 1 && chunks[1] != []
    ensures Concat(chunks[1..]) != [] && Concat(chunks[1..])[0] == chunks[1][0]
  {
    assert chunks[1..][0] == chunks[1];
  }

  /** The maximal split is what chunking produces, exactly when the codec can encode what
      the greedy rule tries on the way. */
  lemma {:induction false} ProducesTheMaximalSplit(chunks: seq<seq<Value>>, maxRows: nat, maxBytes: nat)
    requires Bounded(chunks, maxRows, maxBytes) && Maximal(chunks, maxRows, maxBytes) && AllEncodable(Concat(chunks))
    ensures Greedy([], Concat(chunks), maxRows, maxBytes) ==
      if Triable(chunks, maxRows) then Ok(chunks) else Err(ResourceLimit)
    decreases |chunks|
  {
    hide Encodable, SortKeys, Refusal, ListBytes, Extend;
    if chunks == [] {
      assert Greedy([], [], maxRows, maxBytes) == Ok([]);
    } else {
      var chunk, rest := chunks[0], chunks[1..];
      assert chunk[..0] == [] && chunk[0..] == chunk;
      assert Concat(chunks) == chunk + Concat(rest);
      FillsChunk(chunks, 0, maxRows, maxBytes);
      FirstRowsEncodable(chunks, 0);
      TailMaximal(chunks, maxRows, maxBytes);
      assert Bounded(rest, maxRows, maxBytes);
      hide Greedy, Maximal, Bounded, Concat;
      ProducesTheMaximalSplit(rest, maxRows, maxBytes);
      TriableParts(chunks, maxRows);
      assert [chunk] + rest == chunks;
    }
  }

  lemma TriableParts(chunks: seq<seq<Value>>, maxRows: nat)
    requires chunks != []
    requires forall i :: 0 <= i < |chunks| ==> chunks[i] != []
    ensures Triable(chunks, maxRows) <==>
      && ListBytes(chunks[0]) <= MAX_JSON_BYTES
      && (|chunks| > 1 && |chunks[0]| < maxRows ==> ListBytes(chunks[0] + [chunks[1][0]]) <= MAX_JSON_BYTES)
      && Triable(chunks[1..], maxRows)
  {
    hide ListBytes;
    var rest := chunks[1..];
    assert forall i :: 0 <= i < |rest| ==> rest[i] == chunks[i + 1];
    if Triable(rest, maxRows) && ListBytes(chunks[0]) <= MAX_JSON_BYTES
       && (|chunks| > 1 && |chunks[0]| < maxRows ==> ListBytes(chunks[0] + [chunks[1][0]]) <= MAX_JSON_BYTES) {
      forall i | 0 < i < |chunks| && |chunks[i - 1]| < maxRows
        ensures ListBytes(chunks[i - 1] + [chunks[i][0]]) <= MAX_JSON_BYTES
      {
        if i > 1 { assert chunks[i - 1] == rest[i - 2] && chunks[i] == rest[i - 1]; }
      }
      assert forall i :: 1 <= i < |chunks| ==> chunks[i] == rest[i - 1];
    }
  }

  lemma {:induction false} AllReadRowsEncode(current: seq<Value>, rows: seq<Value>, maxRows: nat, maxBytes: nat)
    requires |current| < maxRows && (current != [] ==> Fits(current, maxRows, maxBytes))
    requires Greedy(current, rows, maxRows, maxBytes).Ok?
    ensures AllEncodable(rows)
    decreases |rows|
  {
    hide SortKeys, Refusal, ListBytes, Greedy, Extend;
    if rows != [] {
      var row, rest := rows[0], rows[1..];
      GreedyStep(current, rows, maxRows, maxBytes);
      ListBytesSnoc(current, row);
      SingleWithinCandidate(current + [row], row);
      var open := if ListBytes(current + [row]) > maxBytes then [row] else current + [row];
      ExtendStep(open, rest, maxRows, maxBytes);
      AllReadRowsEncode(if |open| == maxRows then [] else open, rest, maxRows, maxBytes);
      assert forall i :: 1 <= i < |rows| ==> rows[i] == rest[i - 1];
    }
  }

  /** For every pair of bounds: chunking succeeds with `chunks` exactly when they are the
      maximal split of the rows and the codec can encode all that is tried on the way. */
  lemma {:induction false} ChunksExactly(rows: seq<Value>, chunks: seq<seq<Value>>, maxRows: int, maxBytes: int)
    requires maxRows >= 1 && maxBytes >= 1
    ensures Chunks(rows, maxRows, maxBytes) == Ok(chunks) <==>
      && Concat(chunks) == rows && AllEncodable(rows)
      && Bounded(chunks, maxRows, maxBytes) && Maximal(chunks, maxRows, maxBytes)
      && Triable(chunks, maxRows)
  {
    hide Greedy, Bounded, Maximal, Triable, AllEncodable, Concat, ListBytes;
    if Chunks(rows, maxRows, maxBytes) == Ok(chunks) {
      AllReadRowsEncode([], rows, maxRows, maxBytes);
      ChunksAreOptimal(rows, maxRows, maxBytes);
      ProducesTheMaximalSplit(chunks, maxRows, maxBytes);
    } else if Concat(chunks) == rows && AllEncodable(rows)
      && Bounded(chunks, maxRows, maxBytes) && Maximal(chunks, maxRows, maxBytes) {
      ProducesTheMaximalSplit(chunks, maxRows, maxBytes);
    }
  }

  /** With a larger bound a split can exist and not be found: the list tried at a border
      exceeds the codec's limit. */
  lemma LargeBoundLosesASplit(a: Value, b: Value, maxBytes: int)
    requires RowFits(a, maxBytes) && RowFits(b, maxBytes)
    requires ListBytes([a]) + ListBytes([b]) - 1 > MAX_JSON_BYTES && maxBytes <= MAX_JSON_BYTES
    ensures Bounded([[a], [b]], 250, maxBytes) && Concat([[a], [b]]) == [a, b]
    ensures Chunks([a, b], 250, maxBytes) == Err(ResourceLimit)
  {
    hide RowFits, Fits, ListBytes, Concat, Chunks;
    TwoSingles(a, b);
    SingleFits(a, maxBytes);
    SingleFits(b, maxBytes);
    BorderTooLarge(a, b, maxBytes);
  }

  lemma TwoSingles(a: Value, b: Value)
    ensures Concat([[a], [b]]) == [a, b]
  {
    EmptyConcat();
    hide Concat;
    ConcatOne([b], []);
    ConcatOne([a], [[b]]);
    assert [[b]] + [] == [[b]] && [b] + [] == [b] && [[a]] + [[b]] == [[a], [b]];
    assert [a] + [b] == [a, b];
  }

  lemma SingleFits(a: Value, maxBytes: int)
    requires RowFits(a, maxBytes)
    ensures maxBytes >= 0 && Fits([a], 250, maxBytes)
  {
    hide Encodable, RowBytes;
  }

  lemma BorderTooLarge(a: Value, b: Value, maxBytes: int)
    requires RowFits(a, maxBytes) && RowFits(b, maxBytes)
    requires ListBytes([a]) + ListBytes([b]) - 1 > MAX_JSON_BYTES && maxBytes <= MAX_JSON_BYTES
    ensures Chunks([a, b], 250, maxBytes) == Err(ResourceLimit)
  {
    hide Encodable, SortKeys, Refusal, ListBytes, Greedy, Extend;
    PositiveBytes([a]);
    ListBytesSnoc([a], b);
    assert [] + [a] == [a] && [a] + [b] == [a, b];
    assert [a, b][1..] == [b];
    GreedyStep([], [a, b], 250, maxBytes);
    ExtendStep([a], [b], 250, maxBytes);
    GreedyStep([a], [b], 250, maxBytes);
  }

  lemma PositiveBytes(rows: seq<Value>)
    ensures ListBytes(rows) > 0
  {
    hide SumBytes;
  }

  lemma {:induction false} PlainText(s: string)
    requires forall i :: 0 <= i < |s| ==> s[i] == 'a'
    ensures EscapeText(s) == s && Utf8Length(s) == |s|
  {
    if s != [] {
      PlainText(s[1..]);
      assert [s[0]] + s[1..] == s;
    }
  }

  /** Two rows of five million letters, under a bound of six million bytes. */
  lemma LargeBoundExample()
    ensures var row := Str(seq(5_000_000, _ => 'a'));
      && Concat([[row], [row]]) == [row, row] && Bounded([[row], [row]], 250, 6_000_000)
      && Chunks([row, row], 250, 6_000_000) == Err(ResourceLimit)
  {
    var s := seq(5_000_000, _ => 'a');
    var row := Str(s);
    PlainText(s);
    assert |s| == 5_000_000;
    hide EscapeText, Utf8Length, Greedy, Extend, Concat;
    ListBytesSnoc([], row);
    TextRowBytes(s);
    LargeBoundLosesASplit(row, row, 6_000_000);
  }

  lemma {:induction false} TextRowBytes(s: string)
    requires EscapeText(s) == s
    ensures RowBytes(Str(s)) == Utf8Length(s) + 2
  {
    hide EscapeText, Utf8Length, Print;
    TextRow(s);
    Utf8Concat("\"" + s, "\"");
    Utf8Concat("\"", s);
    QuoteIsOneByte();
  }

  lemma {:induction false} TextRow(s: string)
    requires EscapeText(s) == s
    ensures Print(SortKeys(Str(s))) == "\"" + s + "\""
  {
    hide EscapeText;
  }

  lemma QuoteIsOneByte()
    ensures Utf8Length("\"") == 1
  {
  }

  // ----- the loop -----

  lemma CloseTwice(a: seq<seq<Value>>, b: seq<seq<Value>>, later: Result<seq<seq<Value>>, Fault>)
    ensures Close(a, Close(b, later)) == Close(a + b, later)
    ensures Close([], later) == later
  {
    if later.Ok? {
      assert (a + b) + later.value == a + (b + later.value);
      assert [] + later.value == later.value;
    }
  }

  function ClosedTexts(r: Result<seq<seq<Value>>, Fault>): Result<seq<string>, Fault> {
    match r
    case Err(e) => Err(e)
    case Ok(chunks) => Ok(Texts(chunks))
  }

  /** `_chunk_payloads`, without a deadline. */
  method ChunkPayloads(rows: seq<Value>, maxRows: int, maxBytes: int) returns (r: Result<seq<string>, Fault>)
    ensures r == ClosedTexts(Chunks(rows, maxRows, maxBytes))
  {
    hide Greedy, Extend, Texts, Concat, ListText, SortKeys, Refusal, Encodable, ListBytes, Dumped, Utf8Length;
    if maxRows < 1 || maxBytes < 1 { return Err(ValidationFault); }
    var result: seq<string> := [];
    var current: seq<Value> := [];
    ghost var closed: seq<seq<Value>> := [];
    CloseTwice([], [], Greedy([], rows, maxRows, maxBytes));
    assert rows[0..] == rows;
    assert result == Texts(closed) by { NoTexts(); }
    for i := 0 to |rows|
      invariant |current| < maxRows && AllEncodable(current)
      invariant current != [] ==> ListBytes(current) <= MAX_JSON_BYTES
      invariant result == Texts(closed)
      invariant Chunks(rows, maxRows, maxBytes) == Close(closed, Greedy(current, rows[i..], maxRows, maxBytes))
    {
      var row := rows[i];
      var candidate := current + [row];
      assert rows[i..][0] == row && rows[i..][1..] == rows[i + 1..];
      GreedyStep(current, rows[i..], maxRows, maxBytes);
      CandidateEncoding(current, row);
      var encoded := Dumped(Arr(candidate));
      if encoded.Err? { return Err(encoded.error); }
      if Utf8Length(encoded.value) > maxBytes && current != [] {
        DumpedList(current);
        TextsSnoc(closed, current);
        CloseTwice(closed, [current], Extend([row], rows[i + 1..], maxRows, maxBytes));
        result := result + [Dumped(Arr(current)).value];
        closed := closed + [current];
        current := [];
        CandidateEncoding([], row);
        assert [] + [row] == [row];
        SingleWithinCandidate(candidate, row);
        encoded := Dumped(Arr([row]));
      }
      if Utf8Length(encoded.value) > maxBytes { return Err(ResourceLimit); }
      current := current + [row];
      ExtendStep(current, rows[i + 1..], maxRows, maxBytes);
      if |current| == maxRows {
        DumpedList(current);
        TextsSnoc(closed, current);
        CloseTwice(closed, [current], Greedy([], rows[i + 1..], maxRows, maxBytes));
        result := result + [Dumped(Arr(current)).value];
        closed := closed + [current];
        current := [];
      }
    }
    assert rows[|rows|..] == [];
    GreedyStep(current, [], maxRows, maxBytes);
    if current != [] {
      DumpedList(current);
      TextsSnoc(closed, current);
      result := result + [Dumped(Arr(current)).value];
    } else {
      assert closed + [] == closed;
    }
    r := Ok(result);
  }

  lemma NoTexts()
    ensures Texts([]) == []
  {
  }

  /** What encoding the open chunk with one more row gives. */
  lemma {:induction false} CandidateEncoding(current: seq<Value>, row: Value)
    requires AllEncodable(current)
    ensures Encodable(row) ==> AllEncodable(current + [row])
    ensures var encoded := Dumped(Arr(current + [row]));
      if !Encodable(row) then encoded == Err(Refusal(SortKeys(row), 1).value)
      else if ListBytes(current + [row]) > MAX_JSON_BYTES then encoded == Err(ResourceLimit)
      else encoded == Ok(ListText(current + [row])) && Utf8Length(encoded.value) == ListBytes(current + [row])
  {
    hide Dumped, ListText, ListBytes, SortKeys, Refusal, Utf8Length;
    var candidate := current + [row];
    assert candidate[..|candidate| - 1] == current;
    if Encodable(row) {
      DumpedList(candidate);
      ListTextBytes(candidate);
    } else {
      DumpedRefusedList(candidate);
    }
  }

  lemma {:induction false} TextsSnoc(chunks: seq<seq<Value>>, chunk: seq<Value>)
    ensures Texts(chunks + [chunk]) == Texts(chunks) + [ListText(chunk)]
  {
    hide ListText;
    var a, b := Texts(chunks + [chunk]), Texts(chunks) + [ListText(chunk)];
    assert |a| == |b| && forall i :: 0 <= i < |a| ==> a[i] == b[i];
  }

  lemma SingleWithinCandidate(candidate: seq<Value>, row: Value)
    requires candidate != [] && candidate[|candidate| - 1] == row
    ensures ListBytes([row]) <= ListBytes(candidate)
  {
    var front := candidate[..|candidate| - 1];
    assert candidate == front + [row];
    ListBytesSnoc(front, row);
  }

  lemma {:induction false} GreedyStep(current: seq<Value>, rows: seq<Value>, maxRows: nat, maxBytes: nat)
    ensures Greedy(current, rows, maxRows, maxBytes) ==
      if rows == [] then Ok(if current == [] then [] else [current])
      else if !Encodable(rows[0]) then Err(Refusal(SortKeys(rows[0]), 1).value)
      else if ListBytes(current + [rows[0]]) > MAX_JSON_BYTES then Err(ResourceLimit)
      else if ListBytes(current + [rows[0]]) > maxBytes && current != [] then
        if ListBytes([rows[0]]) > maxBytes then Err(ResourceLimit)
        else Close([current], Extend([rows[0]], rows[1..], maxRows, maxBytes))
      else if ListBytes(current + [rows[0]]) > maxBytes then Err(ResourceLimit)
      else Extend(current + [rows[0]], rows[1..], maxRows, maxBytes)
  {
    hide ListBytes, SortKeys, Refusal, Extend;
  }

  lemma {:induction false} ExtendStep(open: seq<Value>, rest: seq<Value>, maxRows: nat, maxBytes: nat)
    ensures Extend(open, rest, maxRows, maxBytes) ==
      if |open| == maxRows then Close([open], Greedy([], rest, maxRows, maxBytes))
      else Greedy(open, rest, maxRows, maxBytes)
  {
    hide Greedy;
  }
}
