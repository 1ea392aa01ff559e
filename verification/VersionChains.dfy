/**
 Append-only version tables (the `_append_*` writers and `_ensure_issuer_version` in
 quant_data/company/stage4_importer.py): a row is added when the columns compared differ
 from those of the key's latest version, with the next sequence number and a reference
 to the version it supersedes.
 */
module VersionChains {
  import opened Wrappers

  /** `key`: the columns of the WHERE clause; `columns`: the ones compared. `supersedes` is
      the place of the predecessor in the table. */
  datatype Version<K, C> = Version(key: K, columns: C, sequence: nat, supersedes: Option<nat>)

  datatype Write<K, C> = Write(key: K, columns: C)

  /** `WHERE key=... ORDER BY version_sequence DESC LIMIT 1`. */
  function Prior<K(==), C>(rows: seq<Version<K, C>>, key: K): (r: Option<nat>)
    ensures r.Some? ==> r.value < |rows| && rows[r.value].key == key
    ensures r.None? ==> forall i :: 0 <= i < |rows| ==> rows[i].key != key
  {
    if rows == [] then None
    else
      var n := |rows| - 1;
      var front := Prior(rows[..n], key);
      if rows[n].key == key && (front.None? || rows[n].sequence > rows[front.value].sequence) then Some(n)
      else front
  }

  function Append<K(==), C(==)>(rows: seq<Version<K, C>>, w: Write<K, C>): seq<Version<K, C>> {
    match Prior(rows, w.key)
    case None => rows + [Version(w.key, w.columns, 1, None)]
    case Some(i) =>
      if rows[i].columns == w.columns then rows
      else rows + [Version(w.key, w.columns, rows[i].sequence + 1, Some(i))]
  }

  function AppendAll<K(==), C(==)>(rows: seq<Version<K, C>>, writes: seq<Write<K, C>>): seq<Version<K, C>> {
    if writes == [] then rows
    else Append(AppendAll(rows, writes[..|writes| - 1]), writes[|writes| - 1])
  }

  // ----- chains -----

  /** The places of a key's versions, in table order. */
  function Chain<K(==), C>(rows: seq<Version<K, C>>, key: K): (r: seq<nat>)
    ensures forall i :: 0 <= i < |r| ==> r[i] < |rows| && rows[r[i]].key == key
  {
    if rows == [] then []
    else
      var n := |rows| - 1;
      Chain(rows[..n], key) + (if rows[n].key == key then [n] else [])
  }

  /** The i-th version has sequence i + 1, supersedes the one before and differs from it. */
  predicate LinkOk<K, C(==)>(rows: seq<Version<K, C>>, chain: seq<nat>, i: nat) {
    && i < |chain| && chain[i] < |rows|
    && rows[chain[i]].sequence == i + 1
    && rows[chain[i]].supersedes == (if i == 0 then None else Some(chain[i - 1]))
    && (i > 0 ==> chain[i - 1] < |rows| && rows[chain[i]].columns != rows[chain[i - 1]].columns)
  }

  ghost predicate Linked<K, C>(rows: seq<Version<K, C>>, chain: seq<nat>) {
    forall i :: 0 <= i < |chain| ==> LinkOk(rows, chain, i)
  }

  ghost predicate WellChained<K(!new), C>(rows: seq<Version<K, C>>) {
    forall key :: Linked(rows, Chain(rows, key))
  }

  /** A link looks at no more than its own two rows. */
  lemma LinkMoves<K, C>(rows: seq<Version<K, C>>, more: seq<Version<K, C>>, chain: seq<nat>, longer: seq<nat>, i: nat)
    requires rows <= more && chain <= longer && i < |chain|
    requires forall k :: 0 <= k < |chain| ==> chain[k] < |rows|
    ensures LinkOk(rows, chain, i) <==> LinkOk(more, longer, i)
  {
    assert longer[i] == chain[i] && more[chain[i]] == rows[chain[i]];
    if i > 0 { assert longer[i - 1] == chain[i - 1] && more[chain[i - 1]] == rows[chain[i - 1]]; }
  }

  lemma {:induction false} LinkedPrefix<K(!new), C>(rows: seq<Version<K, C>>, n: nat, key: K)
    requires n == |rows| - 1 && Linked(rows, Chain(rows, key))
    ensures Linked(rows[..n], Chain(rows[..n], key))
  {
    var front, whole := Chain(rows[..n], key), Chain(rows, key);
    hide LinkOk;
    forall i | 0 <= i < |front| ensures LinkOk(rows[..n], front, i) {
      LinkMoves(rows[..n], rows, front, whole, i);
    }
  }

  /** The latest version is the last of the chain. */
  lemma {:induction false} PriorIsLast<K(!new), C>(rows: seq<Version<K, C>>, key: K)
    requires Linked(rows, Chain(rows, key))
    ensures Prior(rows, key) == if Chain(rows, key) == [] then None else Some(Chain(rows, key)[|Chain(rows, key)| - 1])
  {
    if rows != [] {
      var n := |rows| - 1;
      var front, whole := Chain(rows[..n], key), Chain(rows, key);
      LinkedPrefix(rows, n, key);
      PriorIsLast(rows[..n], key);
      if rows[n].key == key {
        assert whole == front + [n];
        assert LinkOk(rows, whole, |front|);
        if front != [] { assert LinkOk(rows, whole, |front| - 1); }
      }
    }
  }

  lemma {:induction false} ChainSnoc<K, C>(rows: seq<Version<K, C>>, row: Version<K, C>, key: K)
    ensures Chain(rows + [row], key) == Chain(rows, key) + (if row.key == key then [|rows|] else [])
  {
    assert (rows + [row])[..|rows|] == rows;
  }

  lemma AppendKeepsChain<K(!new), C>(rows: seq<Version<K, C>>, w: Write<K, C>, key: K)
    requires WellChained(rows)
    ensures Linked(Append(rows, w), Chain(Append(rows, w), key))
  {
    var next := Append(rows, w);
    var chain, longer := Chain(rows, key), Chain(next, key);
    assert Linked(rows, chain);
    if next != rows {
      var row := next[|rows|];
      assert next == rows + [row];
      ChainSnoc(rows, row, key);
      PriorIsLast(rows, key);
      hide Chain, Prior, WellChained;
      forall i | 0 <= i < |longer| ensures LinkOk(next, longer, i) {
        if i < |chain| {
          LinkMoves(rows, next, chain, longer, i);
        } else if chain != [] {
          assert LinkOk(rows, chain, i - 1);
        }
      }
    }
  }

  /** Over all writes of all runs every chain is linked. */
  lemma {:induction false} ChainsStayLinked<K(!new), C>(rows: seq<Version<K, C>>, writes: seq<Write<K, C>>)
    requires WellChained(rows)
    ensures WellChained(AppendAll(rows, writes))
  {
    hide Append, Linked, Chain;
    if writes != [] {
      var n := |writes| - 1;
      ChainsStayLinked(rows, writes[..n]);
      forall key { AppendKeepsChain(AppendAll(rows, writes[..n]), writes[n], key); }
    }
  }

  /** Stored versions never change. */
  lemma {:induction false} StoredVersionsStay<K, C>(rows: seq<Version<K, C>>, writes: seq<Write<K, C>>)
    ensures rows <= AppendAll(rows, writes)
  {
    if writes != [] {
      StoredVersionsStay(rows, writes[..|writes| - 1]);
      AppendExtends(AppendAll(rows, writes[..|writes| - 1]), writes[|writes| - 1]);
      hide Append;
    }
  }

  lemma AppendExtends<K, C>(rows: seq<Version<K, C>>, w: Write<K, C>)
    ensures rows <= Append(rows, w) && |Append(rows, w)| <= |rows| + 1
    ensures Append(rows, w) == rows <==> |Append(rows, w)| == |rows|
  {
    hide Prior;
  }

  // ----- writing the same again -----

  /** What a reader sees as the current columns of a key. */
  function Current<K(==), C>(rows: seq<Version<K, C>>, key: K): Option<C> {
    match Prior(rows, key)
    case None => None
    case Some(i) => Some(rows[i].columns)
  }

  lemma AppendMakesCurrent<K(!new), C>(rows: seq<Version<K, C>>, w: Write<K, C>, key: K)
    requires WellChained(rows)
    ensures Current(Append(rows, w), key) == if key == w.key then Some(w.columns) else Current(rows, key)
    ensures Append(rows, w) == rows <==> Current(rows, w.key) == Some(w.columns)
  {
    assert Linked(rows, Chain(rows, key));
    var next := Append(rows, w);
    AppendKeepsChain(rows, w, key);
    PriorIsLast(rows, key);
    PriorIsLast(next, key);
    if next != rows {
      var row := next[|rows|];
      assert next == rows + [row];
      ChainSnoc(rows, row, key);
      hide Chain, Prior, Append, WellChained, Linked;
      var chain := Chain(rows, key);
      if row.key != key && chain != [] { assert next[chain[|chain| - 1]] == rows[chain[|chain| - 1]]; }
    }
  }

  predicate SameKeySameColumns<K(==), C(==)>(writes: seq<Write<K, C>>) {
    forall i, j :: 0 <= i < j < |writes| && writes[i].key == writes[j].key ==> writes[i].columns == writes[j].columns
  }

  lemma {:induction false} CurrentAfter<K(!new), C>(rows: seq<Version<K, C>>, writes: seq<Write<K, C>>, i: nat)
    requires WellChained(rows) && i < |writes|
    requires forall j :: i < j < |writes| ==> writes[j].key != writes[i].key
    ensures Current(AppendAll(rows, writes), writes[i].key) == Some(writes[i].columns)
  {
    hide Append, Current, WellChained;
    var n := |writes| - 1;
    ChainsStayLinked(rows, writes[..n]);
    AppendMakesCurrent(AppendAll(rows, writes[..n]), writes[n], writes[i].key);
    if i < n { CurrentAfter(rows, writes[..n], i); }
  }

  /** The last write to the key of write `i`. */
  function LastOf<K(==), C>(writes: seq<Write<K, C>>, i: nat): (j: nat)
    requires i < |writes|
    ensures i <= j < |writes| && writes[j].key == writes[i].key
    ensures forall k :: j < k < |writes| ==> writes[k].key != writes[i].key
    decreases |writes|
  {
    var n := |writes| - 1;
    if writes[n].key == writes[i].key then n else LastOf(writes[..n], i)
  }

  lemma {:induction false} NothingToWrite<K(!new), C>(rows: seq<Version<K, C>>, writes: seq<Write<K, C>>)
    requires WellChained(rows)
    ensures AppendAll(rows, writes) == rows <==>
      forall i :: 0 <= i < |writes| ==> Current(rows, writes[i].key) == Some(writes[i].columns)
  {
    hide Append, Current, WellChained, AppendAll;
    NoWrites(rows);
    if writes != [] {
      var n := |writes| - 1;
      var mid := AppendAll(rows, writes[..n]);
      ChainsStayLinked(rows, writes[..n]);
      StoredVersionsStay(rows, writes[..n]);
      AppendExtends(mid, writes[n]);
      AppendMakesCurrent(mid, writes[n], writes[n].key);
      NothingToWrite(rows, writes[..n]);
      assert AppendAll(rows, writes) == Append(mid, writes[n]) by { LastWrite(rows, writes); }
      assert forall i :: 0 <= i < n ==> writes[..n][i] == writes[i];
    }
  }

  lemma {:induction false} NoWrites<K, C>(rows: seq<Version<K, C>>)
    ensures AppendAll(rows, []) == rows
  {
  }

  lemma {:induction false} LastWrite<K, C>(rows: seq<Version<K, C>>, writes: seq<Write<K, C>>)
    requires writes != []
    ensures AppendAll(rows, writes) == Append(AppendAll(rows, writes[..|writes| - 1]), writes[|writes| - 1])
  {
  }

  lemma {:induction false} CurrentOfUniform<K(!new), C>(rows: seq<Version<K, C>>, writes: seq<Write<K, C>>, i: nat)
    requires WellChained(rows) && SameKeySameColumns(writes) && i < |writes|
    ensures Current(AppendAll(rows, writes), writes[i].key) == Some(writes[i].columns)
  {
    var j := LastOf(writes, i);
    hide AppendAll, Current, WellChained;
    CurrentAfter(rows, writes, j);
    assert i < j ==> writes[i].columns == writes[j].columns;
  }

  /** Writing a batch a second time writes nothing, exactly when the batch gives each key
      one set of columns. */
  lemma {:induction false} RepeatWritesNothingExactly<K(!new), C>(rows: seq<Version<K, C>>, writes: seq<Write<K, C>>)
    requires WellChained(rows)
    ensures AppendAll(AppendAll(rows, writes), writes) == AppendAll(rows, writes) <==> SameKeySameColumns(writes)
  {
    var once := AppendAll(rows, writes);
    ChainsStayLinked(rows, writes);
    NothingToWrite(once, writes);
    hide AppendAll, Current, WellChained;
    if SameKeySameColumns(writes) {
      forall i | 0 <= i < |writes| ensures Current(once, writes[i].key) == Some(writes[i].columns) {
        CurrentOfUniform(rows, writes, i);
      }
    }
  }
}
