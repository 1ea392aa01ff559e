/**
 A version table in place: one `_append_*` call, and a writer's loop over its records.
 */
module VersionTables {
  import opened Wrappers
  import opened VersionChains

  class VersionTable<K(==, !new), C(==, !new)> {
    var rows: seq<Version<K, C>>

    constructor ()
      ensures rows == [] && WellChained(rows)
    {
      rows := [];
      new;
      assert forall key :: Chain<K, C>([], key) == [];
    }

    /** One `_append_*` call; returns how many rows it wrote. */
    method AppendVersion(key: K, columns: C) returns (written: nat)
      requires WellChained(rows)
      modifies this
      ensures WellChained(rows) && rows == Append(old(rows), Write(key, columns))
      ensures written == |rows| - |old(rows)|
      ensures Current(rows, key) == Some(columns)
    {
      var w := Write(key, columns);
      AppendMakesCurrent(rows, w, key);
      forall k { AppendKeepsChain(rows, w, k); }
      var prior := Prior(rows, key);
      if prior.Some? && rows[prior.value].columns == columns { return 0; }
      var sequence := if prior.None? then 1 else rows[prior.value].sequence + 1;
      rows := rows + [Version(key, columns, sequence, prior)];
      written := 1;
    }

    /** A writer's loop over its records, with its `written` counter. */
    method AppendBatch(writes: seq<Write<K, C>>) returns (written: nat)
      requires WellChained(rows)
      modifies this
      ensures WellChained(rows) && rows == AppendAll(old(rows), writes)
      ensures old(rows) <= rows && written == |rows| - |old(rows)|
    {
      hide Append, WellChained, Current;
      written := 0;
      assert writes[..0] == [];
      for i := 0 to |writes|
        invariant WellChained(rows) && rows == AppendAll(old(rows), writes[..i])
        invariant written == |rows| - |old(rows)|
      {
        assert writes[..i + 1][..i] == writes[..i];
        var n := AppendVersion(writes[i].key, writes[i].columns);
        assert Write(writes[i].key, writes[i].columns) == writes[i];
        written := written + n;
      }
      assert writes[..|writes|] == writes;
      StoredVersionsStay(old(rows), writes);
    }
  }
}
