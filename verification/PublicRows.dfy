/**
 The rows of a projection: their types, their declared order, and what
 `_finish_projection` in quant_data/atlas/projections.py makes of them.
 */
module PublicRows {
  import opened Wrappers
  import opened Ordering
  import opened Json
  import opened JsonRoundTrip
  import opened Chunking

  datatype FieldContract = FieldContract(name: string, typeName: string, nullable: bool)

  /** A registered projection: its schema, identity and order. */
  datatype Contract = Contract(fields: seq<FieldContract>, identity: seq<string>, orderBy: seq<string>, maxRows: nat)

  /** `formats(type, text)`: the text is of that (string) type. */
  type Formats = (string, string) -> bool

  /** `_validate_public_value`, and `_validate_typed_value` in the exporter. */
  predicate CellOk(value: Value, f: FieldContract, formats: Formats) {
    match value
    case Null => f.nullable
    case Int(_) => f.typeName == "integer"
    case Str(s) => f.typeName != "integer" && formats(f.typeName, s)
    case _ => false
  }

  function Cell(row: Value, field: string): Value {
    if row.Obj? then
      match Lookup(row.fields, field)
      case Some(v) => v
      case None => Null
    else Null
  }

  /** `[row[field] for field in fields]`. */
  function Cells(row: Value, fields: seq<string>): (r: seq<Value>)
    ensures |r| == |fields|
    ensures forall i :: 0 <= i < |fields| ==> r[i] == Cell(row, fields[i])
  {
    if fields == [] then [] else [Cell(row, fields[0])] + Cells(row, fields[1..])
  }

  predicate UniqueNames(fields: seq<FieldContract>) {
    forall i, j :: 0 <= i < j < |fields| ==> fields[i].name != fields[j].name
  }

  predicate Declared(fields: seq<FieldContract>, name: string) {
    exists i :: 0 <= i < |fields| && fields[i].name == name
  }

  /** Identity and order fields are declared. 32 identity cells always fit a JSON text;
      the frozen contracts have at most five. */
  predicate ContractOk(c: Contract) {
    && UniqueNames(c.fields)
    && 0 < |c.identity| <= 32
    && (forall i :: 0 <= i < |c.identity| ==> Declared(c.fields, c.identity[i]))
    && (forall i :: 0 <= i < |c.orderBy| ==> Declared(c.fields, c.orderBy[i]))
  }

  /** A row has exactly the declared fields, in order, with values of their types. */
  predicate RowOk(row: Value, c: Contract, formats: Formats) {
    && row.Obj? && |row.fields| == |c.fields|
    && forall i :: 0 <= i < |c.fields| ==>
         row.fields[i].key == c.fields[i].name && CellOk(row.fields[i].value, c.fields[i], formats)
  }

  // ----- order keys -----

  function Kind(v: Value): nat {
    match v
    case Null => 0
    case Int(_) => 1
    case Str(_) => 2
    case _ => 3
  }

  /** `_sort_value`, compared as pairs. */
  predicate AtomLt(a: Value, b: Value) {
    || Kind(a) < Kind(b)
    || (a.Int? && b.Int? && a.i < b.i)
    || (a.Str? && b.Str? && TextLt(a.s, b.s))
  }

  /** Tuples of such pairs. */
  predicate KeyLt(a: seq<Value>, b: seq<Value>) {
    if b == [] then false
    else if a == [] then true
    else AtomLt(a[0], b[0]) || (!AtomLt(b[0], a[0]) && KeyLt(a[1..], b[1..]))
  }

  predicate RowLt(orderBy: seq<string>, a: Value, b: Value) {
    KeyLt(Cells(a, orderBy), Cells(b, orderBy))
  }

  function RowOrder(orderBy: seq<string>): (Value, Value) -> bool {
    (a, b) => RowLt(orderBy, a, b)
  }

  lemma {:induction false} TextAtomOrder(a: string, b: string, c: string)
    ensures !TextLt(a, a)
    ensures TextLt(a, b) && TextLt(b, c) ==> TextLt(a, c)
    ensures TextLt(a, c) ==> TextLt(a, b) || TextLt(b, c)
  {
    hide TextLt;
    TextIrreflexive(a);
    TextTotal(a, b);
    if TextLt(a, b) && TextLt(b, c) { TextTransitive(a, b, c); }
    if TextLt(b, a) && TextLt(a, c) { TextTransitive(b, a, c); }
  }

  lemma AtomOrder(a: Value, b: Value, c: Value)
    ensures !AtomLt(a, a)
    ensures AtomLt(a, b) && AtomLt(b, c) ==> AtomLt(a, c)
    ensures AtomLt(a, c) ==> AtomLt(a, b) || AtomLt(b, c)
  {
    hide TextLt, Kind;
    if a.Str? { TextIrreflexive(a.s); }
    AtomsByKind(a, a);
    AtomsByKind(a, b);
    AtomsByKind(b, c);
    AtomsByKind(a, c);
    if Kind(a) == Kind(b) == Kind(c) { OneKindOrder(a, b, c); }
  }

  lemma AtomsByKind(a: Value, b: Value)
    ensures Kind(a) < Kind(b) ==> AtomLt(a, b)
    ensures Kind(b) < Kind(a) ==> !AtomLt(a, b)
    ensures a.Str? ==> !TextLt(a.s, a.s)
  {
    if a.Str? { TextIrreflexive(a.s); }
    hide TextLt;
  }

  lemma OneKindOrder(a: Value, b: Value, c: Value)
    requires Kind(a) == Kind(b) == Kind(c)
    ensures AtomLt(a, b) && AtomLt(b, c) ==> AtomLt(a, c)
    ensures AtomLt(a, c) ==> AtomLt(a, b) || AtomLt(b, c)
  {
    hide TextLt;
    if a.Str? { TextAtomOrder(a.s, b.s, c.s); }
  }

  lemma {:induction false} KeyOrder(a: seq<Value>, b: seq<Value>, c: seq<Value>)
    ensures !KeyLt(a, a)
    ensures KeyLt(a, b) && KeyLt(b, c) ==> KeyLt(a, c)
    ensures KeyLt(a, c) ==> KeyLt(a, b) || KeyLt(b, c)
    decreases |a| + |b| + |c|
  {
    hide AtomLt;
    if a != [] {
      AtomOrder(a[0], a[0], a[0]);
      KeyOrder(a[1..], if b == [] then [] else b[1..], if c == [] then [] else c[1..]);
      if b != [] && c != [] {
        AtomOrder(a[0], b[0], c[0]);
        AtomOrder(c[0], b[0], a[0]);
        AtomOrder(a[0], c[0], b[0]);
        AtomOrder(b[0], a[0], c[0]);
        AtomOrder(b[0], c[0], a[0]);
        AtomOrder(c[0], a[0], b[0]);
      }
    }
  }

  lemma RowOrderIsOrder(orderBy: seq<string>)
    ensures StrictWeak(RowOrder(orderBy))
  {
    hide KeyLt, Cells;
    forall a, b, c
      ensures !RowLt(orderBy, a, a)
      ensures RowLt(orderBy, a, b) && RowLt(orderBy, b, c) ==> RowLt(orderBy, a, c)
      ensures RowLt(orderBy, a, c) ==> RowLt(orderBy, a, b) || RowLt(orderBy, b, c)
    {
      KeyOrder(Cells(a, orderBy), Cells(b, orderBy), Cells(c, orderBy));
    }
  }

  /** Keys of typed cells that do not differ in order do not differ. */
  lemma {:induction false} SameKey(a: seq<Value>, b: seq<Value>)
    requires |a| == |b| && !KeyLt(a, b) && !KeyLt(b, a)
    requires forall i :: 0 <= i < |a| ==> Kind(a[i]) < 3 && Kind(b[i]) < 3
    ensures a == b
  {
    if a != [] {
      if a[0].Str? && b[0].Str? { TextTotal(a[0].s, b[0].s); }
      SameKey(a[1..], b[1..]);
      assert a == [a[0]] + a[1..] && b == [b[0]] + b[1..];
    }
  }

  // ----- what the order is -----

  /** Absent before a number before a text; numbers by value, texts as Python compares them. */
  predicate CellFirst(a: Value, b: Value) {
    match b
    case Null => false
    case Int(n) => a.Null? || (a.Int? && a.i < n)
    case Str(s) => a.Null? || a.Int? || (a.Str? && TextLt(a.s, s))
    case _ => false
  }

  /** The first cell in which the two differ decides. */
  ghost predicate CellsFirst(a: seq<Value>, b: seq<Value>) {
    exists k :: 0 <= k < |a| && k < |b| && a[..k] == b[..k] && CellFirst(a[k], b[k])
  }

  predicate Typed(cells: seq<Value>) {
    forall i :: 0 <= i < |cells| ==> Kind(cells[i]) < 3
  }

  lemma AtomIsFirst(a: Value, b: Value)
    requires Kind(a) < 3 && Kind(b) < 3
    ensures AtomLt(a, b) <==> CellFirst(a, b)
    ensures !AtomLt(a, b) && !AtomLt(b, a) ==> a == b
  {
    if a.Str? && b.Str? { TextTotal(a.s, b.s); }
    hide TextLt;
  }

  lemma {:induction false} KeyIsFirst(a: seq<Value>, b: seq<Value>)
    requires |a| == |b| && Typed(a) && Typed(b)
    ensures KeyLt(a, b) <==> CellsFirst(a, b)
  {
    hide AtomLt, CellFirst, Kind;
    if a != [] {
      AtomIsFirst(a[0], b[0]);
      AtomIsFirst(b[0], a[0]);
      AtomOrder(a[0], b[0], a[0]);
      KeyIsFirst(a[1..], b[1..]);
      FirstOrRest(a, b);
    }
  }

  lemma FirstOrRest(a: seq<Value>, b: seq<Value>)
    requires |a| == |b| > 0
    ensures CellsFirst(a, b) <==> CellFirst(a[0], b[0]) || (a[0] == b[0] && CellsFirst(a[1..], b[1..]))
  {
    hide CellFirst;
    if CellsFirst(a, b) {
      var k :| 0 <= k < |a| && k < |b| && a[..k] == b[..k] && CellFirst(a[k], b[k]);
      if k > 0 {
        assert a[..k][0] == b[..k][0];
        assert a[1..][..k - 1] == a[..k][1..] && b[1..][..k - 1] == b[..k][1..];
        assert CellFirst(a[1..][k - 1], b[1..][k - 1]);
      }
    }
    if CellFirst(a[0], b[0]) { assert a[..0] == b[..0]; }
    if a[0] == b[0] && CellsFirst(a[1..], b[1..]) {
      var k :| 0 <= k < |a[1..]| && k < |b[1..]| && a[1..][..k] == b[1..][..k] && CellFirst(a[1..][k], b[1..][k]);
      assert a[..k + 1] == [a[0]] + a[1..][..k] && b[..k + 1] == [b[0]] + b[1..][..k];
    }
  }

  /** Of two rows of a finished projection the earlier comes first in the order fields. */
  lemma FinishedInOrder(rows: seq<Value>, c: Contract, formats: Formats, i: nat, j: nat)
    requires ContractOk(c) && Finish(rows, c, formats).Ok? && i < j < |rows|
    ensures var ordered := Finish(rows, c, formats).value;
      |ordered| == |rows| && CellsFirst(Cells(ordered[i], c.orderBy), Cells(ordered[j], c.orderBy))
  {
    FinishedRows(rows, c, formats);
    var ordered := Finish(rows, c, formats).value;
    assert |multiset(ordered)| == |multiset(rows)|;
    hide Finish, RowOk, KeyLt, CellsFirst, Cells, Kind, DistinctCells, ContractOk;
    TypedKey(ordered[i], c, formats);
    TypedKey(ordered[j], c, formats);
    assert RowOrder(c.orderBy)(ordered[i], ordered[j]);
    KeyIsFirst(Cells(ordered[i], c.orderBy), Cells(ordered[j], c.orderBy));
  }

  // ----- a finished projection -----

  predicate DistinctCells(rows: seq<Value>, fields: seq<string>) {
    forall i, j :: 0 <= i < j < |rows| ==> Cells(rows[i], fields) != Cells(rows[j], fields)
  }

  predicate AllRowsOk(rows: seq<Value>, c: Contract, formats: Formats) {
    forall i :: 0 <= i < |rows| ==> RowOk(rows[i], c, formats)
  }

  /** `_public_rows` and `_finish_projection`: the ordered rows, or what is raised. */
  function Finish(rows: seq<Value>, c: Contract, formats: Formats): Result<seq<Value>, Fault> {
    var ordered := Sort(rows, RowOrder(c.orderBy));
    if !AllRowsOk(rows, c, formats) then Err(ValidationFault)
    else if |rows| > c.maxRows then Err(ResourceLimit)
    else if !DistinctCells(rows, c.identity) then Err(ValidationFault)
    else if !DistinctCells(ordered, c.orderBy) then Err(ValidationFault)
    else match Dumped(Arr(ordered))
      case Err(e) => Err(e)
      case Ok(_) => Ok(ordered)
  }

  lemma {:induction false} DeclaredCell(row: Value, c: Contract, formats: Formats, name: string)
    requires RowOk(row, c, formats) && UniqueNames(c.fields) && Declared(c.fields, name)
    ensures Lookup(row.fields, name).Some? && Kind(Cell(row, name)) < 3
    ensures exists i :: 0 <= i < |c.fields| && c.fields[i].name == name && CellOk(Cell(row, name), c.fields[i], formats)
  {
    var i :| 0 <= i < |c.fields| && c.fields[i].name == name;
    assert row.fields[i].key == name;
    RowKeysUnique(row, c, formats);
    assert row.fields[i] in row.fields;
    LookupUnique(row.fields, row.fields[i]);
    assert Cell(row, name) == row.fields[i].value;
  }

  lemma {:induction false} RowKeysUnique(row: Value, c: Contract, formats: Formats)
    requires RowOk(row, c, formats) && UniqueNames(c.fields)
    ensures UniqueFields(row.fields) && UniqueKeys(row)
  {
    hide CellOk;
    forall i | 0 <= i < |row.fields| ensures UniqueKeys(row.fields[i].value) {
      assert CellOk(row.fields[i].value, c.fields[i], formats);
      LeafKeys(row.fields[i].value, c.fields[i], formats);
    }
    forall i, j | 0 <= i < j < |row.fields| ensures row.fields[i].key != row.fields[j].key {
      assert row.fields[i].key == c.fields[i].name && row.fields[j].key == c.fields[j].name;
    }
  }

  lemma {:induction false} LeafKeys(v: Value, f: FieldContract, formats: Formats)
    requires CellOk(v, f, formats)
    ensures UniqueKeys(v) && ReadBack(v) == v && SortKeys(v) == v
  {
  }

  /** Ordered rows are the same rows, strictly increasing in the declared order, with
      distinct identities. */
  lemma FinishedRows(rows: seq<Value>, c: Contract, formats: Formats)
    requires ContractOk(c) && Finish(rows, c, formats).Ok?
    ensures var ordered := Finish(rows, c, formats).value;
      && multiset(ordered) == multiset(rows)
      && StrictlySorted(ordered, RowOrder(c.orderBy))
      && AllRowsOk(ordered, c, formats)
      && DistinctCells(ordered, c.identity)
      && |ordered| <= c.maxRows
      && Dumped(Arr(ordered)).Ok?
  {
    var ordered := Finish(rows, c, formats).value;
    hide DistinctCells, Dumped, AllRowsOk, Sort, StrictWeak, Sorted, StrictlySorted, ContractOk;
    RowOrderIsOrder(c.orderBy);
    SortSorted(rows, RowOrder(c.orderBy));
    SortKeepsOk(rows, c, formats);
    StrictFromDistinct(ordered, c, formats);
    SortKeepsDistinct(rows, ordered, c.identity);
  }

  lemma {:induction false} SortKeepsOk(rows: seq<Value>, c: Contract, formats: Formats)
    requires AllRowsOk(rows, c, formats)
    ensures AllRowsOk(Sort(rows, RowOrder(c.orderBy)), c, formats)
  {
    hide RowOk, Sort;
    SortMembers(rows, RowOrder(c.orderBy));
    var ordered := Sort(rows, RowOrder(c.orderBy));
    forall i | 0 <= i < |ordered| ensures RowOk(ordered[i], c, formats) {
      assert ordered[i] in rows;
    }
  }

  lemma StrictFromDistinct(ordered: seq<Value>, c: Contract, formats: Formats)
    requires ContractOk(c) && AllRowsOk(ordered, c, formats)
    requires Sorted(ordered, RowOrder(c.orderBy)) && DistinctCells(ordered, c.orderBy)
    ensures StrictlySorted(ordered, RowOrder(c.orderBy))
  {
    hide RowOk, KeyLt, Cells;
    forall i, j | 0 <= i < j < |ordered| ensures RowOrder(c.orderBy)(ordered[i], ordered[j]) {
      var a, b := Cells(ordered[i], c.orderBy), Cells(ordered[j], c.orderBy);
      assert !RowOrder(c.orderBy)(ordered[j], ordered[i]);
      TypedKey(ordered[i], c, formats);
      TypedKey(ordered[j], c, formats);
      if !KeyLt(a, b) { SameKey(a, b); }
    }
  }

  lemma {:induction false} TypedKey(row: Value, c: Contract, formats: Formats)
    requires ContractOk(c) && RowOk(row, c, formats)
    ensures forall i :: 0 <= i < |c.orderBy| ==> Kind(Cells(row, c.orderBy)[i]) < 3
  {
    hide RowOk, Declared;
    forall i | 0 <= i < |c.orderBy| ensures Kind(Cells(row, c.orderBy)[i]) < 3 {
      DeclaredCell(row, c, formats, c.orderBy[i]);
    }
  }

  lemma {:induction false} OnceInDistinct(rows: seq<Value>, fields: seq<string>, row: Value)
    requires DistinctCells(rows, fields)
    ensures multiset(rows)[row] <= 1
  {
    hide Cells, DistinctCells;
    if rows != [] {
      var n := |rows| - 1;
      LastDiffers(rows, fields);
      OnceInDistinct(rows[..n], fields, row);
      CountSnoc(rows, row);
      if rows[n] == row { CountNone(rows[..n], row); }
    }
  }

  lemma LastDiffers(rows: seq<Value>, fields: seq<string>)
    requires rows != [] && DistinctCells(rows, fields)
    ensures var n := |rows| - 1; DistinctCells(rows[..n], fields) && rows[n] !in rows[..n]
  {
    hide Cells;
    var n := |rows| - 1;
    forall i | 0 <= i < n ensures rows[..n][i] != rows[n] { assert Cells(rows[i], fields) != Cells(rows[n], fields); }
  }

  lemma SortKeepsDistinct(rows: seq<Value>, ordered: seq<Value>, fields: seq<string>)
    requires DistinctCells(rows, fields) && multiset(ordered) == multiset(rows)
    ensures DistinctCells(ordered, fields)
  {
    hide Cells;
    forall i, j | 0 <= i < j < |ordered| ensures Cells(ordered[i], fields) != Cells(ordered[j], fields) {
      assert ordered[i] in multiset(ordered) && ordered[j] in multiset(ordered);
      assert ordered[i] in rows && ordered[j] in rows;
      if Cells(ordered[i], fields) == Cells(ordered[j], fields) {
        assert ordered[i] == ordered[j];
        OnceInDistinct(rows, fields, ordered[i]);
        TwoPlaces(ordered, i, j);
      }
    }
  }
}
