/**
 What the codec refuses, and the shape of what it prints (quant_data/json_codec.py), told
 without the recursion of the printer.
 */
module JsonLimits {
  import opened Wrappers
  import opened Ordering
  import opened Digits
  import opened Json
  import opened JsonReader
  import opened JsonRoundTrip
  import opened JsonCanonical

  // ----- characters -----

  /** How many bits of a code point `n` bytes of UTF-8 carry. */
  function PayloadBits(n: nat): nat {
    if n == 1 then 7 else 5 * n + 1
  }

  /** A character takes the least number of bytes that carry its code point. */
  lemma CharBytesExactly(c: char)
    ensures (c as int) < Pow(2, PayloadBits(CharBytes(c)))
    ensures CharBytes(c) > 1 ==> (c as int) >= Pow(2, PayloadBits(CharBytes(c) - 1))
  {
    assert Pow(2, 7) == 0x80;
    PowAdd(2, 7, 4);
    assert Pow(2, 4) == 16;
    PowAdd(2, 11, 5);
    assert Pow(2, 5) == 32;
    PowAdd(2, 16, 5);
  }

  /** Escapes are short ones where JSON has a name for the character, numbered ones for the
      other control characters, and nothing else is escaped. */
  lemma EscapesExactly(c: char)
    ensures |EscapeChar(c)| == 1 <==> c >= ' ' && c != '"' && c != '\\'
    ensures |EscapeChar(c)| == 1 ==> EscapeChar(c) == [c]
    ensures |EscapeChar(c)| == 2 <==> c in "\"\\\n\r\t\U{08}\U{0C}"
    ensures |EscapeChar(c)| in {1, 2, 6}
    ensures |EscapeChar(c)| > 1 ==> EscapeChar(c)[0] == '\\'
  {
    assert c in "\"\\\n\r\t\U{08}\U{0C}" <==>
      c == '"' || c == '\\' || c == '\n' || c == '\r' || c == '\t' || c == '\U{08}' || c == '\U{0C}';
  }

  // ----- numbers -----

  lemma {:induction false} BitLengthExactly(n: nat)
    ensures n < Pow(2, BitLength(n)) && (n == 0 ==> BitLength(n) == 0)
    ensures n > 0 ==> BitLength(n) > 0 && Pow(2, BitLength(n) - 1) <= n
  {
    if n > 0 {
      BitLengthExactly(n / 2);
      if n / 2 > 0 { assert Pow(2, BitLength(n) - 1) == 2 * Pow(2, BitLength(n / 2) - 1); }
    }
  }

  /** Integers print exactly between the two powers of two. */
  lemma IntegersWithinLimits(i: int)
    ensures IntegerWithinLimits(i) <==> i < Pow(2, 13610) && -i < Pow(2, 13610)
  {
    hide Pow, BitLength;
    var n := Abs(i);
    BitLengthExactly(n);
    if BitLength(n) <= 13610 {
      PowMonotone(2, BitLength(n), 13610);
    } else {
      PowMonotone(2, 13610, BitLength(n) - 1);
    }
  }

  /** A decimal prints when it has at most 4096 digits and neither its last nor its first
      digit stands further than 4096 places from the point. */
  lemma DecimalsWithinLimits(d: Decimal)
    ensures DecimalWithinLimits(d) <==>
      && d.coefficient < Pow(10, 4096)
      && -4096 <= d.exponent <= 4096 && -4096 <= d.exponent + DigitCount(d.coefficient) - 1 <= 4096
  {
    hide Pow;
    DigitCountBounds(d.coefficient);
    if DigitCount(d.coefficient) <= 4096 {
      PowMonotone(10, DigitCount(d.coefficient), 4096);
    } else {
      PowMonotone(10, 4096, DigitCount(d.coefficient) - 1);
    }
  }

  /** A decimal's value: its digits, moved by its exponent. */
  lemma DecimalValue(d: Decimal)
    ensures d.exponent >= 0 ==> NumberValue(Dec(d)) == Scaled(d) as real
    ensures d.exponent < 0 ==>
      NumberValue(Dec(d)) * (Pow(10, -d.exponent) as real) ==
        (if d.negative then 0.0 - (d.coefficient as real) else d.coefficient as real)
    ensures forall i :: NumberValue(Int(i)) == i as real
  {
    hide Pow;
    if d.exponent < 0 {
      PowPositive(10, -d.exponent);
      Cancels(d.coefficient as real, Pow(10, -d.exponent) as real);
    }
  }

  lemma Cancels(x: real, y: real)
    requires y != 0.0
    ensures (x * (1.0 / y)) * y == x && (0.0 - x * (1.0 / y)) * y == 0.0 - x
  {
    assert (1.0 / y) * y == 1.0;
    assert (x * (1.0 / y)) * y == x * ((1.0 / y) * y);
  }

  // ----- what is refused -----

  /** How deep values are nested; a leaf has height 0. */
  function Height(v: Value): nat {
    match v
    case Arr(items) => if items == [] then 0 else 1 + HighestItem(items)
    case Obj(fields) => if fields == [] then 0 else 1 + HighestField(fields)
    case _ => 0
  }

  function Larger(a: nat, b: nat): nat {
    if a < b then b else a
  }

  function HighestItem(items: seq<Value>): nat {
    if items == [] then 0 else Larger(Height(items[0]), HighestItem(items[1..]))
  }

  function HighestField(fields: seq<Field>): nat {
    if fields == [] then 0 else Larger(Height(fields[0].value), HighestField(fields[1..]))
  }

  /** Every number inside is within the limits. */
  predicate NumbersFine(v: Value) {
    match v
    case Int(i) => IntegerWithinLimits(i)
    case Dec(d) => DecimalWithinLimits(d)
    case Arr(items) => forall i :: 0 <= i < |items| ==> NumbersFine(items[i])
    case Obj(fields) => forall i :: 0 <= i < |fields| ==> NumbersFine(fields[i].value)
    case _ => true
  }

  /** What `Refusal` says of a value of that height, or of several. */
  predicate RefusedFor(r: Option<Fault>, height: nat, fine: bool, finite: bool) {
    && (r.None? <==> height <= 32 && fine && finite)
    && (finite ==> r in {None, Some(ResourceLimit)})
    && (height <= 32 && fine ==> r in {None, Some(ValidationFault)})
  }

  /** A value is refused exactly for its depth, for a number in it, or for one that is not
      finite; the fault is the resource limit unless something is not finite. */
  lemma {:induction false} RefusedExactly(v: Value, depth: nat)
    requires depth <= 32
    ensures RefusedFor(Refusal(v, depth), depth + Height(v), NumbersFine(v), Finite(v))
    decreases v, 0
  {
    hide Refusal, RefusalInItems, RefusalInFields, Height, HighestItem, HighestField, NumbersFine, Finite, RefusedFor;
    match v
    case Arr(items) =>
      ArrayUnfolds(items, depth);
      if depth < 32 { ItemsRefused(items, depth + 1); }
      ArrayRefused(items, depth);
    case Obj(fields) =>
      ObjectUnfolds(fields, depth);
      if depth < 32 { FieldsRefused(fields, depth + 1); }
      ObjectRefused(fields, depth);
    case _ => LeafRefused(v, depth);
  }

  lemma {:induction false} LeafRefused(v: Value, depth: nat)
    requires depth <= 32 && !v.Arr? && !v.Obj?
    ensures RefusedFor(Refusal(v, depth), depth + Height(v), NumbersFine(v), Finite(v))
  {
    hide IntegerWithinLimits, DecimalWithinLimits;
  }

  lemma {:induction false} ArrayRefused(items: seq<Value>, depth: nat)
    requires depth <= 32
    requires depth < 32 ==>
      RefusedFor(RefusalInItems(items, depth + 1), depth + 1 + HighestItem(items),
                 forall i :: 0 <= i < |items| ==> NumbersFine(items[i]),
                 forall i :: 0 <= i < |items| ==> Finite(items[i]))
    ensures RefusedFor(Refusal(Arr(items), depth), depth + Height(Arr(items)), NumbersFine(Arr(items)),
                       Finite(Arr(items)))
  {
    hide Refusal, RefusalInItems, Height, HighestItem, NumbersFine, Finite;
    ArrayUnfolds(items, depth);
  }

  lemma {:induction false} ObjectRefused(fields: seq<Field>, depth: nat)
    requires depth <= 32
    requires depth < 32 ==>
      RefusedFor(RefusalInFields(fields, depth + 1), depth + 1 + HighestField(fields),
                 forall i :: 0 <= i < |fields| ==> NumbersFine(fields[i].value),
                 forall i :: 0 <= i < |fields| ==> Finite(fields[i].value))
    ensures RefusedFor(Refusal(Obj(fields), depth), depth + Height(Obj(fields)), NumbersFine(Obj(fields)),
                       Finite(Obj(fields)))
  {
    hide Refusal, RefusalInFields, Height, HighestField, NumbersFine, Finite;
    ObjectUnfolds(fields, depth);
  }

  lemma {:induction false} ArrayUnfolds(items: seq<Value>, depth: nat)
    requires depth <= 32
    ensures Refusal(Arr(items), depth) == RefusalInItems(items, depth + 1)
    ensures Height(Arr(items)) == if items == [] then 0 else 1 + HighestItem(items)
    ensures NumbersFine(Arr(items)) <==> forall i :: 0 <= i < |items| ==> NumbersFine(items[i])
    ensures Finite(Arr(items)) <==> forall i :: 0 <= i < |items| ==> Finite(items[i])
    ensures items == [] ==> RefusalInItems(items, depth + 1) == None
    ensures items != [] && depth == 32 ==> RefusalInItems(items, depth + 1) == Some(ResourceLimit)
  {
  }

  lemma {:induction false} ObjectUnfolds(fields: seq<Field>, depth: nat)
    requires depth <= 32
    ensures Refusal(Obj(fields), depth) == RefusalInFields(fields, depth + 1)
    ensures Height(Obj(fields)) == if fields == [] then 0 else 1 + HighestField(fields)
    ensures NumbersFine(Obj(fields)) <==> forall i :: 0 <= i < |fields| ==> NumbersFine(fields[i].value)
    ensures Finite(Obj(fields)) <==> forall i :: 0 <= i < |fields| ==> Finite(fields[i].value)
    ensures fields == [] ==> RefusalInFields(fields, depth + 1) == None
    ensures fields != [] && depth == 32 ==> RefusalInFields(fields, depth + 1) == Some(ResourceLimit)
  {
  }

  lemma {:induction false} ItemsRefused(items: seq<Value>, depth: nat)
    requires depth <= 32
    ensures RefusedFor(RefusalInItems(items, depth), depth + HighestItem(items),
                       forall i :: 0 <= i < |items| ==> NumbersFine(items[i]),
                       forall i :: 0 <= i < |items| ==> Finite(items[i]))
    decreases items, 1
  {
    hide Refusal, Height, NumbersFine, Finite;
    if items != [] {
      assert forall i :: 0 < i < |items| ==> items[i] == items[1..][i - 1];
      assert forall i :: 0 <= i < |items[1..]| ==> items[1..][i] == items[i + 1];
      RefusedExactly(items[0], depth);
      ItemsRefused(items[1..], depth);
    }
  }

  lemma {:induction false} FieldsRefused(fields: seq<Field>, depth: nat)
    requires depth <= 32
    ensures RefusedFor(RefusalInFields(fields, depth), depth + HighestField(fields),
                       forall i :: 0 <= i < |fields| ==> NumbersFine(fields[i].value),
                       forall i :: 0 <= i < |fields| ==> Finite(fields[i].value))
    decreases fields, 1
  {
    hide Refusal, Height, NumbersFine, Finite;
    if fields != [] {
      assert forall i :: 0 < i < |fields| ==> fields[i] == fields[1..][i - 1];
      assert forall i :: 0 <= i < |fields[1..]| ==> fields[1..][i] == fields[i + 1];
      assert fields[0].value < fields[0];
      RefusedExactly(fields[0].value, depth);
      FieldsRefused(fields[1..], depth);
    }
  }

  // ----- documents -----

  lemma {:induction false} ItemsWithin(items: seq<Value>, h: nat)
    ensures HighestItem(items) <= h <==> forall i :: 0 <= i < |items| ==> Height(items[i]) <= h
  {
    hide Height;
    if items != [] {
      ItemsWithin(items[1..], h);
      assert forall i :: 0 < i < |items| ==> items[i] == items[1..][i - 1];
    }
  }

  lemma {:induction false} FieldsWithin(fields: seq<Field>, h: nat)
    ensures HighestField(fields) <= h <==> forall i :: 0 <= i < |fields| ==> Height(fields[i].value) <= h
  {
    hide Height;
    if fields != [] {
      FieldsWithin(fields[1..], h);
      assert forall i :: 0 < i < |fields| ==> fields[i] == fields[1..][i - 1];
    }
  }

  /** Sorting keys keeps height, numbers and what is not finite. */
  lemma {:induction false} SortingKeeps(v: Value)
    ensures Height(SortKeys(v)) == Height(v)
    ensures NumbersFine(SortKeys(v)) <==> NumbersFine(v)
    ensures Finite(SortKeys(v)) <==> Finite(v)
    decreases v
  {
    match v
    case Arr(items) =>
      hide Height, NumbersFine, Finite, HighestItem;
      forall i | 0 <= i < |items|
        ensures Height(SortKeys(items[i])) == Height(items[i])
        ensures NumbersFine(SortKeys(items[i])) <==> NumbersFine(items[i])
        ensures Finite(SortKeys(items[i])) <==> Finite(items[i])
      {
        SortingKeeps(items[i]);
      }
      var sorted := SortItems(items);
      ArrayUnfolds(items, 0);
      ArrayUnfolds(sorted, 0);
      ItemsWithin(items, HighestItem(sorted));
      ItemsWithin(items, HighestItem(items));
      ItemsWithin(sorted, HighestItem(sorted));
      ItemsWithin(sorted, HighestItem(items));
    case Obj(fields) =>
      forall i | 0 <= i < |fields|
        ensures Height(SortKeys(fields[i].value)) == Height(fields[i].value)
        ensures NumbersFine(SortKeys(fields[i].value)) <==> NumbersFine(fields[i].value)
        ensures Finite(SortKeys(fields[i].value)) <==> Finite(fields[i].value)
      {
        assert fields[i].value < fields[i];
        SortingKeeps(fields[i].value);
      }
      SortingKeepsFields(fields);
    case _ =>
  }

  lemma {:induction false} SortingKeepsFields(fields: seq<Field>)
    requires forall i :: 0 <= i < |fields| ==>
      && Height(SortKeys(fields[i].value)) == Height(fields[i].value)
      && (NumbersFine(SortKeys(fields[i].value)) <==> NumbersFine(fields[i].value))
      && (Finite(SortKeys(fields[i].value)) <==> Finite(fields[i].value))
    ensures Height(SortKeys(Obj(fields))) == Height(Obj(fields))
    ensures NumbersFine(SortKeys(Obj(fields))) <==> NumbersFine(Obj(fields))
    ensures Finite(SortKeys(Obj(fields))) <==> Finite(Obj(fields))
  {
    hide Height, NumbersFine, Finite, HighestField, SortKeys, Sort, FieldLt, SortFieldValues, SameValues,
         RefusalInFields;
    var sorted := Sort(SortFieldValues(fields), FieldLt);
    SortedObject(fields);
    SortedValues(fields);
    ObjectUnfolds(fields, 0);
    ObjectUnfolds(sorted, 0);
    NothingToSort(fields, sorted);
    SameHeights(fields, sorted);
    SameNumbers(fields, sorted);
    SameFinite(fields, sorted);
  }

  lemma SameNumbers(fields: seq<Field>, sorted: seq<Field>)
    requires SameValues(fields, sorted)
    requires forall i :: 0 <= i < |fields| ==>
      (NumbersFine(SortKeys(fields[i].value)) <==> NumbersFine(fields[i].value))
    ensures (forall i :: 0 <= i < |sorted| ==> NumbersFine(sorted[i].value)) <==>
      forall i :: 0 <= i < |fields| ==> NumbersFine(fields[i].value)
  {
    hide NumbersFine, SortKeys;
    if forall i :: 0 <= i < |sorted| ==> NumbersFine(sorted[i].value) {
      forall k | 0 <= k < |fields| ensures NumbersFine(fields[k].value) {
        assert HasValue(sorted, SortKeys(fields[k].value));
      }
    }
  }

  lemma SameFinite(fields: seq<Field>, sorted: seq<Field>)
    requires SameValues(fields, sorted)
    requires forall i :: 0 <= i < |fields| ==> (Finite(SortKeys(fields[i].value)) <==> Finite(fields[i].value))
    ensures (forall i :: 0 <= i < |sorted| ==> Finite(sorted[i].value)) <==>
      forall i :: 0 <= i < |fields| ==> Finite(fields[i].value)
  {
    hide Finite, SortKeys;
    if forall i :: 0 <= i < |sorted| ==> Finite(sorted[i].value) {
      forall k | 0 <= k < |fields| ensures Finite(fields[k].value) {
        assert HasValue(sorted, SortKeys(fields[k].value));
      }
    }
  }

  lemma NothingToSort(fields: seq<Field>, sorted: seq<Field>)
    requires SameValues(fields, sorted)
    ensures sorted == [] <==> fields == []
  {
    hide ComesOf, HasValue;
  }

  lemma {:induction false} SortedObject(fields: seq<Field>)
    ensures SortKeys(Obj(fields)) == Obj(Sort(SortFieldValues(fields), FieldLt))
  {
  }

  predicate HasValue(fields: seq<Field>, v: Value) {
    exists k :: 0 <= k < |fields| && fields[k].value == v
  }

  predicate ComesOf(fields: seq<Field>, v: Value) {
    exists k :: 0 <= k < |fields| && SortKeys(fields[k].value) == v
  }

  /** `sorted` has the values of `fields`, each with sorted keys. */
  predicate SameValues(fields: seq<Field>, sorted: seq<Field>) {
    && |sorted| == |fields|
    && (forall i :: 0 <= i < |sorted| ==> ComesOf(fields, sorted[i].value))
    && (forall k :: 0 <= k < |fields| ==> HasValue(sorted, SortKeys(fields[k].value)))
  }

  lemma {:induction false} SortedValues(fields: seq<Field>)
    ensures SameValues(fields, Sort(SortFieldValues(fields), FieldLt))
  {
    hide SortKeys, Sort, FieldLt, SortFieldValues;
    var prepared := SortFieldValues(fields);
    var sorted := Sort(prepared, FieldLt);
    SortMembers(prepared, FieldLt);
    forall i | 0 <= i < |sorted| ensures ComesOf(fields, sorted[i].value) {
      assert sorted[i] in prepared;
      var k :| 0 <= k < |prepared| && prepared[k] == sorted[i];
      assert sorted[i].value == SortKeys(fields[k].value);
    }
    forall k | 0 <= k < |fields| ensures HasValue(sorted, SortKeys(fields[k].value)) {
      assert prepared[k] in sorted;
      var i :| 0 <= i < |sorted| && sorted[i] == prepared[k];
      assert sorted[i].value == SortKeys(fields[k].value);
    }
  }

  lemma {:induction false} SameHeights(fields: seq<Field>, sorted: seq<Field>)
    requires SameValues(fields, sorted)
    requires forall i :: 0 <= i < |fields| ==> Height(SortKeys(fields[i].value)) == Height(fields[i].value)
    ensures HighestField(sorted) == HighestField(fields)
  {
    hide Height, HighestField, SortKeys;
    var h := HighestField(sorted);
    FieldsWithin(sorted, h);
    forall k | 0 <= k < |fields| ensures Height(fields[k].value) <= h {
      assert HasValue(sorted, SortKeys(fields[k].value));
    }
    FieldsWithin(fields, h);
    FieldsWithin(fields, HighestField(fields));
    FieldsWithin(sorted, HighestField(fields));
  }

  /** When a document is printed: nested at most 32 deep, its numbers within their limits and
      finite, and at most 8 MiB long. What it raises otherwise. */
  lemma {:induction false} DumpedExactly(v: Value)
    ensures Dumped(v).Ok? <==>
      && Height(v) <= 32 && NumbersFine(v) && Finite(v)
      && Utf8Length(Print(SortKeys(v))) <= 8_388_608
    ensures Dumped(v).Ok? ==> Dumped(v).value == Print(SortKeys(v))
    ensures Dumped(v).Err? && Finite(v) ==> Dumped(v).error == ResourceLimit
    ensures Dumped(v).Err? && Height(v) <= 32 && NumbersFine(v) && !Finite(v) ==> Dumped(v).error == ValidationFault
  {
    hide Height, NumbersFine, Finite, SortKeys, Print, Utf8Length, Refusal;
    SortingKeeps(v);
    RefusedExactly(SortKeys(v), 0);
  }

  lemma {:induction false} DepthExactly(v: Value, depth: nat)
    requires depth <= 32
    ensures DepthOk(v, depth) <==> depth + Height(v) <= 32
    decreases v
  {
    hide Height, DepthOk;
    match v
    case Arr(items) =>
      if depth < 32 {
        forall i | 0 <= i < |items| ensures DepthOk(items[i], depth + 1) <==> depth + 1 + Height(items[i]) <= 32 {
          DepthExactly(items[i], depth + 1);
        }
      }
      ArrayDepth(items, depth);
    case Obj(fields) =>
      if depth < 32 {
        forall i | 0 <= i < |fields|
          ensures DepthOk(fields[i].value, depth + 1) <==> depth + 1 + Height(fields[i].value) <= 32
        {
          assert fields[i].value < fields[i];
          DepthExactly(fields[i].value, depth + 1);
        }
      }
      ObjectDepth(fields, depth);
    case _ => LeafDepth(v, depth);
  }

  lemma {:induction false} LeafDepth(v: Value, depth: nat)
    requires depth <= 32 && !v.Arr? && !v.Obj?
    ensures DepthOk(v, depth) && Height(v) == 0
  {
  }

  lemma {:induction false} ArrayDepth(items: seq<Value>, depth: nat)
    requires depth <= 32
    requires depth < 32 ==> forall i :: 0 <= i < |items| ==>
      (DepthOk(items[i], depth + 1) <==> depth + 1 + Height(items[i]) <= 32)
    ensures DepthOk(Arr(items), depth) <==> depth + Height(Arr(items)) <= 32
  {
    hide Height, HighestItem;
    ArrayUnfolds(items, 0);
    if depth < 32 {
      ItemsWithin(items, 32 - depth - 1);
    } else if items != [] {
      assert !DepthOk(items[0], depth + 1);
    }
  }

  lemma {:induction false} ObjectDepth(fields: seq<Field>, depth: nat)
    requires depth <= 32
    requires depth < 32 ==> forall i :: 0 <= i < |fields| ==>
      (DepthOk(fields[i].value, depth + 1) <==> depth + 1 + Height(fields[i].value) <= 32)
    ensures DepthOk(Obj(fields), depth) <==> depth + Height(Obj(fields)) <= 32
  {
    hide Height, HighestField;
    ObjectUnfolds(fields, 0);
    if depth < 32 {
      FieldsWithin(fields, 32 - depth - 1);
    } else if fields != [] {
      assert !DepthOk(fields[0].value, depth + 1);
    }
  }

  /** Integers of at most 4096 digits. */
  predicate DigitsFine(v: Value) {
    match v
    case Int(i) => i < Pow(10, 4096) && -i < Pow(10, 4096)
    case Arr(items) => forall i :: 0 <= i < |items| ==> DigitsFine(items[i])
    case Obj(fields) => forall i :: 0 <= i < |fields| ==> DigitsFine(fields[i].value)
    case _ => true
  }

  lemma DigitsOfInteger(i: int)
    ensures DigitCount(Abs(i)) <= 4096 <==> i < Pow(10, 4096) && -i < Pow(10, 4096)
  {
    hide Pow;
    DigitCountBounds(Abs(i));
    if DigitCount(Abs(i)) <= 4096 {
      PowMonotone(10, DigitCount(Abs(i)), 4096);
    } else {
      PowMonotone(10, 4096, DigitCount(Abs(i)) - 1);
    }
  }

  lemma {:induction false} ReadableNumbers(v: Value)
    ensures NumbersReadable(v) <==> DigitsFine(v) && NumbersFine(v)
    decreases v
  {
    match v
    case Int(i) =>
      hide Pow, IntegerWithinLimits;
      DigitsOfInteger(i);
    case Arr(items) =>
      hide Pow;
      forall i | 0 <= i < |items| ensures NumbersReadable(items[i]) <==> DigitsFine(items[i]) && NumbersFine(items[i]) {
        ReadableNumbers(items[i]);
      }
    case Obj(fields) =>
      hide Pow;
      forall i | 0 <= i < |fields|
        ensures NumbersReadable(fields[i].value) <==> DigitsFine(fields[i].value) && NumbersFine(fields[i].value)
      {
        assert fields[i].value < fields[i];
        ReadableNumbers(fields[i].value);
      }
    case _ => hide Pow, DecimalWithinLimits;
  }

  /** When a text is loaded: it is at most 8 MiB long and spells a value without a repeated
      key, nested at most 32 deep, its integers of at most 4096 digits and its decimals
      within their limits. */
  lemma {:induction false} LoadedExactly(text: string)
    ensures Loaded(text).Ok? <==>
      && Utf8Length(text) <= 8_388_608 && ReadDocument(text).Some?
      && var v := ReadDocument(text).value;
         UniqueKeys(v) && Height(v) <= 32 && DigitsFine(v) && NumbersFine(v)
    ensures Loaded(text).Ok? ==> Loaded(text).value == ReadDocument(text).value
  {
    hide Utf8Length, ReadDocument, UniqueKeys, Height, DigitsFine, NumbersFine, NumbersReadable, DepthOk;
    if ReadDocument(text).Some? {
      DepthExactly(ReadDocument(text).value, 0);
      ReadableNumbers(ReadDocument(text).value);
    }
  }
}
