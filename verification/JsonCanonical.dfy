/**
 The printer is canonical: the text of a value does not depend on the order of keys,
 determines the value, and is what printing the value read back gives again.
 */
module JsonCanonical {
  import opened Wrappers
  import opened Ordering
  import opened Digits
  import opened Json
  import opened JsonReader
  import opened JsonRoundTrip

  // ----- equality of values, defined without the printer -----

  predicate IsNumber(v: Value) {
    v.Int? || v.Dec?
  }

  /** 10^e as a real number. */
  function PowerOfTen(e: int): real {
    if e >= 0 then Pow(10, e) as real
    else
      PowPositive(10, -e);
      1.0 / (Pow(10, -e) as real)
  }

  function NumberValue(v: Value): real
    requires IsNumber(v)
  {
    match v
    case Int(i) => i as real
    case Dec(d) =>
      var magnitude := (d.coefficient as real) * PowerOfTen(d.exponent);
      if d.negative then 0.0 - magnitude else magnitude
  }

  /** Equal up to the order of object keys; unless `exact`, numbers need only have the
      same numeric value. */
  ghost predicate Same(v: Value, w: Value, exact: bool)
    decreases v
  {
    if IsNumber(v) && IsNumber(w) then
      if exact then v == w else NumberValue(v) == NumberValue(w)
    else match (v, w)
      case (Arr(items), Arr(others)) =>
        && |items| == |others|
        && forall i :: 0 <= i < |items| ==> Same(items[i], others[i], exact)
      case (Obj(fields), Obj(others)) =>
        && (forall f :: f in fields ==>
              HasKey(others, f.key) && Same(f.value, Lookup(others, f.key).value, exact))
        && (forall g :: g in others ==> HasKey(fields, g.key))
      case _ => v == w
  }

  // ----- sorted fields -----

  lemma FieldOrder()
    ensures StrictWeak(FieldLt)
  {
    TextOrder();
  }

  lemma {:induction false} SortedFieldsKeepKeys(fields: seq<Field>)
    requires UniqueFields(fields)
    ensures StrictlySorted(Sort(SortFieldValues(fields), FieldLt), FieldLt)
    ensures UniqueFields(Sort(SortFieldValues(fields), FieldLt))
    ensures forall f :: f in Sort(SortFieldValues(fields), FieldLt) <==> f in SortFieldValues(fields)
  {
    var prepared := SortFieldValues(fields);
    FieldOrder();
    forall i, j | 0 <= i < j < |prepared|
      ensures FieldLt(prepared[i], prepared[j]) || FieldLt(prepared[j], prepared[i])
    {
      TextTotal(prepared[i].key, prepared[j].key);
    }
    SortStrict(prepared, FieldLt);
    SortMembers(prepared, FieldLt);
    forall i, j | 0 <= i < j < |prepared|
      ensures Sort(prepared, FieldLt)[i].key != Sort(prepared, FieldLt)[j].key
    {
      TextIrreflexive(Sort(prepared, FieldLt)[i].key);
    }
  }

  /** Where a field of an object went, and where a field of the sorted object came from. */
  lemma {:induction false} SortedFieldOrigin(fields: seq<Field>, f: Field)
    requires UniqueFields(fields)
    ensures f in fields ==> Field(f.key, SortKeys(f.value)) in Sort(SortFieldValues(fields), FieldLt)
    ensures f in Sort(SortFieldValues(fields), FieldLt) ==>
              HasKey(fields, f.key) && f.value == SortKeys(Lookup(fields, f.key).value)
  {
    var prepared := SortFieldValues(fields);
    SortMembers(prepared, FieldLt);
    if f in fields {
      var i :| 0 <= i < |fields| && fields[i] == f;
      assert prepared[i] == Field(f.key, SortKeys(f.value));
    }
    if f in Sort(prepared, FieldLt) {
      assert f in prepared;
      var i :| 0 <= i < |prepared| && prepared[i] == f;
      LookupUnique(fields, fields[i]);
    }
  }

  // ----- key order does not matter -----

  lemma {:induction false} SameSortsEqual(v: Value, w: Value)
    requires UniqueKeys(v) && UniqueKeys(w) && Same(v, w, true)
    ensures SortKeys(v) == SortKeys(w)
    decreases v
  {
    match (v, w)
    case (Arr(items), Arr(others)) =>
      forall i | 0 <= i < |items| ensures SortKeys(items[i]) == SortKeys(others[i]) {
        SameSortsEqual(items[i], others[i]);
      }
      assert SortItems(items) == SortItems(others);
    case (Obj(fields), Obj(others)) =>
      var a := Sort(SortFieldValues(fields), FieldLt);
      var b := Sort(SortFieldValues(others), FieldLt);
      SortedFieldsKeepKeys(fields);
      SortedFieldsKeepKeys(others);
      forall f | f in a || f in b ensures f in a && f in b {
        SameSortedField(fields, others, f);
      }
      FieldOrder();
      StrictUnique(a, b, FieldLt);
    case _ =>
  }

  lemma {:induction false} SameSortedField(fields: seq<Field>, others: seq<Field>, f: Field)
    requires UniqueKeys(Obj(fields)) && UniqueKeys(Obj(others)) && Same(Obj(fields), Obj(others), true)
    requires f in Sort(SortFieldValues(fields), FieldLt) || f in Sort(SortFieldValues(others), FieldLt)
    ensures f in Sort(SortFieldValues(fields), FieldLt) && f in Sort(SortFieldValues(others), FieldLt)
    decreases fields
  {
    SortedFieldOrigin(fields, f);
    SortedFieldOrigin(others, f);
    assert HasKey(fields, f.key) by {
      if f !in Sort(SortFieldValues(fields), FieldLt) {
        assert Field(f.key, Lookup(others, f.key).value) in others;
      }
    }
    var x := Field(f.key, Lookup(fields, f.key).value);
    assert x in fields;
    var y := Field(f.key, Lookup(others, f.key).value);
    assert y in others;
    SameSortsEqual(x.value, y.value);
    SortedFieldOrigin(fields, x);
    SortedFieldOrigin(others, y);
  }

  /** Objects that differ only in the order of their keys have the same text, or are
      refused for the same reason. */
  lemma {:induction false} KeyOrderDoesNotMatter(v: Value, w: Value, depth: nat)
    requires UniqueKeys(v) && UniqueKeys(w) && Same(v, w, true)
    ensures Encoded(v, depth) == Encoded(w, depth)
  {
    SameSortsEqual(v, w);
  }

  // ----- the text determines the value -----

  lemma {:induction false} AcceptedIsFinite(v: Value, depth: nat)
    requires Refusal(v, depth).None?
    ensures Finite(v)
    decreases v
  {
    match v
    case Arr(items) =>
      forall i | 0 <= i < |items| ensures Finite(items[i]) { AcceptedIsFinite(items[i], depth + 1); }
    case Obj(fields) =>
      forall i | 0 <= i < |fields| ensures Finite(fields[i].value) { AcceptedIsFinite(fields[i].value, depth + 1); }
    case _ =>
  }

  lemma {:induction false} ReadsWhole(v: Value)
    requires Finite(v)
    ensures ReadDocument(Print(v)) == Some(ReadBack(v))
  {
    assert Print(v) + "" == Print(v);
    ReadsValue(v, "");
  }

  lemma {:induction false} ReadBackNumber(v: Value)
    requires IsNumber(v)
    ensures IsNumber(ReadBack(v)) && NumberValue(ReadBack(v)) == NumberValue(v)
  {
    if v.Dec? && v.d.exponent >= 0 {
      var c, p := v.d.coefficient, Pow(10, v.d.exponent);
      assert (c * p) as real == (c as real) * (p as real);
    }
  }

  lemma {:induction false} SameReadBack(v: Value, w: Value)
    requires UniqueKeys(v) && UniqueKeys(w)
    requires ReadBack(SortKeys(v)) == ReadBack(SortKeys(w))
    ensures Same(v, w, false)
    decreases v, 1
  {
    if IsNumber(v) {
      ReadBackNumber(v);
      assert IsNumber(w);
      ReadBackNumber(w);
    } else if v.Arr? {
      SameReadBackItems(v, w);
    } else if v.Obj? {
      SameReadBackFields(v, w);
    }
  }

  lemma {:induction false} SameReadBackItems(v: Value, w: Value)
    requires v.Arr? && UniqueKeys(v) && UniqueKeys(w)
    requires ReadBack(SortKeys(v)) == ReadBack(SortKeys(w))
    ensures Same(v, w, false)
    decreases v, 0
  {
    assert w.Arr?;
    var a, b := SortItems(v.items), SortItems(w.items);
    assert ReadBackItems(a) == ReadBackItems(b);
    forall i | 0 <= i < |v.items| ensures Same(v.items[i], w.items[i], false) {
      assert ReadBackItems(a)[i] == ReadBackItems(b)[i];
      SameReadBack(v.items[i], w.items[i]);
    }
  }

  lemma {:induction false} SameReadBackFields(v: Value, w: Value)
    requires v.Obj? && UniqueKeys(v) && UniqueKeys(w)
    requires ReadBack(SortKeys(v)) == ReadBack(SortKeys(w))
    ensures Same(v, w, false)
    decreases v, 0
  {
    assert w.Obj?;
    forall f | f in v.fields
      ensures HasKey(w.fields, f.key) && Same(f.value, Lookup(w.fields, f.key).value, false)
    {
      ReadBackField(v.fields, w.fields, f);
      SameReadBack(f.value, Lookup(w.fields, f.key).value);
    }
    forall g | g in w.fields ensures HasKey(v.fields, g.key) {
      ReadBackField(w.fields, v.fields, g);
    }
  }

  lemma {:induction false} ReadBackField(fields: seq<Field>, others: seq<Field>, f: Field)
    requires UniqueKeys(Obj(fields)) && UniqueKeys(Obj(others)) && f in fields
    requires ReadBack(SortKeys(Obj(fields))) == ReadBack(SortKeys(Obj(others)))
    ensures HasKey(others, f.key)
    ensures UniqueKeys(f.value) && UniqueKeys(Lookup(others, f.key).value)
    ensures ReadBack(SortKeys(f.value)) == ReadBack(SortKeys(Lookup(others, f.key).value))
  {
    hide Sort, Lookup, UniqueFields, UniqueKeys, ReadBack, SortKeys, SortFieldValues, ReadBackFields;
    ChildKeys(fields, f);
    SortedFieldOrigin(fields, f);
    var a := Sort(SortFieldValues(fields), FieldLt);
    var i :| 0 <= i < |a| && a[i] == Field(f.key, SortKeys(f.value));
    var g := SortedSidesAgree(fields, others, i);
    ChildKeys(others, Field(g.key, Lookup(others, g.key).value));
  }

  lemma {:induction false} ChildKeys(fields: seq<Field>, f: Field)
    requires UniqueKeys(Obj(fields)) && f in fields
    ensures UniqueFields(fields) && UniqueKeys(f.value)
  {
    hide UniqueFields;
  }

  /** The field of the other side that the i-th sorted field is read back as. */
  lemma {:induction false} SortedSidesAgree(fields: seq<Field>, others: seq<Field>, i: nat) returns (g: Field)
    requires UniqueKeys(Obj(others)) && i < |fields|
    requires ReadBack(SortKeys(Obj(fields))) == ReadBack(SortKeys(Obj(others)))
    ensures g.key == Sort(SortFieldValues(fields), FieldLt)[i].key && HasKey(others, g.key)
    ensures g.value == SortKeys(Lookup(others, g.key).value)
    ensures ReadBack(g.value) == ReadBack(Sort(SortFieldValues(fields), FieldLt)[i].value)
  {
    hide Sort, Lookup, UniqueFields;
    var a, b := Sort(SortFieldValues(fields), FieldLt), Sort(SortFieldValues(others), FieldLt);
    assert ReadBackFields(a) == ReadBackFields(b);
    assert ReadBackFields(a)[i] == ReadBackFields(b)[i];
    g := b[i];
    SortedFieldOrigin(others, g);
  }

  /** Equal texts come from equal values, up to key order and the notation of numbers. */
  lemma {:induction false} TextDeterminesValue(v: Value, w: Value, depth: nat)
    requires UniqueKeys(v) && UniqueKeys(w)
    requires Encoded(v, depth).Ok? && Encoded(v, depth) == Encoded(w, depth)
    ensures Same(v, w, false)
  {
    AcceptedIsFinite(SortKeys(v), depth);
    AcceptedIsFinite(SortKeys(w), depth);
    ReadsWhole(SortKeys(v));
    ReadsWhole(SortKeys(w));
    SameReadBack(v, w);
  }

  // ----- printing what was read -----

  lemma {:induction false} ReadBackPrintsSame(v: Value)
    requires Finite(v)
    ensures Print(ReadBack(v)) == Print(v)
    decreases v
  {
    match v
    case Dec(d) =>
      if d.exponent >= 0 {
        IntegralDecimalText(d);
      } else if d == Decimal(true, 0, -1) {
        SignedZeroText(d);
      }
    case Arr(items) =>
      forall i | 0 <= i < |items| ensures Print(ReadBack(items[i])) == Print(items[i]) {
        ReadBackPrintsSame(items[i]);
      }
      assert PrintItems(ReadBackItems(items)) == PrintItems(items);
    case Obj(fields) =>
      forall i | 0 <= i < |fields| ensures Print(ReadBack(fields[i].value)) == Print(fields[i].value) {
        ReadBackPrintsSame(fields[i].value);
      }
      assert PrintFields(ReadBackFields(fields)) == PrintFields(fields);
    case _ =>
  }

  /** The keys of every object increase: the form `sorted(value)` leaves. */
  ghost predicate KeysSorted(v: Value) {
    match v
    case Arr(items) => forall i :: 0 <= i < |items| ==> KeysSorted(items[i])
    case Obj(fields) =>
      && StrictlySorted(fields, FieldLt)
      && forall i :: 0 <= i < |fields| ==> KeysSorted(fields[i].value)
    case _ => true
  }

  lemma {:induction false} SortKeysSorts(v: Value)
    requires UniqueKeys(v)
    ensures KeysSorted(SortKeys(v)) && UniqueKeys(SortKeys(v))
    decreases v
  {
    match v
    case Arr(items) =>
      forall i | 0 <= i < |items| ensures KeysSorted(SortKeys(items[i])) && UniqueKeys(SortKeys(items[i])) {
        SortKeysSorts(items[i]);
      }
    case Obj(fields) =>
      SortedFieldsKeepKeys(fields);
      var sorted := Sort(SortFieldValues(fields), FieldLt);
      forall i | 0 <= i < |sorted| ensures KeysSorted(sorted[i].value) && UniqueKeys(sorted[i].value) {
        SortedFieldOrigin(fields, sorted[i]);
        SortKeysSorts(Lookup(fields, sorted[i].key).value);
      }
    case _ =>
  }

  lemma {:induction false} ReadBackKeepsKeys(v: Value)
    requires KeysSorted(v) && UniqueKeys(v)
    ensures KeysSorted(ReadBack(v)) && UniqueKeys(ReadBack(v))
    decreases v
  {
    match v
    case Arr(items) =>
      forall i | 0 <= i < |items| ensures KeysSorted(ReadBack(items[i])) && UniqueKeys(ReadBack(items[i])) {
        ReadBackKeepsKeys(items[i]);
      }
    case Obj(fields) =>
      forall i | 0 <= i < |fields|
        ensures KeysSorted(ReadBack(fields[i].value)) && UniqueKeys(ReadBack(fields[i].value))
      {
        ReadBackKeepsKeys(fields[i].value);
      }
    case _ =>
  }

  lemma {:induction false} SortedAlready(v: Value)
    requires KeysSorted(v) && UniqueKeys(v)
    ensures SortKeys(v) == v
    decreases v
  {
    match v
    case Arr(items) =>
      forall i | 0 <= i < |items| ensures SortKeys(items[i]) == items[i] { SortedAlready(items[i]); }
      assert SortItems(items) == items;
    case Obj(fields) =>
      forall i | 0 <= i < |fields| ensures SortKeys(fields[i].value) == fields[i].value {
        SortedAlready(fields[i].value);
      }
      assert SortFieldValues(fields) == fields;
      SortedFieldsKeepKeys(fields);
      FieldOrder();
      StrictUnique(Sort(fields, FieldLt), fields, FieldLt);
    case _ =>
  }

  /** Every integral number is written with at most 4096 digits. */
  predicate IntegralNumbersShort(v: Value) {
    match v
    case Int(i) => DigitCount(Abs(i)) <= MAX_DECIMAL_DIGITS
    case Dec(d) => d.exponent >= 0 ==> DigitCount(Abs(Scaled(d))) <= MAX_DECIMAL_DIGITS
    case Arr(items) => ShortItems(items)
    case Obj(fields) => ShortFields(fields)
    case _ => true
  }

  predicate ShortItems(items: seq<Value>) {
    forall i :: 0 <= i < |items| ==> IntegralNumbersShort(items[i])
  }

  predicate ShortFields(fields: seq<Field>) {
    forall i :: 0 <= i < |fields| ==> IntegralNumbersShort(fields[i].value)
  }

  lemma {:induction false} BitLengthBound(n: nat, k: nat)
    requires n < Pow(2, k)
    ensures BitLength(n) <= k
  {
    if n > 0 && k > 0 {
      assert Pow(2, k) == 2 * Pow(2, k - 1);
      BitLengthBound(n / 2, k - 1);
    }
  }

  /** 10^25 and 10^59 lie just below powers of two. */
  lemma PowersCompared()
    ensures Pow(10, 25) <= Pow(2, 84)
    ensures Pow(10, 59) <= Pow(2, 196)
  {
    assert Pow(10, 5) == 100000;
    PowAdd(10, 5, 5);
    assert Pow(10, 10) == 10000000000;
    PowAdd(10, 10, 10);
    assert Pow(10, 20) == 100000000000000000000;
    PowAdd(10, 20, 5);
    assert Pow(10, 25) == 10000000000000000000000000;
    PowAdd(10, 20, 20);
    assert Pow(10, 40) == 10000000000000000000000000000000000000000;
    assert Pow(10, 4) == 10000;
    PowAdd(10, 5, 4);
    assert Pow(10, 9) == 1000000000;
    PowAdd(10, 10, 9);
    assert Pow(10, 19) == 10000000000000000000;
    PowAdd(10, 40, 19);
    assert Pow(10, 59) == 100000000000000000000000000000000000000000000000000000000000;
    assert Pow(2, 4) == 16;
    PowAdd(2, 4, 4);
    assert Pow(2, 8) == 256;
    PowAdd(2, 8, 8);
    assert Pow(2, 16) == 65536;
    PowAdd(2, 16, 4);
    assert Pow(2, 20) == 1048576;
    PowAdd(2, 16, 16);
    assert Pow(2, 32) == 4294967296;
    PowAdd(2, 32, 32);
    assert Pow(2, 64) == 18446744073709551616;
    PowAdd(2, 64, 20);
    assert Pow(2, 84) == 19342813113834066795298816;
    PowAdd(2, 64, 64);
    assert Pow(2, 128) == 340282366920938463463374607431768211456;
    PowAdd(2, 64, 4);
    assert Pow(2, 68) == 295147905179352825856;
    PowAdd(2, 128, 68);
    assert Pow(2, 196) == 100433627766186892221372630771322662657637687111424552206336;
  }

  lemma {:induction false} TenPowersBelowTwoPowers(k: nat)
    ensures Pow(10, 59 * k) <= Pow(2, 196 * k)
  {
    hide Pow;
    PowZero(10);
    PowZero(2);
    if k > 0 {
      TenPowersBelowTwoPowers(k - 1);
      PowersCompared();
      NextPower(k);
    }
  }

  lemma {:induction false} NextPower(k: nat)
    requires k > 0 && Pow(10, 59 * (k - 1)) <= Pow(2, 196 * (k - 1)) && Pow(10, 59) <= Pow(2, 196)
    ensures Pow(10, 59 * k) <= Pow(2, 196 * k)
  {
    hide Pow;
    PowAdd(10, 59, 59 * (k - 1));
    PowAdd(2, 196, 196 * (k - 1));
    ProductMonotone(Pow(10, 59), Pow(2, 196), Pow(10, 59 * (k - 1)), Pow(2, 196 * (k - 1)));
  }

  lemma ProductMonotone(a: nat, b: nat, c: nat, d: nat)
    requires a <= b && c <= d
    ensures a * c <= b * d
  {
    assert a * c <= b * c <= b * d;
  }

  /** The bit check of `_parse_integer` never fires: 4096 digits fit in 13610 bits. */
  lemma DigitLimitImpliesBitLimit(i: int)
    requires DigitCount(Abs(i)) <= MAX_DECIMAL_DIGITS
    ensures IntegerWithinLimits(i)
  {
    DigitCountBounds(Abs(i));
    PowMonotone(10, DigitCount(Abs(i)), 4096);
    TenTo4096();
    BitLengthBound(Abs(i), 13608);
  }

  lemma TenTo4096()
    ensures Pow(10, 4096) <= Pow(2, 13608)
  {
    TenPowersBelowTwoPowers(69);
    PowAdd(10, 59 * 69, 25);
    PowAdd(2, 196 * 69, 84);
    PowersCompared();
    ProductMonotone(Pow(10, 59 * 69), Pow(2, 196 * 69), Pow(10, 25), Pow(2, 84));
  }

  /** What was read back loads, and prints again, if its integral numbers are short. */
  ghost predicate ReadsBackWell(v: Value, depth: nat) {
    && (NumbersReadable(ReadBack(v)) <==> IntegralNumbersShort(v))
    && DepthOk(ReadBack(v), depth)
    && (NumbersReadable(ReadBack(v)) ==> Refusal(ReadBack(v), depth).None?)
  }

  lemma {:induction false} ReadableExactly(v: Value, depth: nat)
    requires Refusal(v, depth).None?
    ensures ReadsBackWell(v, depth)
    decreases v
  {
    hide ReadsBackWell;
    match v
    case Arr(items) =>
      forall i | 0 <= i < |items| ensures ReadsBackWell(items[i], depth + 1) { ReadableExactly(items[i], depth + 1); }
      ReadableItems(items, depth);
    case Obj(fields) =>
      forall i | 0 <= i < |fields| ensures ReadsBackWell(fields[i].value, depth + 1) {
        ReadableExactly(fields[i].value, depth + 1);
      }
      ReadableFields(fields, depth);
    case _ => ReadableLeaf(v, depth);
  }

  lemma {:induction false} ReadableLeaf(v: Value, depth: nat)
    requires Refusal(v, depth).None? && !v.Arr? && !v.Obj?
    ensures ReadsBackWell(v, depth)
  {
    if v.Dec? && v.d.exponent >= 0 {
      if DigitCount(Abs(Scaled(v.d))) <= MAX_DECIMAL_DIGITS { DigitLimitImpliesBitLimit(Scaled(v.d)); }
    } else if v.Dec? && v.d == Decimal(true, 0, -1) {
      assert DigitCount(0) == 1;
    }
  }

  lemma {:induction false} ReadableItems(items: seq<Value>, depth: nat)
    requires depth <= MAX_JSON_DEPTH && forall i :: 0 <= i < |items| ==> ReadsBackWell(items[i], depth + 1)
    ensures ReadsBackWell(Arr(items), depth)
  {
    hide NumbersReadable, IntegralNumbersShort, DepthOk, Refusal, ReadBack;
    var back := ReadBackItems(items);
    ItemsUnfolded(items, back, depth);
    forall i | 0 <= i < |items|
      ensures NumbersReadable(back[i]) <==> IntegralNumbersShort(items[i])
      ensures DepthOk(back[i], depth + 1)
      ensures NumbersReadable(back[i]) ==> Refusal(back[i], depth + 1).None?
    {
      assert ReadsBackWell(items[i], depth + 1);
    }
  }

  lemma {:induction false} ItemsUnfolded(items: seq<Value>, back: seq<Value>, depth: nat)
    requires depth <= MAX_JSON_DEPTH
    ensures NumbersReadable(Arr(back)) <==> forall i :: 0 <= i < |back| ==> NumbersReadable(back[i])
    ensures IntegralNumbersShort(Arr(items)) <==> forall i :: 0 <= i < |items| ==> IntegralNumbersShort(items[i])
    ensures DepthOk(Arr(back), depth) <==> forall i :: 0 <= i < |back| ==> DepthOk(back[i], depth + 1)
    ensures Refusal(Arr(back), depth).None? <==> forall i :: 0 <= i < |back| ==> Refusal(back[i], depth + 1).None?
    ensures ReadBack(Arr(items)) == Arr(ReadBackItems(items))
  {
    hide DigitCount, Abs, Scaled, IntegerWithinLimits, DecimalWithinLimits, ReadBackDecimal, RefusalInItems,
         ReadBackItems;
  }

  lemma {:induction false} ReadableFields(fields: seq<Field>, depth: nat)
    requires depth <= MAX_JSON_DEPTH && forall i :: 0 <= i < |fields| ==> ReadsBackWell(fields[i].value, depth + 1)
    ensures ReadsBackWell(Obj(fields), depth)
  {
    hide NumbersReadable, IntegralNumbersShort, DepthOk, Refusal, ReadBack;
    var back := ReadBackFields(fields);
    FieldsUnfolded(fields, back, depth);
    forall i | 0 <= i < |fields|
      ensures NumbersReadable(back[i].value) <==> IntegralNumbersShort(fields[i].value)
      ensures DepthOk(back[i].value, depth + 1)
      ensures NumbersReadable(back[i].value) ==> Refusal(back[i].value, depth + 1).None?
    {
      assert ReadsBackWell(fields[i].value, depth + 1);
    }
  }

  lemma {:induction false} FieldsUnfolded(fields: seq<Field>, back: seq<Field>, depth: nat)
    requires depth <= MAX_JSON_DEPTH
    ensures NumbersReadable(Obj(back)) <==> forall i :: 0 <= i < |back| ==> NumbersReadable(back[i].value)
    ensures IntegralNumbersShort(Obj(fields)) <==>
      forall i :: 0 <= i < |fields| ==> IntegralNumbersShort(fields[i].value)
    ensures DepthOk(Obj(back), depth) <==> forall i :: 0 <= i < |back| ==> DepthOk(back[i].value, depth + 1)
    ensures Refusal(Obj(back), depth).None? <==> forall i :: 0 <= i < |back| ==> Refusal(back[i].value, depth + 1).None?
    ensures ReadBack(Obj(fields)) == Obj(ReadBackFields(fields))
  {
    hide DigitCount, Abs, Scaled, IntegerWithinLimits, DecimalWithinLimits, ReadBackDecimal, RefusalInFields,
         ReadBackFields;
  }

  lemma {:induction false} ShortAfterSorting(v: Value)
    requires UniqueKeys(v)
    ensures IntegralNumbersShort(SortKeys(v)) <==> IntegralNumbersShort(v)
    decreases v, 0
  {
    hide ShortItems, ShortFields, Sort;
    if v.Arr? {
      ShortItemsAfterSorting(v.items);
    } else if v.Obj? {
      ShortFieldsAfterSorting(v.fields);
    }
  }

  lemma {:induction false} ShortItemsAfterSorting(items: seq<Value>)
    requires UniqueKeys(Arr(items))
    ensures ShortItems(SortItems(items)) <==> ShortItems(items)
    decreases items, 1
  {
    forall i | 0 <= i < |items|
      ensures IntegralNumbersShort(SortItems(items)[i]) <==> IntegralNumbersShort(items[i])
    {
      ShortAfterSorting(items[i]);
    }
  }

  lemma {:induction false} ShortFieldsAfterSorting(fields: seq<Field>)
    requires UniqueKeys(Obj(fields))
    ensures ShortFields(Sort(SortFieldValues(fields), FieldLt)) <==> ShortFields(fields)
    decreases fields, 1
  {
    var sorted := Sort(SortFieldValues(fields), FieldLt);
    if ShortFields(fields) {
      forall k | 0 <= k < |sorted| ensures IntegralNumbersShort(sorted[k].value) {
        var i := OriginOf(fields, k);
        ShortAfterSorting(fields[i].value);
      }
    }
    if ShortFields(sorted) {
      forall i | 0 <= i < |fields| ensures IntegralNumbersShort(fields[i].value) {
        var k := PlaceOf(fields, i);
        ShortAfterSorting(fields[i].value);
      }
    }
  }

  lemma OriginOf(fields: seq<Field>, k: nat) returns (i: nat)
    requires UniqueFields(fields) && k < |fields|
    ensures i < |fields| && Sort(SortFieldValues(fields), FieldLt)[k].value == SortKeys(fields[i].value)
  {
    var f := Sort(SortFieldValues(fields), FieldLt)[k];
    SortedFieldOrigin(fields, f);
    i :| 0 <= i < |fields| && fields[i] == Field(f.key, Lookup(fields, f.key).value);
  }

  lemma PlaceOf(fields: seq<Field>, i: nat) returns (k: nat)
    requires UniqueFields(fields) && i < |fields|
    ensures k < |fields| && Sort(SortFieldValues(fields), FieldLt)[k].value == SortKeys(fields[i].value)
  {
    var sorted := Sort(SortFieldValues(fields), FieldLt);
    SortedFieldOrigin(fields, fields[i]);
    k :| 0 <= k < |sorted| && sorted[k] == Field(fields[i].key, SortKeys(fields[i].value));
  }

  /** Text that was printed can be loaded again exactly when no integral number in it
      has more than 4096 digits; what is loaded prints to the same text. */
  lemma {:induction false} RoundTrip(v: Value, text: string)
    requires UniqueKeys(v) && Dumped(v) == Ok(text)
    ensures Loaded(text).Ok? <==> IntegralNumbersShort(v)
    ensures Loaded(text).Ok? ==>
      && Loaded(text).value == ReadBack(SortKeys(v))
      && Same(v, Loaded(text).value, false)
      && Dumped(Loaded(text).value) == Ok(text)
  {
    hide ReadBack, SortKeys, Print, Refusal, ReadDocument, Same, IntegralNumbersShort, NumbersReadable, DepthOk, Finite,
         KeysSorted, UniqueKeys, Utf8Length;
    var sorted := SortKeys(v);
    var back := ReadBack(sorted);
    AcceptedIsFinite(sorted, 0);
    ReadsWhole(sorted);
    SortKeysSorts(v);
    ReadBackKeepsKeys(sorted);
    ReadableExactly(sorted, 0);
    ShortAfterSorting(v);
    SortedAlready(back);
    ReadBackPrintsSame(sorted);
    if IntegralNumbersShort(v) {
      assert Encoded(back, 0) == Ok(text);
      TextDeterminesValue(v, back, 0);
    }
  }

  lemma TenTo4096Text()
    ensures DigitCount(Pow(10, 4096)) == 4097 && BitLength(Pow(10, 4096)) <= 13609
  {
    NatTextShift(1, 4096);
    TenTo4096();
    PowPositive(2, 13608);
    PowAdd(2, 1, 13608);
    assert Pow(2, 1) == 2;
    hide Pow;
    BitLengthBound(Pow(10, 4096), 13609);
  }

  /** The reader is tighter than the printer: 10^4096 prints but does not load. */
  lemma LongIntegerDoesNotLoad()
    ensures Dumped(Int(Pow(10, 4096))).Ok?
    ensures Loaded(Dumped(Int(Pow(10, 4096))).value) == Err(ResourceLimit)
  {
    hide ReadDocument, Utf8Length, Pow, NatText, BitLength;
    var v := Int(Pow(10, 4096));
    TenTo4096Text();
    DigitsAreOneByteEach(Print(v));
    RoundTrip(v, Print(v));
    ReadsWhole(v);
  }

  lemma {:induction false} DigitsAreOneByteEach(s: string)
    requires AllDigits(s)
    ensures Utf8Length(s) == |s|
  {
    if s != [] { DigitsAreOneByteEach(s[1..]); }
  }
}
