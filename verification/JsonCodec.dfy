/**
 The two places where the codec builds its result step by step: the encoder, which
 appends to `parts`, and the object hook of the reader, which fills a dictionary.
 */
module JsonCodec {
  import opened Wrappers
  import opened Ordering
  import opened Json
  import opened JsonCanonical

  function KeysOf(fields: seq<Field>): (r: seq<string>)
    ensures |r| == |fields|
    ensures forall i :: 0 <= i < |fields| ==> r[i] == fields[i].key
  {
    if fields == [] then [] else [fields[0].key] + KeysOf(fields[1..])
  }

  lemma {:induction false} KeysOfMembers(fields: seq<Field>, key: string)
    ensures key in KeysOf(fields) <==> HasKey(fields, key)
  {
    if key in KeysOf(fields) {
      var i :| 0 <= i < |fields| && KeysOf(fields)[i] == key;
      assert fields[i].key == key;
    }
    if HasKey(fields, key) {
      var i :| 0 <= i < |fields| && fields[i].key == key;
      assert KeysOf(fields)[i] == key;
    }
  }

  lemma {:induction false} SortedHasKey(fields: seq<Field>, key: string)
    requires UniqueFields(fields)
    ensures HasKey(Sort(SortFieldValues(fields), FieldLt), key) <==> HasKey(fields, key)
  {
    var sorted := Sort(SortFieldValues(fields), FieldLt);
    if HasKey(fields, key) {
      SortedFieldOrigin(fields, Field(key, Lookup(fields, key).value));
    }
    if HasKey(sorted, key) {
      SortedFieldOrigin(fields, Field(key, Lookup(sorted, key).value));
    }
  }

  /** Sorting the keys and then looking them up visits the fields in sorted order. */
  lemma {:induction false} SortedKeysVisitFields(fields: seq<Field>)
    requires UniqueFields(fields)
    ensures Sort(KeysOf(fields), TextLt) == KeysOf(Sort(SortFieldValues(fields), FieldLt))
  {
    var sorted := Sort(SortFieldValues(fields), FieldLt);
    var keys := KeysOf(fields);
    SortedFieldsKeepKeys(fields);
    TextOrder();
    forall i, j | 0 <= i < j < |keys| ensures TextLt(keys[i], keys[j]) || TextLt(keys[j], keys[i]) {
      assert fields[i].key != fields[j].key;
    }
    SortStrict(keys, TextLt);
    SortMembers(keys, TextLt);
    KeysIncrease(sorted);
    forall key ensures key in Sort(keys, TextLt) <==> key in KeysOf(sorted) {
      KeysOfMembers(fields, key);
      KeysOfMembers(sorted, key);
      SortedHasKey(fields, key);
    }
    StrictUnique(Sort(keys, TextLt), KeysOf(sorted), TextLt);
  }

  lemma {:induction false} KeysIncrease(sorted: seq<Field>)
    requires StrictlySorted(sorted, FieldLt)
    ensures StrictlySorted(KeysOf(sorted), TextLt)
  {
    forall i, j | 0 <= i < j < |sorted| ensures TextLt(KeysOf(sorted)[i], KeysOf(sorted)[j]) {
      assert FieldLt(sorted[i], sorted[j]);
    }
  }

  lemma {:induction false} FirstRefusedItem(items: seq<Value>, depth: nat, i: nat)
    requires i < |items| && Refusal(items[i], depth).Some?
    requires forall k :: 0 <= k < i ==> Refusal(items[k], depth).None?
    ensures RefusalInItems(items, depth) == Refusal(items[i], depth)
  {
    if i > 0 {
      assert forall k :: 0 <= k < i - 1 ==> items[1..][k] == items[k + 1];
      FirstRefusedItem(items[1..], depth, i - 1);
    }
  }

  lemma {:induction false} FirstRefusedField(fields: seq<Field>, depth: nat, i: nat)
    requires i < |fields| && Refusal(fields[i].value, depth).Some?
    requires forall k :: 0 <= k < i ==> Refusal(fields[k].value, depth).None?
    ensures RefusalInFields(fields, depth) == Refusal(fields[i].value, depth)
  {
    if i > 0 {
      assert forall k :: 0 <= k < i - 1 ==> fields[1..][k] == fields[k + 1];
      FirstRefusedField(fields[1..], depth, i - 1);
    }
  }

  /** The value stored under the i-th key in sorted order. */
  lemma {:induction false} VisitedField(fields: seq<Field>, i: nat)
    requires UniqueFields(fields) && i < |fields|
    ensures var key := Sort(KeysOf(fields), TextLt)[i];
      && HasKey(fields, key)
      && Sort(SortFieldValues(fields), FieldLt)[i] == Field(key, SortKeys(Lookup(fields, key).value))
      && Field(key, Lookup(fields, key).value) in fields
  {
    SortedKeysVisitFields(fields);
    hide Sort, SortKeys;
    SortedFieldOrigin(fields, Sort(SortFieldValues(fields), FieldLt)[i]);
  }

  lemma {:induction false} ArrayEncoded(items: seq<Value>, depth: nat)
    requires depth <= MAX_JSON_DEPTH
    ensures Encoded(Arr(items), depth) ==
      match RefusalInItems(SortItems(items), depth + 1)
      case Some(e) => Err(e)
      case None => Ok("[" + Join(PrintItems(SortItems(items))) + "]")
  {
    hide RefusalInItems, SortItems, PrintItems, Join;
  }

  lemma {:induction false} ObjectEncoded(fields: seq<Field>, depth: nat)
    requires depth <= MAX_JSON_DEPTH
    ensures var sorted := Sort(SortFieldValues(fields), FieldLt);
      Encoded(Obj(fields), depth) ==
      match RefusalInFields(sorted, depth + 1)
      case Some(e) => Err(e)
      case None => Ok("{" + Join(PrintFields(sorted)) + "}")
  {
    hide RefusalInFields, Sort, PrintFields, Join;
  }

  /** `_encode`. */
  method Encode(value: Value, depth: nat) returns (r: Result<string, Fault>)
    requires UniqueKeys(value)
    ensures r == Encoded(value, depth)
    decreases value, 2
  {
    hide Sort, SortItems, Join, IntText, DecimalText, Quote;
    if depth > MAX_JSON_DEPTH { return Err(ResourceLimit); }
    match value {
      case Null => r := Ok("null");
      case Bool(b) => r := Ok(if b then "true" else "false");
      case Int(i) => r := if IntegerWithinLimits(i) then Ok(IntText(i)) else Err(ResourceLimit);
      case Dec(d) => r := if DecimalWithinLimits(d) then Ok(DecimalText(d)) else Err(ResourceLimit);
      case NonFinite => r := Err(ValidationFault);
      case Str(s) => r := Ok(Quote(s));
      case Arr(items) => r := EncodeArray(items, depth);
      case Obj(fields) => r := EncodeObject(fields, depth);
    }
  }

  method EncodeArray(items: seq<Value>, depth: nat) returns (r: Result<string, Fault>)
    requires UniqueKeys(Arr(items)) && depth <= MAX_JSON_DEPTH
    ensures r == Encoded(Arr(items), depth)
    decreases Arr(items), 1
  {
    hide SortItems, SortKeys, Refusal, RefusalInItems, Print, PrintItems, Join;
    ghost var sorted := SortItems(items);
    ArrayEncoded(items, depth);
    var parts: seq<string> := [];
    for i := 0 to |items|
      invariant |parts| == i
      invariant forall k :: 0 <= k < i ==> Refusal(sorted[k], depth + 1).None? && parts[k] == Print(sorted[k])
    {
      var text := Encode(items[i], depth + 1);
      if text.Err? {
        FirstRefusedItem(sorted, depth + 1, i);
        return text;
      }
      parts := parts + [text.value];
    }
    assert parts == PrintItems(sorted);
    r := Ok("[" + Join(parts) + "]");
  }

  lemma UniqueUnfolded(fields: seq<Field>)
    requires UniqueKeys(Obj(fields))
    ensures UniqueFields(fields)
  {
  }

  /** The child under the i-th key: smaller, unique keys, and encoded as its sorted field. */
  lemma {:induction false} VisitedChild(fields: seq<Field>, i: nat, depth: nat) returns (f: Field)
    requires UniqueKeys(Obj(fields)) && UniqueFields(fields) && i < |fields|
    ensures |Sort(KeysOf(fields), TextLt)| == |Sort(SortFieldValues(fields), FieldLt)| == |fields|
    ensures f in fields && f.key == Sort(KeysOf(fields), TextLt)[i] && Lookup(fields, f.key) == Some(f.value)
    ensures f.value < Obj(fields) && UniqueKeys(f.value)
    ensures var sorted := Sort(SortFieldValues(fields), FieldLt)[i];
      Encoded(f.value, depth) ==
      match Refusal(sorted.value, depth)
      case Some(e) => Err(e)
      case None => Ok(Print(sorted.value))
    ensures PrintField(Sort(SortFieldValues(fields), FieldLt)[i]) ==
      Quote(f.key) + ":" + Print(Sort(SortFieldValues(fields), FieldLt)[i].value)
  {
    hide Sort, SortKeys, Refusal, Print, Lookup, Quote, UniqueFields, KeysOf, SortFieldValues;
    VisitedField(fields, i);
    f := Field(Sort(KeysOf(fields), TextLt)[i], Lookup(fields, Sort(KeysOf(fields), TextLt)[i]).value);
    var k :| 0 <= k < |fields| && fields[k] == f;
    assert fields[k].value < Obj(fields);
  }

  method EncodeObject(fields: seq<Field>, depth: nat) returns (r: Result<string, Fault>)
    requires UniqueKeys(Obj(fields)) && depth <= MAX_JSON_DEPTH
    ensures r == Encoded(Obj(fields), depth)
    decreases Obj(fields), 1
  {
    hide Sort, SortKeys, Refusal, RefusalInFields, Print, PrintFields, PrintField, Join, Lookup, Quote, Encoded,
         UniqueKeys,
         SortFieldValues, KeysOf;
    UniqueUnfolded(fields);
    var keys := Sort(KeysOf(fields), TextLt);
    ghost var sorted := Sort(SortFieldValues(fields), FieldLt);
    ObjectEncoded(fields, depth);
    var parts: seq<string> := [];
    for i := 0 to |keys|
      invariant |parts| == i
      invariant forall k :: 0 <= k < i ==>
        Refusal(sorted[k].value, depth + 1).None? && parts[k] == PrintField(sorted[k])
    {
      var f := VisitedChild(fields, i, depth + 1);
      var child := Lookup(fields, keys[i]).value;
      var text := Encode(child, depth + 1);
      if text.Err? {
        FirstRefusedField(sorted, depth + 1, i);
        return text;
      }
      parts := parts + [Quote(keys[i]) + ":" + text.value];
    }
    assert parts == PrintFields(sorted);
    r := Ok("{" + Join(parts) + "}");
  }

  /** `_unique_object`: the dictionary of the pairs, or an error on a repeated key. */
  method UniqueObject(pairs: seq<Field>) returns (r: Result<map<string, Value>, Fault>)
    ensures r.Ok? <==> UniqueFields(pairs)
    ensures r.Err? ==> r.error == ValidationFault
    ensures r.Ok? ==>
      && (forall key :: key in r.value <==> HasKey(pairs, key))
      && (forall key :: key in r.value ==> Some(r.value[key]) == Lookup(pairs, key))
  {
    var result: map<string, Value> := map[];
    for i := 0 to |pairs|
      invariant forall j, k :: 0 <= j < k < i ==> pairs[j].key != pairs[k].key
      invariant forall key :: key in result <==> exists k :: 0 <= k < i && pairs[k].key == key
      invariant forall k :: 0 <= k < i ==> pairs[k].key in result && result[pairs[k].key] == pairs[k].value
    {
      if pairs[i].key in result { return Err(ValidationFault); }
      result := result[pairs[i].key := pairs[i].value];
    }
    forall key | key in result ensures Some(result[key]) == Lookup(pairs, key) {
      var k :| 0 <= k < |pairs| && pairs[k].key == key;
      LookupUnique(pairs, pairs[k]);
    }
    r := Ok(result);
  }
}
