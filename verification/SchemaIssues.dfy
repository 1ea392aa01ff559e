/**
 What the issues of the schema validator say (quant_data/schema.py), told by keyword: which
 values have a type, which are equal, and which violations there are, at which place.
 */
module SchemaIssues {
  import opened Wrappers
  import opened Json
  import opened JsonRoundTrip
  import opened JsonCanonical
  import opened Schema

  // ----- types -----

  /** By type name: booleans are no numbers, and integers are. */
  lemma TypesExactly(v: Value, t: string)
    ensures MatchesType(v, "null") <==> v.Null?
    ensures MatchesType(v, "object") <==> v.Obj?
    ensures MatchesType(v, "array") <==> v.Arr?
    ensures MatchesType(v, "string") <==> v.Str?
    ensures MatchesType(v, "integer") <==> v.Int?
    ensures MatchesType(v, "number") <==> v.Int? || v.Dec?
    ensures MatchesType(v, "boolean") <==> v.Bool?
    ensures t !in {"object", "array", "string", "integer", "number", "boolean", "null"} ==> !MatchesType(v, t)
    ensures SupportedType(t) <==> t in {"object", "array", "string", "integer", "number", "boolean", "null"}
  {
    assert |"null"| == 4 && |"object"| == 6 && |"array"| == 5 && |"integer"| == 7;
    assert "string"[0] == 's' && "number"[0] == 'n' && "object"[0] == 'o' && "integer"[0] == 'i' && "boolean"[0] == 'b';
  }

  // ----- equality -----

  /** Every True is 1 and every False is 0. */
  function Numbered(v: Value): Value {
    match v
    case Bool(b) => Int(if b then 1 else 0)
    case Arr(items) => Arr(NumberedItems(items))
    case Obj(fields) => Obj(NumberedFields(fields))
    case _ => v
  }

  function NumberedItems(items: seq<Value>): (r: seq<Value>)
    ensures |r| == |items| && forall i :: 0 <= i < |r| ==> r[i] == Numbered(items[i])
  {
    if items == [] then [] else [Numbered(items[0])] + NumberedItems(items[1..])
  }

  function NumberedFields(fields: seq<Field>): (r: seq<Field>)
    ensures |r| == |fields| && forall i :: 0 <= i < |r| ==> r[i] == Field(fields[i].key, Numbered(fields[i].value))
  {
    if fields == [] then [] else [Field(fields[0].key, Numbered(fields[0].value))] + NumberedFields(fields[1..])
  }

  /** Numbers by value. */
  lemma {:induction false} NumbersByValue(v: Value, w: Value)
    requires Numeric(v) && Numeric(w)
    ensures Equal(v, w) <==> NumberValue(Numbered(v)) == NumberValue(Numbered(w))
    ensures forall i: int :: v == Int(i) ==> Magnitude(v) == i as real
    ensures v == Bool(true) ==> Magnitude(v) == 1.0
    ensures v == Bool(false) ==> Magnitude(v) == 0.0
  {
  }

  lemma {:induction false} NumberedLookup(fields: seq<Field>, key: string)
    ensures Lookup(NumberedFields(fields), key) ==
      match Lookup(fields, key) case None => None case Some(v) => Some(Numbered(v))
  {
    hide Numbered;
    if fields != [] {
      NumberedLookup(fields[1..], key);
      assert NumberedFields(fields)[1..] == NumberedFields(fields[1..]);
    }
  }

  function Keys(fields: seq<Field>): set<string> {
    set i | 0 <= i < |fields| :: fields[i].key
  }

  lemma {:induction false} AsManyKeys(fields: seq<Field>)
    requires UniqueFields(fields)
    ensures |Keys(fields)| == |fields|
  {
    if fields != [] {
      var n := |fields| - 1;
      AsManyKeys(fields[..n]);
      assert forall i :: 0 <= i < n ==> fields[..n][i] == fields[i];
      assert Keys(fields) == Keys(fields[..n]) + {fields[n].key};
      assert fields[n].key !in Keys(fields[..n]);
    }
  }

  lemma SameKeySets(a: set<string>, b: set<string>)
    requires a <= b && |a| == |b|
    ensures a == b
  {
    assert b == a + (b - a);
    assert |b| == |a| + |b - a|;
  }

  /** Objects of one size: if one has all keys of the other, the other has all of its own. */
  lemma {:induction false} KeysBothWays(fields: seq<Field>, others: seq<Field>)
    requires UniqueFields(fields) && UniqueFields(others)
    requires forall i :: 0 <= i < |fields| ==> HasKey(others, fields[i].key)
    ensures |fields| == |others| <==> forall j :: 0 <= j < |others| ==> HasKey(fields, others[j].key)
  {
    hide Lookup, UniqueFields;
    AsManyKeys(fields);
    AsManyKeys(others);
    forall key ensures HasKey(fields, key) <==> key in Keys(fields) { KeyAmong(fields, key); }
    forall key ensures HasKey(others, key) <==> key in Keys(others) { KeyAmong(others, key); }
    hide HasKey;
    assert Keys(fields) <= Keys(others);
    if |fields| == |others| {
      SameKeySets(Keys(fields), Keys(others));
    }
    if forall j :: 0 <= j < |others| ==> HasKey(fields, others[j].key) {
      assert Keys(others) <= Keys(fields);
      assert Keys(others) == Keys(fields);
    }
  }

  lemma KeyAmong(fields: seq<Field>, key: string)
    ensures HasKey(fields, key) <==> key in Keys(fields)
  {
    if Lookup(fields, key).Some? {
      var f := Field(key, Lookup(fields, key).value);
      var i :| 0 <= i < |fields| && fields[i] == f;
    }
  }

  /** Python's `==` on JSON values: equal up to key order, numbers by value, booleans as the
      numbers they are. */
  lemma {:induction false} EqualExactly(v: Value, w: Value)
    requires UniqueKeys(v) && UniqueKeys(w) && Finite(v) && Finite(w)
    ensures Equal(v, w) <==> Same(Numbered(v), Numbered(w), false)
    decreases v
  {
    hide Equal, Same, Numbered, Lookup;
    if v.Arr? && w.Arr? {
      forall i | 0 <= i < |v.items| && i < |w.items|
        ensures Equal(v.items[i], w.items[i]) <==> Same(Numbered(v.items[i]), Numbered(w.items[i]), false)
      {
        EqualExactly(v.items[i], w.items[i]);
      }
      ArraysEqual(v.items, w.items);
    } else if v.Obj? && w.Obj? {
      forall i | 0 <= i < |v.fields| && HasKey(w.fields, v.fields[i].key)
        ensures var x := Lookup(w.fields, v.fields[i].key).value;
          Equal(v.fields[i].value, x) <==> Same(Numbered(v.fields[i].value), Numbered(x), false)
      {
        var x := Lookup(w.fields, v.fields[i].key).value;
        assert Field(v.fields[i].key, x) in w.fields;
        var j :| 0 <= j < |w.fields| && w.fields[j] == Field(v.fields[i].key, x);
        assert v.fields[i].value < v.fields[i];
        EqualExactly(v.fields[i].value, w.fields[j].value);
      }
      ObjectsEqual(v.fields, w.fields);
    } else {
      LeavesEqual(v, w);
    }
  }

  lemma {:induction false} LeavesEqual(v: Value, w: Value)
    requires !(v.Arr? && w.Arr?) && !(v.Obj? && w.Obj?) && Finite(v) && Finite(w)
    ensures Equal(v, w) <==> Same(Numbered(v), Numbered(w), false)
  {
    hide PowerOfTen, NumberedItems, NumberedFields;
  }

  lemma ArraysEqual(items: seq<Value>, others: seq<Value>)
    requires forall i :: 0 <= i < |items| && i < |others| ==>
      (Equal(items[i], others[i]) <==> Same(Numbered(items[i]), Numbered(others[i]), false))
    ensures Equal(Arr(items), Arr(others)) <==> Same(Numbered(Arr(items)), Numbered(Arr(others)), false)
  {
    hide Equal, Same;
    var a, b := NumberedItems(items), NumberedItems(others);
    EqualArrays(items, others);
    SameArrays(a, b);
    NumberedArray(items);
    NumberedArray(others);
    hide Numbered, NumberedItems;
    if forall i :: 0 <= i < |a| && i < |b| ==> Same(a[i], b[i], false) {
      forall i | 0 <= i < |items| && i < |others| ensures Equal(items[i], others[i]) { assert Same(a[i], b[i], false); }
    }
  }

  lemma EqualArrays(items: seq<Value>, others: seq<Value>)
    ensures Equal(Arr(items), Arr(others)) <==>
      |items| == |others| && forall i :: 0 <= i < |items| && i < |others| ==> Equal(items[i], others[i])
  {
  }

  lemma SameArrays(items: seq<Value>, others: seq<Value>)
    ensures Same(Arr(items), Arr(others), false) <==>
      |items| == |others| && forall i :: 0 <= i < |items| && i < |others| ==> Same(items[i], others[i], false)
  {
    hide NumberValue;
  }

  lemma {:induction false} NumberedArray(items: seq<Value>)
    ensures Numbered(Arr(items)) == Arr(NumberedItems(items))
  {
  }

  /** A field of the one object, found in the other and equal there. */
  predicate FoundEqual(f: Field, others: seq<Field>) {
    HasKey(others, f.key) && Equal(f.value, Lookup(others, f.key).value)
  }

  ghost predicate FoundSame(f: Field, others: seq<Field>) {
    HasKey(others, f.key) && Same(f.value, Lookup(others, f.key).value, false)
  }

  lemma SameObjects(a: seq<Field>, b: seq<Field>)
    ensures Same(Obj(a), Obj(b), false) <==>
      (forall i :: 0 <= i < |a| ==> FoundSame(a[i], b)) && forall j :: 0 <= j < |b| ==> HasKey(a, b[j].key)
  {
    hide NumberValue, Lookup;
    if Same(Obj(a), Obj(b), false) {
      forall i | 0 <= i < |a| ensures FoundSame(a[i], b) { assert a[i] in a; }
      forall j | 0 <= j < |b| ensures HasKey(a, b[j].key) { assert b[j] in b; }
    }
  }

  lemma EqualObjects(fields: seq<Field>, others: seq<Field>)
    ensures Equal(Obj(fields), Obj(others)) <==>
      |fields| == |others| && forall i :: 0 <= i < |fields| ==> FoundEqual(fields[i], others)
  {
    hide Lookup;
  }

  lemma {:induction false} FoundAlike(f: Field, others: seq<Field>)
    requires HasKey(others, f.key) ==>
      (Equal(f.value, Lookup(others, f.key).value) <==>
       Same(Numbered(f.value), Numbered(Lookup(others, f.key).value), false))
    ensures FoundEqual(f, others) <==> FoundSame(Field(f.key, Numbered(f.value)), NumberedFields(others))
  {
    hide Equal, Same, Lookup, Numbered, NumberedFields;
    NumberedLookup(others, f.key);
  }

  lemma {:induction false} SameKeysNumbered(fields: seq<Field>, key: string)
    ensures HasKey(NumberedFields(fields), key) <==> HasKey(fields, key)
  {
    hide Lookup, Numbered, NumberedFields;
    NumberedLookup(fields, key);
  }

  lemma {:induction false} ObjectsEqual(fields: seq<Field>, others: seq<Field>)
    requires UniqueFields(fields) && UniqueFields(others)
    requires forall i :: 0 <= i < |fields| && HasKey(others, fields[i].key) ==>
      (Equal(fields[i].value, Lookup(others, fields[i].key).value) <==>
       Same(Numbered(fields[i].value), Numbered(Lookup(others, fields[i].key).value), false))
    ensures Equal(Obj(fields), Obj(others)) <==> Same(Numbered(Obj(fields)), Numbered(Obj(others)), false)
  {
    hide Equal, Same, Lookup, UniqueFields, Numbered, FoundEqual, FoundSame, HasKey;
    var a, b := NumberedFields(fields), NumberedFields(others);
    NumberedObject(fields);
    NumberedObject(others);
    SameObjects(a, b);
    EqualObjects(fields, others);
    forall i | 0 <= i < |fields| ensures FoundEqual(fields[i], others) <==> FoundSame(a[i], b) {
      FoundAlike(fields[i], others);
    }
    forall key ensures HasKey(a, key) <==> HasKey(fields, key) { SameKeysNumbered(fields, key); }
    if forall i :: 0 <= i < |fields| ==> FoundEqual(fields[i], others) {
      forall i | 0 <= i < |fields| ensures HasKey(others, fields[i].key) { FoundHasKey(fields[i], others); }
      KeysBothWays(fields, others);
    }
  }

  lemma FoundHasKey(f: Field, others: seq<Field>)
    requires FoundEqual(f, others)
    ensures HasKey(others, f.key)
  {
  }

  lemma {:induction false} NumberedObject(fields: seq<Field>)
    ensures Numbered(Obj(fields)) == Obj(NumberedFields(fields))
  {
  }

  // ----- violations -----

  /** One type or more, each of them one of the seven. */
  predicate TypesDeclared(s: Schema) {
    && s.types.Some? && |s.types.value| > 0
    && forall t :: t in s.types.value ==>
         t in {"object", "array", "string", "integer", "number", "boolean", "null"}
  }

  lemma SupportedExactly(s: Schema)
    ensures Supported(s) <==> TypesDeclared(s)
  {
    hide SupportedType;
    forall t
      ensures SupportedType(t) <==> t in {"object", "array", "string", "integer", "number", "boolean", "null"}
    {
      TypesExactly(Null, t);
    }
    if s.types.Some? && TypesDeclared(s) {
      forall i | 0 <= i < |s.types.value| ensures SupportedType(s.types.value[i]) {
        assert s.types.value[i] in s.types.value;
      }
    }
  }

  /** The value at hand breaks a keyword of its own declaration. */
  ghost predicate Breaks(v: Value, s: Schema, isDate: string -> bool, rule: string) {
    if !TypesDeclared(s) then rule == "schema"
    else if forall t :: t in s.types.value ==> !MatchesType(v, t) then rule == "type"
    else
      || (rule == "const" && s.fixed.Some? && !Equal(v, s.fixed.value))
      || (rule == "enum" && s.choices.Some? && forall c :: c in s.choices.value ==> !Equal(v, c))
      || (v.Arr? && BreaksLength(|v.items| as real, s.minItems, s.maxItems, rule, "min_items", "max_items"))
      || (v.Str? && BreaksLength(|v.s| as real, s.minLength, s.maxLength, rule, "min_length", "max_length"))
      || (IsNumber(v) && BreaksLength(NumberValue(v), s.minimum, s.maximum, rule, "minimum", "maximum"))
      || (v.Str? && rule == "format" && s.date && !isDate(v.s))
  }

  predicate BreaksLength(x: real, least: Option<Value>, most: Option<Value>, rule: string, small: string, big: string) {
    || (rule == small && least.Some? && Numeric(least.value) && x < Magnitude(least.value))
    || (rule == big && most.Some? && Numeric(most.value) && x > Magnitude(most.value))
  }

  /** The validator looks inside: the declaration is supported and the value has its type. */
  ghost predicate Entered(v: Value, s: Schema) {
    TypesDeclared(s) && exists t :: t in s.types.value && MatchesType(v, t)
  }

  predicate Undeclared(s: Schema, name: string) {
    forall i :: 0 <= i < |s.properties| ==> s.properties[i].name != name
  }

  ghost predicate MissesOrAdds(fields: seq<Field>, s: Schema, pointer: string, issue: Issue) {
    || (exists name :: name in s.required && !HasKey(fields, name) && issue == Issue(pointer + "/" + name, "required"))
    || (s.closed && exists f :: f in fields && Undeclared(s, f.key) &&
                                issue == Issue(pointer + "/" + f.key, "additional_properties"))
  }

  /** The issue names a violation: of the value itself, of the fields it must or may have, or
      of a field or item inside. */
  ghost predicate Violates(v: Value, s: Schema, isDate: string -> bool, pointer: string, issue: Issue)
    decreases v
  {
    || (Breaks(v, s, isDate, issue.rule) && issue.pointer == (if pointer == "" then "/" else pointer))
    || (Entered(v, s) &&
        match v
        case Obj(fields) =>
          || MissesOrAdds(fields, s, pointer, issue)
          || exists i :: 0 <= i < |fields| && PropertyOf(s.properties, fields[i].key).Some? &&
                         Violates(fields[i].value, PropertyOf(s.properties, fields[i].key).value, isDate,
                                  pointer + "/" + fields[i].key, issue)
        case Arr(items) =>
          && s.items.Some?
          && (exists i :: 0 <= i < |items| &&
                          Violates(items[i], s.items.value, isDate, pointer + "/" + IndexText(i), issue))
        case _ => false)
  }

  lemma BothHas(a: Found, b: Found, issue: Issue)
    requires Both(a, b).Ok?
    ensures a.Ok? && b.Ok?
    ensures issue in Both(a, b).value <==> issue in a.value || issue in b.value
  {
  }

  lemma MatchesSomeExactly(v: Value, types: seq<string>)
    ensures MatchesSome(v, types) <==> exists t :: t in types && MatchesType(v, t)
  {
    hide MatchesType;
    if t :| t in types && MatchesType(v, t) {
      var i :| 0 <= i < |types| && types[i] == t;
    }
  }

  lemma {:induction false} AmongExactly(v: Value, choices: seq<Value>)
    ensures Among(v, choices) <==> exists c :: c in choices && Equal(v, c)
  {
    hide Equal;
    if c :| c in choices && Equal(v, c) {
      var i :| 0 <= i < |choices| && choices[i] == c;
    }
  }

  lemma {:induction false} RequiredHas(fields: seq<Field>, required: seq<string>, pointer: string, issue: Issue)
    ensures issue in RequiredIssues(fields, required, pointer) <==>
      exists name :: name in required && !HasKey(fields, name) && issue == Issue(pointer + "/" + name, "required")
  {
    hide HasKey, RequiredIssues;
    if required == [] {
      NoneRequired(fields, pointer);
    } else {
      var n := |required| - 1;
      RequiredHas(fields, required[..n], pointer, issue);
      LastRequired(fields, required, pointer, issue);
      assert required == required[..n] + [required[n]];
    }
  }

  lemma {:induction false} NoneRequired(fields: seq<Field>, pointer: string)
    ensures RequiredIssues(fields, [], pointer) == []
  {
  }

  lemma {:induction false} LastRequired(fields: seq<Field>, required: seq<string>, pointer: string, issue: Issue)
    requires required != []
    ensures var n := |required| - 1;
      issue in RequiredIssues(fields, required, pointer) <==>
        || issue in RequiredIssues(fields, required[..n], pointer)
        || (!HasKey(fields, required[n]) && issue == Issue(pointer + "/" + required[n], "required"))
  {
    hide HasKey;
  }

  lemma {:induction false} PropertyExactly(properties: seq<Property>, name: string)
    ensures PropertyOf(properties, name).None? <==> forall i :: 0 <= i < |properties| ==> properties[i].name != name
  {
    if properties != [] {
      PropertyExactly(properties[1..], name);
      assert forall i :: 0 < i < |properties| ==> properties[i] == properties[1..][i - 1];
    }
  }

  lemma {:induction false} UnknownHas(fields: seq<Field>, s: Schema, pointer: string, issue: Issue)
    ensures issue in UnknownIssues(fields, s, pointer) <==>
      s.closed && exists f :: f in fields && Undeclared(s, f.key) &&
                              issue == Issue(pointer + "/" + f.key, "additional_properties")
  {
    hide PropertyOf, Undeclared;
    if fields != [] {
      var n := |fields| - 1;
      UnknownHas(fields[..n], s, pointer, issue);
      UndeclaredExactly(s, fields[n].key);
      assert fields == fields[..n] + [fields[n]];
    }
  }

  lemma {:induction false} UndeclaredExactly(s: Schema, name: string)
    ensures PropertyOf(s.properties, name).None? <==> Undeclared(s, name)
  {
    PropertyExactly(s.properties, name);
  }

  lemma {:induction false} BoundsHave(x: real, least: Option<Value>, most: Option<Value>, pointer: string,
                                      small: string, big: string, issue: Issue)
    requires When(TooSmall(x, least), At(pointer, small)).Ok? && When(TooBig(x, most), At(pointer, big)).Ok?
    ensures issue in When(TooSmall(x, least), At(pointer, small)).value
            || issue in When(TooBig(x, most), At(pointer, big)).value <==>
      BreaksLength(x, least, most, issue.rule, small, big) && issue.pointer == At(pointer, "").pointer
  {
  }

  /** What the value's own const and enum say. */
  lemma {:induction false} ValueHas(v: Value, s: Schema, pointer: string, issue: Issue)
    ensures issue in ValueIssues(v, s, pointer) <==>
      && issue.pointer == At(pointer, "").pointer
      && ((issue.rule == "const" && s.fixed.Some? && !Equal(v, s.fixed.value))
          || (issue.rule == "enum" && s.choices.Some? && forall c :: c in s.choices.value ==> !Equal(v, c)))
  {
    hide Equal, Among;
    if s.choices.Some? { AmongExactly(v, s.choices.value); }
  }

  /** The part of `Breaks` that depends on the type of the value. */
  ghost predicate BreaksPart(v: Value, s: Schema, isDate: string -> bool, rule: string) {
    || (v.Arr? && BreaksLength(|v.items| as real, s.minItems, s.maxItems, rule, "min_items", "max_items"))
    || (v.Str? && BreaksLength(|v.s| as real, s.minLength, s.maxLength, rule, "min_length", "max_length"))
    || (IsNumber(v) && BreaksLength(NumberValue(v), s.minimum, s.maximum, rule, "minimum", "maximum"))
    || (v.Str? && rule == "format" && s.date && !isDate(v.s))
  }

  ghost predicate FieldViolates(f: Field, properties: seq<Property>, isDate: string -> bool, pointer: string,
                                issue: Issue) {
    && PropertyOf(properties, f.key).Some?
    && Violates(f.value, PropertyOf(properties, f.key).value, isDate, pointer + "/" + f.key, issue)
  }

  ghost predicate Inside(v: Value, s: Schema, isDate: string -> bool, pointer: string, issue: Issue) {
    match v
    case Obj(fields) =>
      || MissesOrAdds(fields, s, pointer, issue)
      || exists i :: 0 <= i < |fields| && FieldViolates(fields[i], s.properties, isDate, pointer, issue)
    case Arr(items) =>
      && s.items.Some?
      && exists i :: 0 <= i < |items| &&
                     Violates(items[i], s.items.value, isDate, pointer + "/" + IndexText(i), issue)
    case _ => false
  }

  lemma {:induction false} ViolatesUnfolds(v: Value, s: Schema, isDate: string -> bool, pointer: string, issue: Issue)
    ensures Violates(v, s, isDate, pointer, issue) <==>
      || (Breaks(v, s, isDate, issue.rule) && issue.pointer == At(pointer, "").pointer)
      || (Entered(v, s) && Inside(v, s, isDate, pointer, issue))
  {
    hide Breaks, Entered, MissesOrAdds, PropertyOf;
    if v.Obj? {
      forall i | 0 <= i < |v.fields|
        ensures FieldViolates(v.fields[i], s.properties, isDate, pointer, issue) <==>
          && PropertyOf(s.properties, v.fields[i].key).Some?
          && Violates(v.fields[i].value, PropertyOf(s.properties, v.fields[i].key).value, isDate,
                      pointer + "/" + v.fields[i].key, issue)
      {
      }
    }
  }

  /** The issues the validator finds, the cap aside, are exactly the violations. */
  lemma {:induction false} IssuesExactly(v: Value, s: Schema, isDate: string -> bool, pointer: string, issue: Issue)
    requires AllIssues(v, s, isDate, pointer).Ok?
    ensures issue in AllIssues(v, s, isDate, pointer).value <==> Violates(v, s, isDate, pointer, issue)
    decreases v, 2
  {
    hide Violates, PartIssues, ValueIssues, Inside, BreaksPart, MatchesType, Equal, SupportedType;
    ViolatesUnfolds(v, s, isDate, pointer, issue);
    SupportedExactly(s);
    if Supported(s) {
      MatchesSomeExactly(v, s.types.value);
      if MatchesSome(v, s.types.value) {
        ValueHas(v, s, pointer, issue);
        BothHas(Ok(ValueIssues(v, s, pointer)), PartIssues(v, s, isDate, pointer), issue);
        PartHas(v, s, isDate, pointer, issue);
        BreaksInParts(v, s, isDate, issue.rule);
      }
    }
  }

  lemma {:induction false} BreaksInParts(v: Value, s: Schema, isDate: string -> bool, rule: string)
    requires Entered(v, s)
    ensures Breaks(v, s, isDate, rule) <==>
      || (rule == "const" && s.fixed.Some? && !Equal(v, s.fixed.value))
      || (rule == "enum" && s.choices.Some? && forall c :: c in s.choices.value ==> !Equal(v, c))
      || BreaksPart(v, s, isDate, rule)
  {
    hide Equal, MatchesType, NumberValue, BreaksLength;
  }

  lemma {:induction false} PartHas(v: Value, s: Schema, isDate: string -> bool, pointer: string, issue: Issue)
    requires PartIssues(v, s, isDate, pointer).Ok?
    ensures issue in PartIssues(v, s, isDate, pointer).value <==>
      || (BreaksPart(v, s, isDate, issue.rule) && issue.pointer == At(pointer, "").pointer)
      || Inside(v, s, isDate, pointer, issue)
    decreases v, 1
  {
    hide AllIssues, FieldIssues, ItemIssues, BreaksPart, Inside, Both, PropertyOf;
    match v
    case Obj(fields) =>
      ObjectParts(fields, s, isDate, pointer);
      FieldsHave(fields, s.properties, isDate, pointer, issue);
      ObjectHas(fields, s, isDate, pointer, issue);
    case Arr(items) =>
      ArrayParts(items, s, isDate, pointer);
      if s.items.Some? { ItemsHave(items, s.items.value, isDate, pointer, issue); }
      ArrayHas(items, s, isDate, pointer, issue);
    case _ => LeafHas(v, s, isDate, pointer, issue);
  }

  lemma {:induction false} ObjectParts(fields: seq<Field>, s: Schema, isDate: string -> bool, pointer: string)
    requires PartIssues(Obj(fields), s, isDate, pointer).Ok?
    ensures FieldIssues(fields, s.properties, isDate, pointer).Ok?
    ensures PartIssues(Obj(fields), s, isDate, pointer).value ==
      (RequiredIssues(fields, s.required, pointer) + UnknownIssues(fields, s, pointer))
      + FieldIssues(fields, s.properties, isDate, pointer).value
  {
    hide FieldIssues, RequiredIssues, UnknownIssues;
  }

  lemma {:induction false} ArrayParts(items: seq<Value>, s: Schema, isDate: string -> bool, pointer: string)
    requires PartIssues(Arr(items), s, isDate, pointer).Ok?
    ensures LengthIssues(|items|, s, pointer).Ok?
    ensures s.items.Some? ==> ItemIssues(items, s.items.value, isDate, pointer).Ok?
    ensures PartIssues(Arr(items), s, isDate, pointer).value ==
      LengthIssues(|items|, s, pointer).value
      + (if s.items.Some? then ItemIssues(items, s.items.value, isDate, pointer).value else [])
  {
    hide ItemIssues, LengthIssues;
  }

  lemma {:induction false} ObjectHas(fields: seq<Field>, s: Schema, isDate: string -> bool, pointer: string,
                                     issue: Issue)
    requires PartIssues(Obj(fields), s, isDate, pointer).Ok? && FieldIssues(fields, s.properties, isDate, pointer).Ok?
    requires issue in FieldIssues(fields, s.properties, isDate, pointer).value <==>
      exists i :: 0 <= i < |fields| && FieldViolates(fields[i], s.properties, isDate, pointer, issue)
    ensures issue in PartIssues(Obj(fields), s, isDate, pointer).value <==>
      Inside(Obj(fields), s, isDate, pointer, issue)
    ensures !BreaksPart(Obj(fields), s, isDate, issue.rule)
  {
    hide PartIssues, FieldIssues, RequiredIssues, UnknownIssues, FieldViolates, HasKey;
    ObjectParts(fields, s, isDate, pointer);
    RequiredHas(fields, s.required, pointer, issue);
    UnknownHas(fields, s, pointer, issue);
  }

  lemma {:induction false} ArrayHas(items: seq<Value>, s: Schema, isDate: string -> bool, pointer: string, issue: Issue)
    requires PartIssues(Arr(items), s, isDate, pointer).Ok?
    requires s.items.Some? ==>
      && ItemIssues(items, s.items.value, isDate, pointer).Ok?
      && (issue in ItemIssues(items, s.items.value, isDate, pointer).value <==>
            exists i :: 0 <= i < |items| &&
              Violates(items[i], s.items.value, isDate, pointer + "/" + IndexText(i), issue))
    ensures issue in PartIssues(Arr(items), s, isDate, pointer).value <==>
      || (BreaksPart(Arr(items), s, isDate, issue.rule) && issue.pointer == At(pointer, "").pointer)
      || Inside(Arr(items), s, isDate, pointer, issue)
  {
    hide PartIssues, ItemIssues, LengthIssues, Violates, BreaksLength, IndexText;
    ArrayParts(items, s, isDate, pointer);
    LengthHas(|items|, s, pointer, issue);
  }

  lemma LengthHas(n: nat, s: Schema, pointer: string, issue: Issue)
    requires LengthIssues(n, s, pointer).Ok?
    ensures issue in LengthIssues(n, s, pointer).value <==>
      && BreaksLength(n as real, s.minItems, s.maxItems, issue.rule, "min_items", "max_items")
      && issue.pointer == At(pointer, "").pointer
  {
    hide TooSmall, TooBig, BreaksLength, Both, When;
    var small := When(TooSmall(n as real, s.minItems), At(pointer, "min_items"));
    var big := When(TooBig(n as real, s.maxItems), At(pointer, "max_items"));
    BothHas(big, small, issue);
    BoundsHave(n as real, s.minItems, s.maxItems, pointer, "min_items", "max_items", issue);
  }

  lemma {:induction false} LeafHas(v: Value, s: Schema, isDate: string -> bool, pointer: string, issue: Issue)
    requires !v.Obj? && !v.Arr? && PartIssues(v, s, isDate, pointer).Ok?
    ensures issue in PartIssues(v, s, isDate, pointer).value <==>
      BreaksPart(v, s, isDate, issue.rule) && issue.pointer == At(pointer, "").pointer
    ensures !Inside(v, s, isDate, pointer, issue)
  {
    hide TooSmall, TooBig, BreaksLength, Both, When, WithinLimits, NumberValue;
    if v.Str? {
      var x := |v.s| as real;
      var small := When(TooSmall(x, s.minLength), At(pointer, "min_length"));
      var big := When(TooBig(x, s.maxLength), At(pointer, "max_length"));
      var form: Found := Ok(if s.date && !isDate(v.s) then [At(pointer, "format")] else []);
      BothHas(small, Both(big, form), issue);
      BothHas(big, form, issue);
      BoundsHave(x, s.minLength, s.maxLength, pointer, "min_length", "max_length", issue);
    } else if IsNumber(v) {
      var x := NumberValue(v);
      var small := When(TooSmall(x, s.minimum), At(pointer, "minimum"));
      var big := When(TooBig(x, s.maximum), At(pointer, "maximum"));
      BothHas(small, big, issue);
      BoundsHave(x, s.minimum, s.maximum, pointer, "minimum", "maximum", issue);
    }
  }

  lemma {:induction false} FieldsHave(fields: seq<Field>, properties: seq<Property>, isDate: string -> bool,
                                      pointer: string, issue: Issue)
    requires FieldIssues(fields, properties, isDate, pointer).Ok?
    ensures issue in FieldIssues(fields, properties, isDate, pointer).value <==>
      exists i :: 0 <= i < |fields| && FieldViolates(fields[i], properties, isDate, pointer, issue)
    decreases fields, 0
  {
    hide AllIssues, Violates, PropertyOf;
    if fields != [] {
      var n := |fields| - 1;
      var declared := PropertyOf(properties, fields[n].key);
      var last: Found := if declared.None? then Ok([])
        else AllIssues(fields[n].value, declared.value, isDate, pointer + "/" + fields[n].key);
      BothHas(FieldIssues(fields[..n], properties, isDate, pointer), last, issue);
      FieldsHave(fields[..n], properties, isDate, pointer, issue);
      if declared.Some? {
        assert fields[n].value < fields[n];
        IssuesExactly(fields[n].value, declared.value, isDate, pointer + "/" + fields[n].key, issue);
      }
      assert forall i :: 0 <= i < n ==> fields[..n][i] == fields[i];
    }
  }

  lemma {:induction false} ItemsHave(items: seq<Value>, child: Schema, isDate: string -> bool, pointer: string,
                                     issue: Issue)
    requires ItemIssues(items, child, isDate, pointer).Ok?
    ensures issue in ItemIssues(items, child, isDate, pointer).value <==>
      exists i :: 0 <= i < |items| && Violates(items[i], child, isDate, pointer + "/" + IndexText(i), issue)
    decreases items, 0
  {
    hide AllIssues, Violates, IndexText;
    if items != [] {
      var n := |items| - 1;
      BothHas(ItemIssues(items[..n], child, isDate, pointer),
              AllIssues(items[n], child, isDate, pointer + "/" + IndexText(n)), issue);
      ItemsHave(items[..n], child, isDate, pointer, issue);
      IssuesExactly(items[n], child, isDate, pointer + "/" + IndexText(n), issue);
      assert forall i :: 0 <= i < n ==> items[..n][i] == items[i];
    }
  }
}
