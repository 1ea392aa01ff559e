/**
 What a strict declaration is, keyword by keyword, and that it can be met
 (`_validate_strict_schema` in quant_data/registry.py).
 */
module StrictSchemas {
  import opened Wrappers
  import opened Json
  import opened JsonCanonical
  import opened RegistrySchema
  import S = Schema

  // ----- by keyword -----

  predicate HasOnly(raw: Value, allowed: set<string>) {
    raw.Obj? && forall f :: f in raw.fields ==> f.key in allowed
  }

  /** A list of texts without repetition. */
  predicate TextSet(v: Value) {
    && v.Arr? && (forall item :: item in v.items ==> item.Str?)
    && forall i, j :: 0 <= i < |v.items| && 0 <= j < |v.items| && i != j ==> v.items[i] != v.items[j]
  }

  predicate UnionDeclared(raw: Value, types: Value) {
    && TextSet(types) && types.items != [] && HasOnly(raw, {"type"})
    && forall item :: item in types.items ==> item.s in {"string", "integer", "number", "boolean", "null"}
  }

  predicate ObjectDeclared(raw: Value, properties: Value, required: Option<Value>) {
    && HasOnly(raw, {"type", "additionalProperties", "properties", "required"})
    && Get(raw, "additionalProperties") == Some(Bool(false)) && properties.Obj?
    && (forall f :: f in properties.fields ==> f.key !in PROHIBITED)
    && (required.Some? ==>
          && TextSet(required.value)
          && forall item :: item in required.value.items ==>
               exists f :: f in properties.fields && f.key == item.s)
  }

  const PROHIBITED :=
    {"database_path", "db_path", "sqlite_uri", "sql", "pragma", "filesystem_root", "connection_string"}

  predicate ArrayDeclared(raw: Value, least: Option<Value>, most: Option<Value>) {
    && HasOnly(raw, {"type", "items", "minItems", "maxItems"})
    && (least.Some? ==> least.value.Int? && least.value.i >= 0)
    && (most.Some? ==> most.value.Int? && most.value.i >= 0)
    && (least.Some? && most.Some? ==> least.value.i <= most.value.i)
    && (least.Some? && most.None? ==> least.value.i <= 8_388_608)
  }

  predicate ScalarDeclared(raw: Value, t: string, choices: Option<Value>) {
    && t in {"string", "integer", "number", "boolean", "null"}
    && HasOnly(raw, {"type", "const", "enum", "format", "minLength", "maxLength", "minimum", "maximum"})
    && (t != "string" ==> HasOnly(raw, {"type", "const", "enum", "minimum", "maximum"}))
    && (t !in {"integer", "number"} ==> HasOnly(raw, {"type", "const", "enum", "format", "minLength", "maxLength"}))
    && (choices.Some? ==> choices.value.Arr? && choices.value.items != [])
  }

  lemma WithinExactly(raw: Value, allowed: set<string>)
    ensures KeysWithin(raw, allowed) <==> HasOnly(raw, allowed)
  {
    if raw.Obj? && KeysWithin(raw, allowed) {
      forall f | f in raw.fields ensures f.key in allowed {
        var i :| 0 <= i < |raw.fields| && raw.fields[i] == f;
      }
    }
  }

  lemma {:induction false} TextsExactly(items: seq<Value>)
    ensures Texts(items).Some? <==> forall item :: item in items ==> item.Str?
    ensures Texts(items).Some? ==>
      |Texts(items).value| == |items| && forall i :: 0 <= i < |items| ==> items[i] == Str(Texts(items).value[i])
  {
    if items != [] {
      var n := |items| - 1;
      TextsExactly(items[..n]);
      assert items == items[..n] + [items[n]];
    }
  }

  lemma {:induction false} TextSetExactly(v: Value)
    requires v.Arr?
    ensures TextSet(v) <==> Texts(v.items).Some? && DistinctNames(Texts(v.items).value)
  {
    hide Texts;
    TextsExactly(v.items);
  }

  lemma ScalarTypes(t: string)
    ensures ScalarType(t) <==> t in {"string", "integer", "number", "boolean", "null"}
  {
  }

  lemma ProhibitedExactly(key: string)
    ensures Prohibited(key) <==> key in PROHIBITED
  {
  }

  /** The three kinds of strict declarations: a union of scalar types and nothing else; an
      object of declared, permitted and strict properties, the required ones among them; an
      array of a strict declaration with bounds in order; or a scalar with its own keywords. */
  lemma {:induction false} StrictExactly(raw: Value)
    ensures Strict(raw) <==>
      match Get(raw, "type")
      case Some(Arr(types)) => UnionDeclared(raw, Arr(types))
      case Some(Str(t)) =>
        if t == "object" then
          && Get(raw, "properties").Some?
          && ObjectDeclared(raw, Get(raw, "properties").value, Get(raw, "required"))
          && forall f :: f in Get(raw, "properties").value.fields ==> Strict(f.value)
        else if t == "array" then
          && ArrayDeclared(raw, Get(raw, "minItems"), Get(raw, "maxItems"))
          && Get(raw, "items").Some? && Strict(Get(raw, "items").value)
        else ScalarDeclared(raw, t, Get(raw, "enum"))
      case _ => false
  {
    match Get(raw, "type")
    case Some(Arr(types)) => UnionExactly(raw, types);
    case Some(Str(t)) =>
      if t == "object" {
        ObjectExactly(raw);
      } else if t == "array" {
        ArrayExactly(raw);
      } else {
        ScalarExactly(raw, t);
      }
    case _ =>
  }

  lemma {:induction false} UnionExactly(raw: Value, types: seq<Value>)
    requires Get(raw, "type") == Some(Arr(types))
    ensures Strict(raw) <==> UnionDeclared(raw, Arr(types))
  {
    hide Texts, TextSet, Get, KeysWithin, HasOnly, ScalarType;
    TextsExactly(types);
    TextSetExactly(Arr(types));
    WithinExactly(raw, {"type"});
    forall t ensures ScalarType(t) <==> t in {"string", "integer", "number", "boolean", "null"} { ScalarTypes(t); }
    if Texts(types).Some? {
      var names := Texts(types).value;
      assert (forall i :: 0 <= i < |names| ==> ScalarType(names[i])) <==>
        forall item :: item in types ==> ScalarType(item.s);
    }
  }

  lemma {:induction false} ObjectExactly(raw: Value)
    requires Get(raw, "type") == Some(Str("object"))
    ensures Strict(raw) <==>
      && Get(raw, "properties").Some?
      && ObjectDeclared(raw, Get(raw, "properties").value, Get(raw, "required"))
      && forall f :: f in Get(raw, "properties").value.fields ==> Strict(f.value)
  {
    hide Get, KeysWithin, HasOnly, StrictRequired, Prohibited, TextSet;
    WithinExactly(raw, {"type", "additionalProperties", "properties", "required"});
    var properties := Get(raw, "properties");
    if properties.Some? && properties.value.Obj? {
      var fields := properties.value.fields;
      RequiredExactly(raw, fields);
      forall key ensures Prohibited(key) <==> key in PROHIBITED { ProhibitedExactly(key); }
      assert (forall i :: 0 <= i < |fields| ==> !Prohibited(fields[i].key)) <==>
        forall f :: f in fields ==> f.key !in PROHIBITED;
      assert StrictAll(fields) <==> forall f :: f in fields ==> Strict(f.value);
    }
  }

  lemma {:induction false} RequiredExactly(raw: Value, fields: seq<Field>)
    ensures StrictRequired(raw, fields) <==>
      var required := Get(raw, "required");
      (required.Some? ==>
         && TextSet(required.value)
         && forall item :: item in required.value.items ==> exists f :: f in fields && f.key == item.s)
  {
    hide Get, Texts, TextSet, Lookup;
    var required := Get(raw, "required");
    if required.Some? && required.value.Arr? {
      var items := required.value.items;
      TextSetExactly(required.value);
      TextsExactly(items);
      if Texts(items).Some? {
        var names := Texts(items).value;
        forall i | 0 <= i < |names|
          ensures HasKey(fields, names[i]) <==> exists f :: f in fields && f.key == items[i].s
        {
          KeyExactly(fields, names[i]);
        }
        assert (forall i :: 0 <= i < |names| ==> HasKey(fields, names[i])) <==>
          forall item :: item in items ==> exists f :: f in fields && f.key == item.s;
      }
    }
    if required.Some? { SetIsArray(required.value); }
  }

  lemma SetIsArray(v: Value)
    ensures TextSet(v) ==> v.Arr?
  {
  }

  lemma KeyExactly(fields: seq<Field>, key: string)
    ensures HasKey(fields, key) <==> exists f :: f in fields && f.key == key
  {
    hide Lookup;
    if f :| f in fields && f.key == key {
      var i :| 0 <= i < |fields| && fields[i] == f;
    }
  }

  lemma {:induction false} ArrayExactly(raw: Value)
    requires Get(raw, "type") == Some(Str("array"))
    ensures Strict(raw) <==>
      && ArrayDeclared(raw, Get(raw, "minItems"), Get(raw, "maxItems"))
      && Get(raw, "items").Some? && Strict(Get(raw, "items").value)
  {
    hide Get, KeysWithin, HasOnly;
    WithinExactly(raw, {"type", "items", "minItems", "maxItems"});
  }

  lemma {:induction false} ScalarExactly(raw: Value, t: string)
    requires Get(raw, "type") == Some(Str(t)) && t != "object" && t != "array"
    ensures Strict(raw) <==> ScalarDeclared(raw, t, Get(raw, "enum"))
  {
    hide Get, ScalarType, KeysWithin;
    ScalarTypes(t);
    var allowed := {"type", "const", "enum"}
      + (if t == "string" then {"format", "minLength", "maxLength"} else {})
      + (if t == "integer" || t == "number" then {"minimum", "maximum"} else {});
    WithinExactly(raw, allowed);
    assert StrictScalar(raw, t) == Strict(raw);
  }

  // ----- strict declarations can be met -----

  predicate NoScalarKeywords(raw: Value) {
    && Get(raw, "const").None? && Get(raw, "enum").None? && Get(raw, "format").None?
    && Get(raw, "minLength").None? && Get(raw, "maxLength").None?
    && Get(raw, "minimum").None? && Get(raw, "maximum").None?
  }

  /** Nothing but types and shapes: no scalar inside names values, lengths or ranges, which
      can contradict each other. */
  predicate ShapeOnly(raw: Value)
    decreases raw, 1
  {
    && NoScalarKeywords(raw)
    && (match Get(raw, "properties") case Some(Obj(fields)) => AllShapeOnly(fields) case _ => true)
    && (match Get(raw, "items") case Some(child) => ShapeOnly(child) case _ => true)
  }

  predicate AllShapeOnly(fields: seq<Field>)
    decreases fields, 0
  {
    forall i :: 0 <= i < |fields| ==> ShapeOnly(fields[i].value)
  }

  /** A scalar of the type. */
  function Sample(t: string): Value {
    if t == "string" then Str("") else if t == "integer" || t == "number" then Int(0)
    else if t == "boolean" then Bool(false) else Null
  }

  lemma SampleMatches(t: string)
    requires ScalarType(t)
    ensures S.MatchesType(Sample(t), t) && S.SupportedType(t) && UniqueKeys(Sample(t))
  {
  }

  lemma {:induction false} ReadPlainKeywords(raw: Value)
    requires NoScalarKeywords(raw)
    ensures var s := Read(raw);
      && s.fixed.None? && s.choices.None? && !s.date
      && s.minLength.None? && s.maxLength.None? && s.minimum.None? && s.maximum.None?
  {
    hide ReadProperties, TextsAt, Get;
  }

  lemma {:induction false} ScalarConforms(t: string, s: S.Schema, isDate: string -> bool)
    requires ScalarType(t) && S.Supported(s) && t in s.types.value
    requires s.fixed.None? && s.choices.None? && !s.date
    requires s.minLength.None? && s.maxLength.None? && s.minimum.None? && s.maximum.None?
    ensures S.Conforms(Sample(t), s, isDate)
  {
    SampleMatches(t);
    var i :| 0 <= i < |s.types.value| && s.types.value[i] == t;
    assert S.MatchesType(Sample(t), s.types.value[i]);
    assert BitLength(0) == 0;
  }

  /** Every strict declaration of shapes is met by some value: what it requires it also
      declares, and its array bounds leave room. */
  lemma {:induction false} SomeValueConforms(raw: Value, isDate: string -> bool) returns (v: Value)
    requires Strict(raw) && ShapeOnly(raw)
    ensures S.Conforms(v, Read(raw), isDate)
    decreases raw, 1
  {
    hide Strict, ShapeOnly, Read, Get, S.Conforms;
    ShapeParts(raw);
    StrictIsSupported(raw);
    if Get(raw, "type") == Some(Str("object")) {
      StrictObjectParts(raw);
      var fields := Get(raw, "properties").value.fields;
      var values := EveryFieldConforms(raw, fields, isDate);
      v := Obj(values);
      ObjectConforms(raw, fields, values, isDate);
    } else if Get(raw, "type") == Some(Str("array")) {
      StrictArrayParts(raw);
      var item := SomeValueConforms(Get(raw, "items").value, isDate);
      v := ArrayConforms(raw, item, isDate);
    } else {
      v := ScalarOf(raw, isDate);
    }
  }

  lemma {:induction false} ShapeParts(raw: Value)
    requires ShapeOnly(raw)
    ensures NoScalarKeywords(raw)
    ensures Get(raw, "properties").Some? && Get(raw, "properties").value.Obj? ==>
      AllShapeOnly(Get(raw, "properties").value.fields)
    ensures Get(raw, "items").Some? ==> ShapeOnly(Get(raw, "items").value)
  {
    hide Get, AllShapeOnly, NoScalarKeywords;
  }

  /** One value for each name that is declared: the first declaration counts. */
  lemma {:induction false} EveryFieldConforms(raw: Value, fields: seq<Field>, isDate: string -> bool)
    returns (values: seq<Field>)
    requires Obj(fields) < raw && StrictAll(fields) && AllShapeOnly(fields)
    ensures |values| == |fields| && forall i :: 0 <= i < |fields| ==> values[i].key == fields[i].key
    ensures forall i :: 0 <= i < |fields| ==>
      S.Conforms(values[i].value, Read(Lookup(fields, fields[i].key).value), isDate)
    decreases raw, 0
  {
    hide Strict, ShapeOnly, Read, S.Conforms, Lookup;
    values := [];
    for n := 0 to |fields|
      invariant |values| == n && forall i :: 0 <= i < n ==> values[i].key == fields[i].key
      invariant forall i :: 0 <= i < n ==>
        S.Conforms(values[i].value, Read(Lookup(fields, fields[i].key).value), isDate)
    {
      assert Lookup(fields, fields[n].key).Some?;
      var declared := Lookup(fields, fields[n].key).value;
      assert Field(fields[n].key, declared) in fields;
      var j :| 0 <= j < |fields| && fields[j] == Field(fields[n].key, declared);
      assert declared < fields[j] < Obj(fields) < raw;
      assert Strict(fields[j].value) && ShapeOnly(fields[j].value);
      var v := SomeValueConforms(declared, isDate);
      values := values + [Field(fields[n].key, v)];
    }
  }

  lemma {:induction false} ObjectConforms(raw: Value, fields: seq<Field>, values: seq<Field>, isDate: string -> bool)
    requires Strict(raw) && Get(raw, "type") == Some(Str("object")) && Get(raw, "properties") == Some(Obj(fields))
    requires NoScalarKeywords(raw)
    requires |values| == |fields| && forall i :: 0 <= i < |fields| ==> values[i].key == fields[i].key
    requires forall i :: 0 <= i < |fields| ==>
      S.Conforms(values[i].value, Read(Lookup(fields, fields[i].key).value), isDate)
    ensures S.Conforms(Obj(values), Read(raw), isDate)
  {
    hide Strict, Get, Read, NoScalarKeywords, Lookup, ReadProperties, S.Supported, S.MatchesSome, S.PropertyOf;
    ReadPlainKeywords(raw);
    ReadKeywords(raw);
    OneType(raw, "object");
    TypeFound(Obj(values), "object");
    var s := Read(raw);
    forall i | 0 <= i < |values|
      ensures S.PropertyOf(s.properties, values[i].key) == Some(Read(Lookup(fields, fields[i].key).value))
    {
      assert Lookup(fields, fields[i].key).Some?;
      PropertyRead(fields, values[i].key);
    }
    RequiredAreDeclared(raw, fields);
    forall i | 0 <= i < |s.required| ensures HasKey(values, s.required[i]) {
      KeyExactly(fields, s.required[i]);
      var f :| f in fields && f.key == s.required[i];
      var j :| 0 <= j < |fields| && fields[j] == f;
      assert values[j] in values;
      KeyExactly(values, s.required[i]);
    }
    PartsMakeIt(Obj(values), s, isDate);
  }

  lemma {:induction false} PartsMakeIt(v: Value, s: S.Schema, isDate: string -> bool)
    requires S.Supported(s) && S.MatchesSome(v, s.types.value) && s.fixed.None? && s.choices.None?
    requires S.PartsConform(v, s, isDate)
    ensures S.Conforms(v, s, isDate)
  {
    hide S.Supported, S.MatchesSome, S.PartsConform;
  }

  lemma {:induction false} RequiredAreDeclared(raw: Value, fields: seq<Field>)
    requires Strict(raw) && Get(raw, "type") == Some(Str("object")) && Get(raw, "properties") == Some(Obj(fields))
    ensures forall i :: 0 <= i < |Read(raw).required| ==> HasKey(fields, Read(raw).required[i])
  {
    hide Get, Texts, ReadProperties, StrictAll, KeysWithin, HasKey, Prohibited, DistinctNames;
    ReadRequired(raw);
  }

  lemma {:induction false} ReadRequired(raw: Value)
    ensures Read(raw).required == match TextsAt(raw, "required") case Some(names) => names case None => []
    ensures Get(raw, "required").None? ==> TextsAt(raw, "required").None?
  {
    hide Get, Texts, ReadProperties;
  }

  lemma {:induction false} ArrayConforms(raw: Value, item: Value, isDate: string -> bool) returns (v: Value)
    requires Strict(raw) && Get(raw, "type") == Some(Str("array")) && Get(raw, "items").Some?
    requires NoScalarKeywords(raw) && S.Conforms(item, Read(Get(raw, "items").value), isDate)
    ensures S.Conforms(v, Read(raw), isDate)
  {
    hide Strict, Get, Read, NoScalarKeywords, S.Supported, S.MatchesSome, HasOnly, S.Conforms;
    ReadPlainKeywords(raw);
    ReadKeywords(raw);
    OneType(raw, "array");
    ArrayExactly(raw);
    StrictArrayParts(raw);
    StrictIsObject(Get(raw, "items").value);
    var least := Get(raw, "minItems");
    var n: nat := if least.Some? then least.value.i else 0;
    v := Arr(seq(n, i requires 0 <= i < n => item));
    TypeFound(v, "array");
    BoundsLeaveRoom(raw, n);
    PartsMakeIt(v, Read(raw), isDate);
  }

  lemma BoundsLeaveRoom(raw: Value, n: nat)
    requires ArrayDeclared(raw, Get(raw, "minItems"), Get(raw, "maxItems"))
    requires n == if Get(raw, "minItems").Some? then Get(raw, "minItems").value.i else 0
    ensures S.AtLeast(n as real, Get(raw, "minItems")) && S.AtMost(n as real, Get(raw, "maxItems"))
  {
    hide Get, HasOnly;
  }

  lemma {:induction false} ScalarOf(raw: Value, isDate: string -> bool) returns (v: Value)
    requires Strict(raw) && NoScalarKeywords(raw)
    requires Get(raw, "type") != Some(Str("object")) && Get(raw, "type") != Some(Str("array"))
    ensures S.Conforms(v, Read(raw), isDate)
  {
    hide Get, Read, NoScalarKeywords, S.Conforms, KeysWithin, Texts, ScalarType;
    StrictIsSupported(raw);
    ReadPlainKeywords(raw);
    ReadTypes(raw);
    var t := Read(raw).types.value[0];
    v := Sample(t);
    ScalarConforms(t, Read(raw), isDate);
  }

  lemma {:induction false} ReadTypes(raw: Value)
    ensures Read(raw).types ==
      match Get(raw, "type") case Some(Str(t)) => Some([t]) case _ => TextsAt(raw, "type")
  {
    hide Get, Texts, ReadProperties;
  }
}
