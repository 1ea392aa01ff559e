/**
 The strict schemas a registry may declare (`_validate_strict_schema` in
 quant_data/registry.py), and what the validator then makes of them.
 */
module RegistrySchema {
  import opened Wrappers
  import opened Json
  import S = Schema

  // ----- a declaration as JSON -----

  /** `schema.get(key)` on what was loaded from the registry file. */
  function Get(raw: Value, key: string): (r: Option<Value>)
    ensures r.Some? ==> raw.Obj? && r.value < raw
  {
    if raw.Obj? then GetField(raw.fields, key) else None
  }

  function GetField(fields: seq<Field>, key: string): (r: Option<Value>)
    ensures r == Lookup(fields, key)
    ensures r.Some? ==> exists i :: 0 <= i < |fields| && fields[i] == Field(key, r.value)
    ensures r.Some? ==> r.value < Obj(fields)
  {
    var r := Lookup(fields, key);
    assert r.Some? ==> Field(key, r.value) in fields;
    assert r.Some? ==> exists i :: 0 <= i < |fields| && fields[i] == Field(key, r.value);
    r
  }

  function Texts(items: seq<Value>): Option<seq<string>> {
    if items == [] then Some([])
    else
      var n := |items| - 1;
      match Texts(items[..n])
      case None => None
      case Some(front) => if items[n].Str? then Some(front + [items[n].s]) else None
  }

  function TextsAt(raw: Value, key: string): Option<seq<string>> {
    match Get(raw, key)
    case Some(Arr(items)) => Texts(items)
    case _ => None
  }

  /** The declaration as the validator reads it. */
  function Read(raw: Value): S.Schema
    decreases raw, 1
  {
    S.Schema(
      match Get(raw, "type") case Some(Str(t)) => Some([t]) case _ => TextsAt(raw, "type"),
      Get(raw, "const"),
      match Get(raw, "enum") case Some(Arr(items)) => Some(items) case _ => None,
      match Get(raw, "properties") case Some(Obj(fields)) => ReadProperties(fields) case _ => [],
      match TextsAt(raw, "required") case Some(names) => names case None => [],
      Get(raw, "additionalProperties") == Some(Bool(false)),
      match Get(raw, "items") case Some(Obj(fields)) => Some(Read(Obj(fields))) case _ => None,
      Get(raw, "minItems"), Get(raw, "maxItems"),
      Get(raw, "minLength"), Get(raw, "maxLength"),
      Get(raw, "minimum"), Get(raw, "maximum"),
      Get(raw, "format") == Some(Str("date")))
  }

  function ReadProperties(fields: seq<Field>): (r: seq<S.Property>)
    ensures |r| == |fields|
    ensures forall i :: 0 <= i < |fields| ==> r[i] == S.Property(fields[i].key, Read(fields[i].value))
    decreases fields, 0
  {
    seq(|fields|, i requires 0 <= i < |fields| => S.Property(fields[i].key, Read(fields[i].value)))
  }

  // ----- strict declarations -----

  predicate ScalarType(t: string) {
    t == "string" || t == "integer" || t == "number" || t == "boolean" || t == "null"
  }

  predicate Prohibited(key: string) {
    || key == "database_path" || key == "db_path" || key == "sqlite_uri" || key == "sql"
    || key == "pragma" || key == "filesystem_root" || key == "connection_string"
  }

  predicate KeysWithin(raw: Value, allowed: set<string>) {
    raw.Obj? && forall i :: 0 <= i < |raw.fields| ==> raw.fields[i].key in allowed
  }

  predicate DistinctNames(names: seq<string>) {
    forall i, j :: 0 <= i < j < |names| ==> names[i] != names[j]
  }

  predicate NaturalOrAbsent(v: Option<Value>) {
    v.None? || (v.value.Int? && v.value.i >= 0)
  }

  function BoundOr(v: Option<Value>, default: nat): nat
    requires NaturalOrAbsent(v)
  {
    if v.None? then default else v.value.i
  }

  predicate StrictUnion(raw: Value, types: Option<seq<string>>) {
    && types.Some? && types.value != [] && DistinctNames(types.value)
    && (forall i :: 0 <= i < |types.value| ==> ScalarType(types.value[i]))
    && KeysWithin(raw, {"type"})
  }

  predicate StrictRequired(raw: Value, fields: seq<Field>) {
    Get(raw, "required").Some? ==>
      && TextsAt(raw, "required").Some?
      && DistinctNames(TextsAt(raw, "required").value)
      && forall i :: 0 <= i < |TextsAt(raw, "required").value| ==> HasKey(fields, TextsAt(raw, "required").value[i])
  }

  predicate StrictScalar(raw: Value, t: string) {
    && ScalarType(t)
    && KeysWithin(raw, {"type", "const", "enum"}
                       + (if t == "string" then {"format", "minLength", "maxLength"} else {})
                       + (if t == "integer" || t == "number" then {"minimum", "maximum"} else {}))
    && (Get(raw, "enum").Some? ==> Get(raw, "enum").value.Arr? && Get(raw, "enum").value.items != [])
  }

  /** `_validate_strict_schema` raises nothing. */
  predicate Strict(raw: Value)
    decreases raw, 1
  {
    raw.Obj? &&
    match Get(raw, "type")
    case Some(Arr(_)) => StrictUnion(raw, TextsAt(raw, "type"))
    case Some(Str(t)) =>
      if t == "object" then
        && KeysWithin(raw, {"type", "additionalProperties", "properties", "required"})
        && Get(raw, "additionalProperties") == Some(Bool(false))
        && (match Get(raw, "properties")
            case Some(Obj(fields)) =>
              && StrictRequired(raw, fields)
              && (forall i :: 0 <= i < |fields| ==> !Prohibited(fields[i].key))
              && StrictAll(fields)
            case _ => false)
      else if t == "array" then
        && KeysWithin(raw, {"type", "items", "minItems", "maxItems"})
        && NaturalOrAbsent(Get(raw, "minItems")) && NaturalOrAbsent(Get(raw, "maxItems"))
        && BoundOr(Get(raw, "minItems"), 0) <= BoundOr(Get(raw, "maxItems"), MAX_JSON_BYTES)
        && Get(raw, "items").Some? && Strict(Get(raw, "items").value)
      else StrictScalar(raw, t)
    case _ => false
  }

  predicate StrictAll(fields: seq<Field>)
    decreases fields, 0
  {
    forall i :: 0 <= i < |fields| ==> Strict(fields[i].value)
  }

  lemma {:induction false} StrictIsSupported(raw: Value)
    requires Strict(raw)
    ensures S.Supported(Read(raw))
  {
    hide ReadProperties, StrictAll, KeysWithin, Texts, Get;
  }

  // ----- the validator never meets an unsupported declaration -----

  predicate Mentions(issues: seq<S.Issue>, rule: string) {
    exists i :: 0 <= i < |issues| && issues[i].rule == rule
  }

  predicate NoSchemaIssue(found: S.Found) {
    found.Ok? ==> !Mentions(found.value, "schema")
  }

  lemma BothQuiet(a: S.Found, b: S.Found)
    requires NoSchemaIssue(a) && NoSchemaIssue(b)
    ensures NoSchemaIssue(S.Both(a, b))
  {
  }

  lemma {:induction false} RequiredQuiet(fields: seq<Field>, required: seq<string>, pointer: string)
    ensures !Mentions(S.RequiredIssues(fields, required, pointer), "schema")
  {
    hide HasKey;
    if required != [] { RequiredQuiet(fields, required[..|required| - 1], pointer); }
  }

  lemma {:induction false} UnknownQuiet(fields: seq<Field>, s: S.Schema, pointer: string)
    ensures !Mentions(S.UnknownIssues(fields, s, pointer), "schema")
  {
    hide S.PropertyOf;
    if fields != [] { UnknownQuiet(fields[..|fields| - 1], s, pointer); }
  }

  lemma WhenQuiet(failed: Result<bool, Fault>, pointer: string, rule: string)
    requires rule != "schema"
    ensures NoSchemaIssue(S.When(failed, S.At(pointer, rule)))
  {
  }

  lemma ValueQuiet(v: Value, s: S.Schema, pointer: string)
    ensures !Mentions(S.ValueIssues(v, s, pointer), "schema")
  {
    hide S.Equal, S.Among;
  }

  lemma LeavesQuiet(v: Value, s: S.Schema, isDate: string -> bool, pointer: string, n: nat)
    ensures NoSchemaIssue(S.LengthIssues(n, s, pointer))
    ensures v.Str? ==> NoSchemaIssue(S.StringIssues(v.s, s, isDate, pointer))
    ensures v.Int? || v.Dec? ==> NoSchemaIssue(S.NumberIssues(v, s, pointer))
  {
    hide S.Both, S.When, S.TooBig, S.TooSmall, S.Magnitude, S.WithinLimits, NoSchemaIssue;
    WhenQuiet(S.TooBig(n as real, s.maxItems), pointer, "max_items");
    WhenQuiet(S.TooSmall(n as real, s.minItems), pointer, "min_items");
    BothQuiet(S.When(S.TooBig(n as real, s.maxItems), S.At(pointer, "max_items")),
              S.When(S.TooSmall(n as real, s.minItems), S.At(pointer, "min_items")));
    if v.Str? { StringQuiet(v.s, s, isDate, pointer); }
    if v.Int? || v.Dec? { NumberQuiet(v, s, pointer); }
  }

  lemma StringQuiet(text: string, s: S.Schema, isDate: string -> bool, pointer: string)
    ensures NoSchemaIssue(S.StringIssues(text, s, isDate, pointer))
  {
    WhenQuiet(S.TooSmall(|text| as real, s.minLength), pointer, "min_length");
    WhenQuiet(S.TooBig(|text| as real, s.maxLength), pointer, "max_length");
    WhenQuiet(Ok(s.date && !isDate(text)), pointer, "format");
    var last: S.Found := Ok(if s.date && !isDate(text) then [S.At(pointer, "format")] else []);
    assert last == S.When(Ok(s.date && !isDate(text)), S.At(pointer, "format"));
    hide S.Both, S.When, S.TooBig, S.TooSmall, NoSchemaIssue;
    var high := S.When(S.TooBig(|text| as real, s.maxLength), S.At(pointer, "max_length"));
    BothQuiet(high, last);
    BothQuiet(S.When(S.TooSmall(|text| as real, s.minLength), S.At(pointer, "min_length")), S.Both(high, last));
  }

  lemma NumberQuiet(v: Value, s: S.Schema, pointer: string)
    requires v.Int? || v.Dec?
    ensures NoSchemaIssue(S.NumberIssues(v, s, pointer))
  {
    WhenQuiet(S.TooSmall(S.Magnitude(v), s.minimum), pointer, "minimum");
    WhenQuiet(S.TooBig(S.Magnitude(v), s.maximum), pointer, "maximum");
    hide S.When, S.TooBig, S.TooSmall, S.Magnitude, S.WithinLimits;
    BothQuiet(S.When(S.TooSmall(S.Magnitude(v), s.minimum), S.At(pointer, "minimum")),
              S.When(S.TooBig(S.Magnitude(v), s.maximum), S.At(pointer, "maximum")));
    hide S.Both;
  }

  lemma {:induction false} PropertyRead(fields: seq<Field>, key: string)
    ensures S.PropertyOf(ReadProperties(fields), key) ==
      match Lookup(fields, key) case Some(raw) => Some(Read(raw)) case None => None
  {
    hide Read;
    if fields != [] {
      PropertyRead(fields[1..], key);
      assert ReadProperties(fields)[1..] == ReadProperties(fields[1..]);
    }
  }

  lemma {:induction false} StrictField(fields: seq<Field>, key: string)
    requires StrictAll(fields) && Lookup(fields, key).Some?
    ensures Strict(Lookup(fields, key).value)
  {
    hide Strict;
    assert Field(key, Lookup(fields, key).value) in fields;
  }

  const OBJECT_KEYS := {"type", "additionalProperties", "properties", "required"}
  const ARRAY_KEYS := {"type", "items", "minItems", "maxItems"}
  const SCALAR_KEYS := {"type", "const", "enum", "format", "minLength", "maxLength", "minimum", "maximum"}

  lemma AbsentKey(raw: Value, allowed: set<string>, key: string)
    requires KeysWithin(raw, allowed) && key !in allowed
    ensures Get(raw, key).None?
  {
  }

  /** Which keywords a strict declaration can have. */
  lemma {:induction false} StrictKeys(raw: Value)
    requires Strict(raw)
    ensures var t := Get(raw, "type");
      if t == Some(Str("object")) then KeysWithin(raw, OBJECT_KEYS)
      else if t == Some(Str("array")) then KeysWithin(raw, ARRAY_KEYS)
      else KeysWithin(raw, SCALAR_KEYS)
  {
    hide StrictAll, StrictRequired, Prohibited, DistinctNames, Get, Texts;
  }

  /** Only objects have properties, only arrays have items. */
  lemma {:induction false} StrictHasNoOther(raw: Value)
    requires Strict(raw)
    ensures Get(raw, "type") != Some(Str("object")) ==> Get(raw, "properties").None?
    ensures Get(raw, "type") != Some(Str("array")) ==>
      Get(raw, "items").None? && Get(raw, "minItems").None? && Get(raw, "maxItems").None?
    ensures Get(raw, "type") == Some(Str("object")) || Get(raw, "type") == Some(Str("array")) ==>
      && Get(raw, "minimum").None? && Get(raw, "maximum").None?
      && Get(raw, "minLength").None? && Get(raw, "maxLength").None?
  {
    hide Strict, KeysWithin, Get;
    StrictKeys(raw);
    if Get(raw, "type") == Some(Str("object")) {
      NoScalarKeys(raw, OBJECT_KEYS);
      NoArrayKeys(raw, OBJECT_KEYS);
    } else if Get(raw, "type") == Some(Str("array")) {
      NoScalarKeys(raw, ARRAY_KEYS);
      AbsentKey(raw, ARRAY_KEYS, "properties");
    } else {
      NoArrayKeys(raw, SCALAR_KEYS);
      AbsentKey(raw, SCALAR_KEYS, "properties");
    }
  }

  lemma NoScalarKeys(raw: Value, allowed: set<string>)
    requires KeysWithin(raw, allowed) && (allowed == OBJECT_KEYS || allowed == ARRAY_KEYS)
    ensures Get(raw, "minimum").None? && Get(raw, "maximum").None?
    ensures Get(raw, "minLength").None? && Get(raw, "maxLength").None?
  {
    hide KeysWithin, Get;
    AbsentKey(raw, allowed, "minimum");
    AbsentKey(raw, allowed, "maximum");
    AbsentKey(raw, allowed, "minLength");
    AbsentKey(raw, allowed, "maxLength");
  }

  lemma NoArrayKeys(raw: Value, allowed: set<string>)
    requires KeysWithin(raw, allowed) && (allowed == OBJECT_KEYS || allowed == SCALAR_KEYS)
    ensures Get(raw, "items").None? && Get(raw, "minItems").None? && Get(raw, "maxItems").None?
  {
    hide KeysWithin, Get;
    AbsentKey(raw, allowed, "items");
    AbsentKey(raw, allowed, "minItems");
    AbsentKey(raw, allowed, "maxItems");
  }

  lemma {:induction false} StrictObjectParts(raw: Value)
    requires Strict(raw) && Get(raw, "type") == Some(Str("object"))
    ensures Get(raw, "properties").Some? && Get(raw, "properties").value.Obj?
    ensures StrictAll(Get(raw, "properties").value.fields)
    ensures forall i :: 0 <= i < |Get(raw, "properties").value.fields| ==>
      !Prohibited(Get(raw, "properties").value.fields[i].key)
    ensures Get(raw, "additionalProperties") == Some(Bool(false))
  {
    hide StrictAll, StrictRequired, Prohibited, KeysWithin, Get;
  }

  lemma {:induction false} StrictArrayParts(raw: Value)
    requires Strict(raw) && Get(raw, "type") == Some(Str("array"))
    ensures Get(raw, "items").Some? && Strict(Get(raw, "items").value)
    ensures NaturalOrAbsent(Get(raw, "minItems")) && NaturalOrAbsent(Get(raw, "maxItems"))
  {
    hide StrictAll, StrictRequired, Prohibited, KeysWithin, Get;
  }

  lemma {:induction false} ReadKeywords(raw: Value)
    ensures Read(raw).properties ==
      (match Get(raw, "properties") case Some(Obj(fields)) => ReadProperties(fields) case _ => [])
    ensures Read(raw).items ==
      (match Get(raw, "items") case Some(Obj(fields)) => Some(Read(Obj(fields))) case _ => None)
    ensures Read(raw).closed == (Get(raw, "additionalProperties") == Some(Bool(false)))
    ensures Read(raw).minItems == Get(raw, "minItems") && Read(raw).maxItems == Get(raw, "maxItems")
    ensures Read(raw).minLength == Get(raw, "minLength") && Read(raw).maxLength == Get(raw, "maxLength")
    ensures Read(raw).minimum == Get(raw, "minimum") && Read(raw).maximum == Get(raw, "maximum")
  {
    hide ReadProperties, TextsAt, Get;
  }

  lemma NothingStrict()
    ensures StrictAll([]) && ReadProperties([]) == []
  {
  }

  /** Properties and items of a strict declaration are strict declarations. */
  lemma StrictParts(raw: Value) returns (raws: seq<Field>)
    requires Strict(raw)
    ensures StrictAll(raws) && Read(raw).properties == ReadProperties(raws)
    ensures Get(raw, "properties").Some? ==> Get(raw, "properties") == Some(Obj(raws))
    ensures Get(raw, "properties").None? ==> raws == []
    ensures Read(raw).items.Some? ==> Get(raw, "items").Some? && Strict(Get(raw, "items").value)
                                      && Read(raw).items.value == Read(Get(raw, "items").value)
  {
    ReadKeywords(raw);
    StrictHasNoOther(raw);
    NothingStrict();
    if Get(raw, "type") == Some(Str("object")) { StrictObjectParts(raw); }
    if Get(raw, "type") == Some(Str("array")) { StrictArrayParts(raw); }
    hide Strict, StrictAll, Read, ReadProperties, Get;
    raws := if Get(raw, "properties").Some? then Get(raw, "properties").value.fields else [];
  }

  lemma {:induction false} FieldsQuiet(fields: seq<Field>, raws: seq<Field>, isDate: string -> bool, pointer: string)
    requires StrictAll(raws)
    ensures NoSchemaIssue(S.FieldIssues(fields, ReadProperties(raws), isDate, pointer))
    decreases fields, 0
  {
    hide S.AllIssues, S.Both, S.PropertyOf, Lookup, Read, ReadProperties, StrictAll, Strict;
    if fields != [] {
      var n := |fields| - 1;
      var key := fields[n].key;
      PropertyRead(raws, key);
      FieldsQuiet(fields[..n], raws, isDate, pointer);
      if Lookup(raws, key).Some? {
        StrictField(raws, key);
        NeverUnsupported(fields[n].value, Lookup(raws, key).value, isDate, pointer + "/" + key);
      }
      var declared := S.PropertyOf(ReadProperties(raws), key);
      BothQuiet(S.FieldIssues(fields[..n], ReadProperties(raws), isDate, pointer),
                if declared.None? then Ok([])
                else S.AllIssues(fields[n].value, declared.value, isDate, pointer + "/" + key));
    }
  }

  lemma {:induction false} ItemsQuiet(items: seq<Value>, raw: Value, isDate: string -> bool, pointer: string)
    requires Strict(raw)
    ensures NoSchemaIssue(S.ItemIssues(items, Read(raw), isDate, pointer))
    decreases items, 0
  {
    if items != [] {
      var n := |items| - 1;
      ItemsQuiet(items[..n], raw, isDate, pointer);
      NeverUnsupported(items[n], raw, isDate, pointer + "/" + S.IndexText(n));
      hide S.AllIssues, S.Both, S.IndexText, Read, Strict, NoSchemaIssue;
      BothQuiet(S.ItemIssues(items[..n], Read(raw), isDate, pointer),
                S.AllIssues(items[n], Read(raw), isDate, pointer + "/" + S.IndexText(n)));
    } else {
      hide Read, Strict;
    }
  }

  /** Along a strict declaration the validator never reports an unsupported one, whatever
      the value. */
  lemma {:induction false} NeverUnsupported(v: Value, raw: Value, isDate: string -> bool, pointer: string)
    requires Strict(raw)
    ensures NoSchemaIssue(S.AllIssues(v, Read(raw), isDate, pointer))
    decreases v, 1
  {
    var s := Read(raw);
    StrictIsSupported(raw);
    ValueQuiet(v, s, pointer);
    PartsQuiet(v, raw, isDate, pointer);
    NoneUnsupported(pointer);
    hide Read, Strict, S.PartIssues, S.ValueIssues, S.Both, S.MatchesSome, S.Supported, Mentions, NoSchemaIssue;
    OkQuiet(S.ValueIssues(v, s, pointer));
    BothQuiet(Ok(S.ValueIssues(v, s, pointer)), S.PartIssues(v, s, isDate, pointer));
  }

  lemma NoneUnsupported(pointer: string)
    ensures NoSchemaIssue(Ok([S.At(pointer, "type")]))
  {
  }

  lemma OkQuiet(issues: seq<S.Issue>)
    requires !Mentions(issues, "schema")
    ensures NoSchemaIssue(Ok(issues))
  {
  }

  lemma {:induction false} PartsQuiet(v: Value, raw: Value, isDate: string -> bool, pointer: string)
    requires Strict(raw)
    ensures NoSchemaIssue(S.PartIssues(v, Read(raw), isDate, pointer))
    decreases v, 0
  {
    hide Read, Strict, StrictAll, Get, ReadProperties, S.Both, S.LengthIssues, S.StringIssues, S.NumberIssues,
         S.RequiredIssues,
         S.UnknownIssues, NoSchemaIssue, Mentions, S.FieldIssues, S.ItemIssues;
    var s := Read(raw);
    var raws := StrictParts(raw);
    LeavesQuiet(v, s, isDate, pointer, if v.Arr? then |v.items| else 0);
    NothingQuiet();
    match v
    case Obj(fields) =>
      FieldsQuiet(fields, raws, isDate, pointer);
      ShapeQuiet(fields, s, pointer);
      BothQuiet(Ok(S.RequiredIssues(fields, s.required, pointer) + S.UnknownIssues(fields, s, pointer)),
                S.FieldIssues(fields, s.properties, isDate, pointer));
    case Arr(items) =>
      if s.items.Some? { ItemsQuiet(items, Get(raw, "items").value, isDate, pointer); }
      BothQuiet(S.LengthIssues(|items|, s, pointer),
                if s.items.Some? then S.ItemIssues(items, s.items.value, isDate, pointer) else Ok([]));
    case _ =>
  }

  lemma NothingQuiet()
    ensures NoSchemaIssue(Ok([]))
  {
  }

  lemma {:induction false} ShapeQuiet(fields: seq<Field>, s: S.Schema, pointer: string)
    ensures NoSchemaIssue(Ok(S.RequiredIssues(fields, s.required, pointer) + S.UnknownIssues(fields, s, pointer)))
  {
    RequiredQuiet(fields, s.required, pointer);
    UnknownQuiet(fields, s, pointer);
    hide S.RequiredIssues, S.UnknownIssues;
  }

  // ----- only declared keys, at every depth -----

  /** Every object key in `v` is declared where it stands, and none is prohibited. */
  predicate OnlyDeclaredKeys(v: Value, raw: Value)
    decreases v, 1
  {
    match v
    case Obj(fields) =>
      (match Get(raw, "properties")
       case Some(Obj(raws)) => KeysDeclared(fields, raws)
       case _ => false)
    case Arr(items) =>
      (match Get(raw, "items")
       case Some(child) => ItemKeysDeclared(items, child)
       case None => false)
    case _ => true
  }

  predicate KeysDeclared(fields: seq<Field>, raws: seq<Field>)
    decreases fields, 0
  {
    forall i :: 0 <= i < |fields| ==>
      && !Prohibited(fields[i].key) && Lookup(raws, fields[i].key).Some?
      && OnlyDeclaredKeys(fields[i].value, Lookup(raws, fields[i].key).value)
  }

  predicate ItemKeysDeclared(items: seq<Value>, raw: Value)
    decreases items, 0
  {
    forall i :: 0 <= i < |items| ==> OnlyDeclaredKeys(items[i], raw)
  }

  /** A value's shape says which kind of declaration it satisfies. */
  lemma {:induction false} StrictTypes(raw: Value, v: Value)
    requires Strict(raw) && S.Supported(Read(raw)) && S.MatchesSome(v, Read(raw).types.value)
    ensures v.Obj? ==> Get(raw, "type") == Some(Str("object"))
    ensures v.Arr? ==> Get(raw, "type") == Some(Str("array"))
  {
    hide ReadProperties, StrictAll, KeysWithin, StrictRequired, Texts, Get, Prohibited, DistinctNames;
  }

  lemma {:induction false} ConformsParts(v: Value, s: S.Schema, isDate: string -> bool)
    requires S.Conforms(v, s, isDate)
    ensures S.Supported(s) && S.MatchesSome(v, s.types.value)
    ensures v.Obj? && s.closed ==> S.OnlyDeclared(v.fields, s.properties)
    ensures v.Obj? ==> S.FieldsConform(v.fields, s.properties, isDate)
    ensures v.Arr? && s.items.Some? ==> S.ItemsConform(v.items, s.items.value, isDate)
  {
    hide S.Supported, S.MatchesSome, S.Equal, S.Among, HasKey, S.FieldsConform, S.ItemsConform, S.OnlyDeclared,
         S.AtLeast, S.AtMost,
         S.WithinLimits, S.Magnitude;
  }

  /** What a strict declaration validates has only declared keys, at every depth. */
  lemma {:induction false} ValidatedKeysAreDeclared(v: Value, raw: Value, isDate: string -> bool)
    requires Strict(raw) && S.Conforms(v, Read(raw), isDate)
    ensures OnlyDeclaredKeys(v, raw)
    decreases v, 1
  {
    ConformsParts(v, Read(raw), isDate);
    StrictTypes(raw, v);
    ReadKeywords(raw);
    hide Strict, Read, ReadProperties, Get, S.Supported, S.MatchesSome, S.Conforms, S.FieldsConform, S.ItemsConform,
         S.OnlyDeclared,
         StrictAll, KeysDeclared, ItemKeysDeclared, Prohibited;
    match v
    case Obj(fields) =>
      StrictObjectParts(raw);
      ObjectKeysDeclared(fields, Get(raw, "properties").value.fields, isDate);
    case Arr(items) =>
      StrictArrayParts(raw);
      StrictIsObject(Get(raw, "items").value);
      ArrayKeysDeclared(items, Get(raw, "items").value, isDate);
    case _ =>
  }

  lemma {:induction false} StrictIsObject(raw: Value)
    requires Strict(raw)
    ensures raw.Obj?
  {
  }

  lemma {:induction false} ObjectKeysDeclared(fields: seq<Field>, raws: seq<Field>, isDate: string -> bool)
    requires StrictAll(raws) && forall i :: 0 <= i < |raws| ==> !Prohibited(raws[i].key)
    requires S.OnlyDeclared(fields, ReadProperties(raws)) && S.FieldsConform(fields, ReadProperties(raws), isDate)
    ensures KeysDeclared(fields, raws)
    decreases fields, 0
  {
    hide Strict, StrictAll, Read, ReadProperties, S.PropertyOf, S.Conforms, Prohibited, OnlyDeclaredKeys;
    forall i | 0 <= i < |fields|
      ensures !Prohibited(fields[i].key) && Lookup(raws, fields[i].key).Some?
              && OnlyDeclaredKeys(fields[i].value, Lookup(raws, fields[i].key).value)
    {
      PropertyRead(raws, fields[i].key);
      assert S.PropertyOf(ReadProperties(raws), fields[i].key).Some?;
      StrictField(raws, fields[i].key);
      assert Field(fields[i].key, Lookup(raws, fields[i].key).value) in raws;
      ValidatedKeysAreDeclared(fields[i].value, Lookup(raws, fields[i].key).value, isDate);
    }
  }

  lemma {:induction false} ArrayKeysDeclared(items: seq<Value>, raw: Value, isDate: string -> bool)
    requires Strict(raw) && S.ItemsConform(items, Read(raw), isDate)
    ensures ItemKeysDeclared(items, raw)
    decreases items, 0
  {
    hide Strict, Read, S.Conforms, OnlyDeclaredKeys;
    forall i | 0 <= i < |items| ensures OnlyDeclaredKeys(items[i], raw) {
      ValidatedKeysAreDeclared(items[i], raw, isDate);
    }
  }

  // ----- bounds that are not numbers -----

  predicate NumericOrAbsent(v: Option<Value>) {
    v.Some? ==> S.Numeric(v.value)
  }

  /** What the strict check does not ask: that the bounds of scalars are numbers. */
  predicate BoundsNumeric(raw: Value)
    decreases raw, 1
  {
    && NumericOrAbsent(Get(raw, "minimum")) && NumericOrAbsent(Get(raw, "maximum"))
    && NumericOrAbsent(Get(raw, "minLength")) && NumericOrAbsent(Get(raw, "maxLength"))
    && (match Get(raw, "properties") case Some(Obj(fields)) => AllBoundsNumeric(fields) case _ => true)
    && (match Get(raw, "items") case Some(child) => BoundsNumeric(child) case _ => true)
  }

  predicate AllBoundsNumeric(fields: seq<Field>)
    decreases fields, 0
  {
    forall i :: 0 <= i < |fields| ==> BoundsNumeric(fields[i].value)
  }

  /** Nothing but a validation or a limit error. */
  predicate Safe(found: S.Found) {
    found != Err(OtherFault)
  }

  lemma BothSafe(a: S.Found, b: S.Found)
    requires Safe(a) && Safe(b)
    ensures Safe(S.Both(a, b))
  {
  }

  lemma LeavesSafe(v: Value, s: S.Schema, isDate: string -> bool, pointer: string, n: nat)
    requires NumericOrAbsent(s.minimum) && NumericOrAbsent(s.maximum)
    requires NumericOrAbsent(s.minLength) && NumericOrAbsent(s.maxLength)
    requires NumericOrAbsent(s.minItems) && NumericOrAbsent(s.maxItems)
    ensures Safe(S.LengthIssues(n, s, pointer))
    ensures v.Str? ==> Safe(S.StringIssues(v.s, s, isDate, pointer))
    ensures v.Int? || v.Dec? ==> Safe(S.NumberIssues(v, s, pointer))
  {
    hide S.Magnitude, S.WithinLimits;
  }

  lemma {:induction false} StrictItemBounds(raw: Value)
    requires Strict(raw)
    ensures NumericOrAbsent(Read(raw).minItems) && NumericOrAbsent(Read(raw).maxItems)
  {
    StrictHasNoOther(raw);
    ReadKeywords(raw);
    if Get(raw, "type") == Some(Str("array")) { StrictArrayParts(raw); }
    hide Strict, Read, Get;
  }

  lemma {:induction false} FieldsSafe(fields: seq<Field>, raws: seq<Field>, isDate: string -> bool, pointer: string)
    requires StrictAll(raws) && AllBoundsNumeric(raws)
    ensures Safe(S.FieldIssues(fields, ReadProperties(raws), isDate, pointer))
    decreases fields, 0
  {
    hide S.AllIssues, S.Both, S.PropertyOf, Lookup, Read, ReadProperties, StrictAll, Strict, AllBoundsNumeric,
         BoundsNumeric;
    if fields != [] {
      var n := |fields| - 1;
      var key := fields[n].key;
      PropertyRead(raws, key);
      FieldsSafe(fields[..n], raws, isDate, pointer);
      if Lookup(raws, key).Some? {
        StrictField(raws, key);
        NumericField(raws, key);
        NumericNeverRaises(fields[n].value, Lookup(raws, key).value, isDate, pointer + "/" + key);
      }
      var declared := S.PropertyOf(ReadProperties(raws), key);
      BothSafe(S.FieldIssues(fields[..n], ReadProperties(raws), isDate, pointer),
               if declared.None? then Ok([])
               else S.AllIssues(fields[n].value, declared.value, isDate, pointer + "/" + key));
    }
  }

  lemma {:induction false} NumericField(raws: seq<Field>, key: string)
    requires AllBoundsNumeric(raws) && Lookup(raws, key).Some?
    ensures BoundsNumeric(Lookup(raws, key).value)
  {
    hide Lookup, BoundsNumeric;
    var i :| 0 <= i < |raws| && raws[i] == Field(key, Lookup(raws, key).value);
  }

  lemma {:induction false} ItemsSafe(items: seq<Value>, raw: Value, isDate: string -> bool, pointer: string)
    requires Strict(raw) && BoundsNumeric(raw)
    ensures Safe(S.ItemIssues(items, Read(raw), isDate, pointer))
    decreases items, 0
  {
    hide Read, Strict, BoundsNumeric;
    if items != [] {
      var n := |items| - 1;
      ItemsSafe(items[..n], raw, isDate, pointer);
      NumericNeverRaises(items[n], raw, isDate, pointer + "/" + S.IndexText(n));
      hide S.AllIssues, S.Both, S.IndexText;
      BothSafe(S.ItemIssues(items[..n], Read(raw), isDate, pointer),
               S.AllIssues(items[n], Read(raw), isDate, pointer + "/" + S.IndexText(n)));
    }
  }

  lemma {:induction false} NumericNeverRaises(v: Value, raw: Value, isDate: string -> bool, pointer: string)
    requires Strict(raw) && BoundsNumeric(raw)
    ensures Safe(S.AllIssues(v, Read(raw), isDate, pointer))
    decreases v, 1
  {
    var s := Read(raw);
    PartsSafe(v, raw, isDate, pointer);
    hide Read, Strict, S.PartIssues, S.ValueIssues, S.Both, S.MatchesSome, S.Supported;
    BothSafe(Ok(S.ValueIssues(v, s, pointer)), S.PartIssues(v, s, isDate, pointer));
  }

  lemma {:induction false} ReadBounds(raw: Value)
    requires BoundsNumeric(raw)
    ensures var s := Read(raw);
      && NumericOrAbsent(s.minimum) && NumericOrAbsent(s.maximum)
      && NumericOrAbsent(s.minLength) && NumericOrAbsent(s.maxLength)
    ensures Get(raw, "items").Some? ==> BoundsNumeric(Get(raw, "items").value)
    ensures Get(raw, "properties").Some? && Get(raw, "properties").value.Obj? ==>
      AllBoundsNumeric(Get(raw, "properties").value.fields)
    ensures AllBoundsNumeric([])
  {
    ReadKeywords(raw);
    hide Read, Get;
  }

  lemma {:induction false} PartsSafe(v: Value, raw: Value, isDate: string -> bool, pointer: string)
    requires Strict(raw) && BoundsNumeric(raw)
    ensures Safe(S.PartIssues(v, Read(raw), isDate, pointer))
    decreases v, 0
  {
    var s := Read(raw);
    var raws := StrictParts(raw);
    StrictItemBounds(raw);
    ReadBounds(raw);
    LeavesSafe(v, s, isDate, pointer, if v.Arr? then |v.items| else 0);
    OkIsSafe([]);
    hide Read, Strict, StrictAll, Get, ReadProperties, BoundsNumeric, AllBoundsNumeric, S.Both, S.LengthIssues,
         S.StringIssues,
         S.NumberIssues, S.RequiredIssues, S.UnknownIssues, Safe;
    match v
    case Obj(fields) =>
      FieldsSafe(fields, raws, isDate, pointer);
      OkIsSafe(S.RequiredIssues(fields, s.required, pointer) + S.UnknownIssues(fields, s, pointer));
      BothSafe(Ok(S.RequiredIssues(fields, s.required, pointer) + S.UnknownIssues(fields, s, pointer)),
               S.FieldIssues(fields, s.properties, isDate, pointer));
    case Arr(items) =>
      if s.items.Some? { ItemsSafe(items, Get(raw, "items").value, isDate, pointer); }
      BothSafe(S.LengthIssues(|items|, s, pointer),
               if s.items.Some? then S.ItemIssues(items, s.items.value, isDate, pointer) else Ok([]));
    case _ =>
  }

  lemma OkIsSafe(issues: seq<S.Issue>)
    ensures Safe(Ok(issues))
  {
  }

  lemma {:induction false} ChildUnique(raw: Value, key: string)
    requires UniqueKeys(raw) && Get(raw, key).Some?
    ensures UniqueKeys(Get(raw, key).value)
  {
    var i :| 0 <= i < |raw.fields| && raw.fields[i] == Field(key, Get(raw, key).value);
  }

  /** Where the bounds of a strict declaration can be. */
  lemma {:induction false} StrictBoundsPlace(raw: Value)
    requires Strict(raw)
    ensures Get(raw, "type") == Some(Str("object")) ==>
      (BoundsNumeric(raw) <==> AllBoundsNumeric(Get(raw, "properties").value.fields))
    ensures Get(raw, "type") == Some(Str("array")) ==>
      (BoundsNumeric(raw) <==> BoundsNumeric(Get(raw, "items").value))
  {
    StrictHasNoOther(raw);
    if Get(raw, "type") == Some(Str("object")) { StrictObjectParts(raw); }
    if Get(raw, "type") == Some(Str("array")) { StrictArrayParts(raw); }
    hide Strict, Get;
  }

  /** Scalars: lengths only for strings, ranges only for numbers. */
  lemma {:induction false} StrictScalarBounds(raw: Value)
    requires Strict(raw) && Get(raw, "type") != Some(Str("object")) && Get(raw, "type") != Some(Str("array"))
    ensures BoundsNumeric(raw) <==>
      && NumericOrAbsent(Get(raw, "minimum")) && NumericOrAbsent(Get(raw, "maximum"))
      && NumericOrAbsent(Get(raw, "minLength")) && NumericOrAbsent(Get(raw, "maxLength"))
    ensures Get(raw, "type") != Some(Str("string")) ==> Get(raw, "minLength").None? && Get(raw, "maxLength").None?
    ensures Get(raw, "type") != Some(Str("integer")) && Get(raw, "type") != Some(Str("number")) ==>
      Get(raw, "minimum").None? && Get(raw, "maximum").None?
  {
    StrictHasNoOther(raw);
    var text, range := Get(raw, "type") == Some(Str("string")),
      Get(raw, "type") == Some(Str("integer")) || Get(raw, "type") == Some(Str("number"));
    var allowed := {"type", "const", "enum"} + (if text then {"format", "minLength", "maxLength"} else {})
      + (if range then {"minimum", "maximum"} else {});
    ScalarKeysWithin(raw, allowed);
    hide Strict, Get, KeysWithin;
    if !text {
      AbsentKey(raw, allowed, "minLength");
      AbsentKey(raw, allowed, "maxLength");
    }
    if !range {
      AbsentKey(raw, allowed, "minimum");
      AbsentKey(raw, allowed, "maximum");
    }
  }

  lemma {:induction false} ScalarKeysWithin(raw: Value, allowed: set<string>)
    requires Strict(raw) && Get(raw, "type") != Some(Str("object")) && Get(raw, "type") != Some(Str("array"))
    requires allowed == {"type", "const", "enum"}
      + (if Get(raw, "type") == Some(Str("string")) then {"format", "minLength", "maxLength"} else {})
      + (if Get(raw, "type") == Some(Str("integer")) || Get(raw, "type") == Some(Str("number"))
         then {"minimum", "maximum"} else {})
    ensures KeysWithin(raw, allowed)
  {
    hide StrictAll, StrictRequired, Prohibited, DistinctNames, Get, Texts;
  }

  lemma RaisedBehind(a: seq<S.Issue>, b: S.Found)
    requires !Safe(b)
    ensures !Safe(S.Both(Ok(a), b))
  {
  }

  /** A declaration with one type reads as that type. */
  lemma {:induction false} OneType(raw: Value, t: string)
    requires Get(raw, "type") == Some(Str(t)) && S.SupportedType(t)
    ensures S.Supported(Read(raw)) && Read(raw).types == Some([t])
  {
    hide ReadProperties, TextsAt, Get;
  }

  lemma TypeFound(v: Value, t: string)
    requires S.MatchesType(v, t)
    ensures S.MatchesSome(v, [t])
  {
    assert S.MatchesType(v, [t][0]);
  }

  lemma {:induction false} ObjectReaches(raw: Value, raws: seq<Field>, i: nat, inner: Value, isDate: string -> bool,
                                         pointer: string)
    requires Strict(raw) && Get(raw, "type") == Some(Str("object")) && Get(raw, "properties") == Some(Obj(raws))
    requires i < |raws| && UniqueFields(raws)
    requires !Safe(S.AllIssues(inner, Read(raws[i].value), isDate, pointer + "/" + raws[i].key))
    ensures !Safe(S.AllIssues(Obj([Field(raws[i].key, inner)]), Read(raw), isDate, pointer))
  {
    var fields := [Field(raws[i].key, inner)];
    var v, s := Obj(fields), Read(raw);
    OneType(raw, "object");
    TypeFound(v, "object");
    ReadKeywords(raw);
    PropertyRead(raws, raws[i].key);
    assert raws[i] in raws;
    LookupUnique(raws, raws[i]);
    assert fields[..0] == [];
    hide Strict, Read, Get, ReadProperties, Safe, S.Supported, S.MatchesSome, S.ValueIssues, S.PropertyOf,
         UniqueFields, Lookup;
    OneField(fields, s.properties, isDate, pointer, Read(raws[i].value));
    RaisedBehind(S.RequiredIssues(fields, s.required, pointer) + S.UnknownIssues(fields, s, pointer),
                 S.FieldIssues(fields, s.properties, isDate, pointer));
    RaisedBehind(S.ValueIssues(v, s, pointer), S.PartIssues(v, s, isDate, pointer));
  }

  lemma {:induction false} OneField(fields: seq<Field>, properties: seq<S.Property>, isDate: string -> bool,
                                    pointer: string, child: S.Schema)
    requires |fields| == 1 && S.PropertyOf(properties, fields[0].key) == Some(child)
    requires !Safe(S.AllIssues(fields[0].value, child, isDate, pointer + "/" + fields[0].key))
    ensures !Safe(S.FieldIssues(fields, properties, isDate, pointer))
  {
    hide S.AllIssues, S.PropertyOf;
    assert fields[..0] == [];
    RaisedBehind([], S.AllIssues(fields[0].value, child, isDate, pointer + "/" + fields[0].key));
  }

  lemma {:induction false} ArrayReaches(raw: Value, inner: Value, isDate: string -> bool, pointer: string)
    requires Strict(raw) && Get(raw, "type") == Some(Str("array"))
    requires Get(raw, "items").Some?
    requires !Safe(S.AllIssues(inner, Read(Get(raw, "items").value), isDate, pointer + "/" + S.IndexText(0)))
    ensures !Safe(S.AllIssues(Arr([inner]), Read(raw), isDate, pointer))
  {
    var v, s := Arr([inner]), Read(raw);
    OneType(raw, "array");
    TypeFound(v, "array");
    ReadKeywords(raw);
    StrictArrayParts(raw);
    StrictIsObject(Get(raw, "items").value);
    LengthNeverRaises(s, pointer);
    hide Strict, Read, Get, Safe, S.Supported, S.MatchesSome, S.ValueIssues, S.IndexText, S.LengthIssues;
    OneItem(inner, s.items.value, isDate, pointer);
    RaisedBehind(S.LengthIssues(1, s, pointer).value, S.ItemIssues([inner], s.items.value, isDate, pointer));
    RaisedBehind(S.ValueIssues(v, s, pointer), S.PartIssues(v, s, isDate, pointer));
  }

  lemma LengthNeverRaises(s: S.Schema, pointer: string)
    requires NaturalOrAbsent(s.minItems) && NaturalOrAbsent(s.maxItems)
    ensures S.LengthIssues(1, s, pointer).Ok?
  {
    hide S.Magnitude;
  }

  lemma {:induction false} OneItem(inner: Value, child: S.Schema, isDate: string -> bool, pointer: string)
    requires !Safe(S.AllIssues(inner, child, isDate, pointer + "/" + S.IndexText(0)))
    ensures !Safe(S.ItemIssues([inner], child, isDate, pointer))
  {
    hide S.AllIssues, S.IndexText;
    assert [inner][..0] == [];
    RaisedBehind([], S.AllIssues(inner, child, isDate, pointer + "/" + S.IndexText(0)));
  }

  lemma ScalarRaises(raw: Value, isDate: string -> bool, pointer: string) returns (v: Value)
    requires Strict(raw) && !BoundsNumeric(raw)
    requires Get(raw, "type") != Some(Str("object")) && Get(raw, "type") != Some(Str("array"))
    ensures !Safe(S.AllIssues(v, Read(raw), isDate, pointer))
  {
    hide Strict, Read, Get, BoundsNumeric, S.Supported, S.MatchesSome, S.ValueIssues, S.StringIssues, S.NumberIssues,
         S.Both;
    StrictScalarBounds(raw);
    ReadKeywords(raw);
    var s := Read(raw);
    v := if Get(raw, "type") == Some(Str("string")) then Str("") else Int(0);
    var t := if Get(raw, "type") == Some(Str("integer")) then "integer" else if v.Str? then "string" else "number";
    OneType(raw, t);
    TypeFound(v, t);
    if v.Str? { StringRaises(s, isDate, pointer); } else { NumberRaises(s, pointer); }
    RaisedBehind(S.ValueIssues(v, s, pointer), S.PartIssues(v, s, isDate, pointer));
  }

  lemma StringRaises(s: S.Schema, isDate: string -> bool, pointer: string)
    requires !NumericOrAbsent(s.minLength) || !NumericOrAbsent(s.maxLength)
    ensures !Safe(S.StringIssues("", s, isDate, pointer))
  {
    hide S.Magnitude;
  }

  lemma NumberRaises(s: S.Schema, pointer: string)
    requires !NumericOrAbsent(s.minimum) || !NumericOrAbsent(s.maximum)
    ensures !Safe(S.NumberIssues(Int(0), s, pointer))
  {
    assert S.WithinLimits(Int(0));
    hide S.Magnitude, S.WithinLimits;
  }

  /** The property whose declaration has a bound that is not a number. */
  lemma {:induction false} BadProperty(raw: Value) returns (raws: seq<Field>, i: nat)
    requires Strict(raw) && UniqueKeys(raw) && !BoundsNumeric(raw) && Get(raw, "type") == Some(Str("object"))
    ensures Get(raw, "properties") == Some(Obj(raws)) && i < |raws| && UniqueFields(raws)
    ensures Strict(raws[i].value) && UniqueKeys(raws[i].value) && !BoundsNumeric(raws[i].value)
    ensures raws[i].value < raw
  {
    StrictBoundsPlace(raw);
    StrictObjectParts(raw);
    ChildUnique(raw, "properties");
    raws := Get(raw, "properties").value.fields;
    ChildSmaller(raw, "properties");
    i :| 0 <= i < |raws| && !BoundsNumeric(raws[i].value);
    hide Strict, BoundsNumeric, Get;
    StrictInside(raws, i);
    assert raws[i].value < Obj(raws);
  }

  lemma {:induction false} BadItem(raw: Value) returns (item: Value)
    requires Strict(raw) && UniqueKeys(raw) && !BoundsNumeric(raw) && Get(raw, "type") == Some(Str("array"))
    ensures Get(raw, "items") == Some(item) && Strict(item) && UniqueKeys(item) && !BoundsNumeric(item) && item < raw
  {
    hide Strict, BoundsNumeric, Get;
    StrictBoundsPlace(raw);
    StrictArrayParts(raw);
    ChildUnique(raw, "items");
    ChildSmaller(raw, "items");
    item := Get(raw, "items").value;
  }

  lemma {:induction false} ChildSmaller(raw: Value, key: string)
    requires Get(raw, key).Some?
    ensures Get(raw, key).value < raw
  {
    assert Field(key, Get(raw, key).value) in raw.fields;
  }

  /** A bound that is not a number is met by some value, and the comparison then raises
      something other than the validator's own errors. */
  lemma {:induction false} BadBoundRaises(raw: Value, isDate: string -> bool, pointer: string) returns (v: Value)
    requires Strict(raw) && UniqueKeys(raw) && !BoundsNumeric(raw)
    ensures !Safe(S.AllIssues(v, Read(raw), isDate, pointer))
    decreases raw
  {
    hide Read, Safe, S.AllIssues, Strict, BoundsNumeric, Get, UniqueKeys, UniqueFields;
    if Get(raw, "type") == Some(Str("object")) {
      var raws, i := BadProperty(raw);
      var inner := BadBoundRaises(raws[i].value, isDate, pointer + "/" + raws[i].key);
      v := Obj([Field(raws[i].key, inner)]);
      ObjectReaches(raw, raws, i, inner, isDate, pointer);
    } else if Get(raw, "type") == Some(Str("array")) {
      var item := BadItem(raw);
      var inner := BadBoundRaises(item, isDate, pointer + "/" + S.IndexText(0));
      v := Arr([inner]);
      ArrayReaches(raw, inner, isDate, pointer);
    } else {
      v := ScalarRaises(raw, isDate, pointer);
    }
  }

  lemma {:induction false} StrictInside(raws: seq<Field>, i: nat)
    requires StrictAll(raws) && i < |raws|
    ensures Strict(raws[i].value)
  {
  }

  /** A strict declaration is safe on all values exactly when its bounds are numbers. */
  lemma {:induction false} SafeExactlyWithNumericBounds(raw: Value, isDate: string -> bool)
    requires Strict(raw) && UniqueKeys(raw)
    ensures (forall v :: Safe(S.AllIssues(v, Read(raw), isDate, ""))) <==> BoundsNumeric(raw)
  {
    hide Strict, Read, Safe, S.AllIssues, BoundsNumeric;
    if BoundsNumeric(raw) {
      forall v { NumericNeverRaises(v, raw, isDate, ""); }
    } else {
      var v := BadBoundRaises(raw, isDate, "");
      assert !Safe(S.AllIssues(v, Read(raw), isDate, ""));
    }
  }

  /** `{"type": "integer", "minimum": "x"}`. */
  function TextBound(): Value {
    Obj([Field("type", Str("integer")), Field("minimum", Str("x"))])
  }

  lemma TextBoundFields()
    ensures UniqueKeys(TextBound())
    ensures Get(TextBound(), "type") == Some(Str("integer")) && Get(TextBound(), "minimum") == Some(Str("x"))
    ensures Get(TextBound(), "enum") == None
  {
    assert |"type"| == 4 && |"minimum"| == 7 && |"enum"| == 4 && "type"[0] == 't' && "enum"[0] == 'e';
    var fields := TextBound().fields;
    assert fields[1..] == [Field("minimum", Str("x"))] && fields[1..][1..] == [];
  }

  /** An accepted declaration with a bound that is a text: it raises on zero. */
  lemma {:induction false} TextBoundRaises(isDate: string -> bool)
    ensures Strict(TextBound()) && UniqueKeys(TextBound()) && !BoundsNumeric(TextBound())
    ensures S.AllIssues(Int(0), Read(TextBound()), isDate, "") == Err(OtherFault)
  {
    TextBoundFields();
    hide Get, TextsAt, ReadProperties, S.Equal, S.Among, UniqueKeys;
    assert |"integer"| == 7 && |"object"| == 6 && |"array"| == 5 && |"string"| == 6;
    ZeroWithinLimits();
    var s := Read(TextBound());
    assert s.minimum == Some(Str("x"));
    assert S.NumberIssues(Int(0), s, "") == Err(OtherFault);
    assert s.types == Some(["integer"]) && s.types.value[0] == "integer";
    assert S.MatchesType(Int(0), s.types.value[0]);
  }

  lemma ZeroWithinLimits()
    ensures S.WithinLimits(Int(0))
  {
  }
}
