/**
 The contract language of the registry (quant_data/schema.py): a validator that walks a
 value along a schema and collects at most a fixed number of issues.
 */
module Schema {
  import opened Wrappers
  import opened Digits
  import opened Json
  import opened JsonCanonical

  // ----- schemas -----

  /** A declaration as the validator reads it: absent keywords are None or empty. The
      bounds are kept as found; nothing says they are numbers. */
  datatype Schema = Schema(
    types: Option<seq<string>>,
    fixed: Option<Value>,
    choices: Option<seq<Value>>,
    properties: seq<Property>,
    required: seq<string>,
    closed: bool,
    items: Option<Schema>,
    minItems: Option<Value>, maxItems: Option<Value>,
    minLength: Option<Value>, maxLength: Option<Value>,
    minimum: Option<Value>, maximum: Option<Value>,
    date: bool)

  datatype Property = Property(name: string, schema: Schema)

  datatype Issue = Issue(pointer: string, rule: string)

  predicate SupportedType(t: string) {
    t == "object" || t == "array" || t == "string" || t == "integer" || t == "number" || t == "boolean" || t == "null"
  }

  predicate Supported(s: Schema) {
    && s.types.Some? && s.types.value != []
    && forall i :: 0 <= i < |s.types.value| ==> SupportedType(s.types.value[i])
  }

  /** `_matches_type`. */
  predicate MatchesType(v: Value, t: string) {
    match v
    case Null => t == "null"
    case Obj(_) => t == "object"
    case Arr(_) => t == "array"
    case Str(_) => t == "string"
    case Int(_) => t == "integer" || t == "number"
    case Dec(_) => t == "number"
    case Bool(_) => t == "boolean"
    case NonFinite => false
  }

  predicate MatchesSome(v: Value, types: seq<string>) {
    exists i :: 0 <= i < |types| && MatchesType(v, types[i])
  }

  function PropertyOf(properties: seq<Property>, name: string): (r: Option<Schema>)
    ensures r.Some? ==> exists i :: 0 <= i < |properties| && properties[i] == Property(name, r.value)
  {
    if properties == [] then None
    else if properties[0].name == name then
      assert properties[0] == Property(name, properties[0].schema);
      Some(properties[0].schema)
    else
      var r := PropertyOf(properties[1..], name);
      assert r.Some? ==> forall i :: 0 <= i < |properties[1..]| ==> properties[1..][i] == properties[i + 1];
      r
  }

  // ----- Python comparisons -----

  /** Numbers as Python compares them; True is 1 and False is 0. */
  predicate Numeric(v: Value) {
    v.Bool? || v.Int? || v.Dec?
  }

  function Magnitude(v: Value): real
    requires Numeric(v)
  {
    match v
    case Bool(b) => if b then 1.0 else 0.0
    case _ => NumberValue(v)
  }

  /** `v == w`. */
  predicate Equal(v: Value, w: Value) {
    if Numeric(v) && Numeric(w) then Magnitude(v) == Magnitude(w)
    else match (v, w)
      case (Arr(items), Arr(others)) =>
        |items| == |others| && forall i :: 0 <= i < |items| ==> Equal(items[i], others[i])
      case (Obj(fields), Obj(others)) =>
        && |fields| == |others|
        && forall i :: 0 <= i < |fields| ==>
             Lookup(others, fields[i].key).Some? && Equal(fields[i].value, Lookup(others, fields[i].key).value)
      case (Null, Null) => true
      case (Str(a), Str(b)) => a == b
      case _ => false
  }

  predicate Among(v: Value, choices: seq<Value>) {
    exists i :: 0 <= i < |choices| && Equal(v, choices[i])
  }

  /** An absent bound never fails, one that is not a number cannot be compared with. */
  function TooSmall(x: real, bound: Option<Value>): Result<bool, Fault> {
    match bound
    case None => Ok(false)
    case Some(b) => if Numeric(b) then Ok(x < Magnitude(b)) else Err(OtherFault)
  }

  function TooBig(x: real, bound: Option<Value>): Result<bool, Fault> {
    match bound
    case None => Ok(false)
    case Some(b) => if Numeric(b) then Ok(x > Magnitude(b)) else Err(OtherFault)
  }

  predicate WithinLimits(v: Value) {
    match v
    case Int(i) => IntegerWithinLimits(i)
    case Dec(d) => DecimalWithinLimits(d)
    case _ => true
  }

  // ----- all issues of a value -----

  type Found = Result<seq<Issue>, Fault>

  function At(pointer: string, rule: string): Issue {
    Issue(if pointer == "" then "/" else pointer, rule)
  }

  function When(failed: Result<bool, Fault>, issue: Issue): Found {
    match failed
    case Err(e) => Err(e)
    case Ok(yes) => Ok(if yes then [issue] else [])
  }

  /** First `a`, then `b`; an exception ends the walk. */
  function Both(a: Found, b: Found): Found {
    match a
    case Err(e) => Err(e)
    case Ok(x) =>
      match b
      case Err(e) => Err(e)
      case Ok(y) => Ok(x + y)
  }

  function ValueIssues(v: Value, s: Schema, pointer: string): seq<Issue> {
    (if s.fixed.Some? && !Equal(v, s.fixed.value) then [At(pointer, "const")] else [])
    + (if s.choices.Some? && !Among(v, s.choices.value) then [At(pointer, "enum")] else [])
  }

  function RequiredIssues(fields: seq<Field>, required: seq<string>, pointer: string): seq<Issue> {
    if required == [] then []
    else
      var n := |required| - 1;
      RequiredIssues(fields, required[..n], pointer)
      + (if HasKey(fields, required[n]) then [] else [At(pointer + "/" + required[n], "required")])
  }

  function UnknownIssues(fields: seq<Field>, s: Schema, pointer: string): seq<Issue> {
    if fields == [] then []
    else
      var n := |fields| - 1;
      UnknownIssues(fields[..n], s, pointer)
      + (if s.closed && PropertyOf(s.properties, fields[n].key).None?
         then [At(pointer + "/" + fields[n].key, "additional_properties")] else [])
  }

  function IndexText(i: nat): string {
    NatText(i)
  }

  function StringIssues(text: string, s: Schema, isDate: string -> bool, pointer: string): Found {
    Both(When(TooSmall(|text| as real, s.minLength), At(pointer, "min_length")),
         Both(When(TooBig(|text| as real, s.maxLength), At(pointer, "max_length")),
              Ok(if s.date && !isDate(text) then [At(pointer, "format")] else [])))
  }

  function NumberIssues(v: Value, s: Schema, pointer: string): Found
    requires v.Int? || v.Dec?
  {
    if !WithinLimits(v) then Err(ResourceLimit)
    else Both(When(TooSmall(Magnitude(v), s.minimum), At(pointer, "minimum")),
              When(TooBig(Magnitude(v), s.maximum), At(pointer, "maximum")))
  }

  function LengthIssues(n: nat, s: Schema, pointer: string): Found {
    Both(When(TooBig(n as real, s.maxItems), At(pointer, "max_items")),
         When(TooSmall(n as real, s.minItems), At(pointer, "min_items")))
  }

  /** Everything `visit` reports about a value, the cap aside. */
  function AllIssues(v: Value, s: Schema, isDate: string -> bool, pointer: string): Found
    decreases v, 2
  {
    if !Supported(s) then Ok([At(pointer, "schema")])
    else if !MatchesSome(v, s.types.value) then Ok([At(pointer, "type")])
    else Both(Ok(ValueIssues(v, s, pointer)), PartIssues(v, s, isDate, pointer))
  }

  function PartIssues(v: Value, s: Schema, isDate: string -> bool, pointer: string): Found
    decreases v, 1
  {
    match v
    case Obj(fields) =>
      Both(Ok(RequiredIssues(fields, s.required, pointer) + UnknownIssues(fields, s, pointer)),
           FieldIssues(fields, s.properties, isDate, pointer))
    case Arr(items) =>
      Both(LengthIssues(|items|, s, pointer),
           if s.items.Some? then ItemIssues(items, s.items.value, isDate, pointer) else Ok([]))
    case Str(text) => StringIssues(text, s, isDate, pointer)
    case Int(_) => NumberIssues(v, s, pointer)
    case Dec(_) => NumberIssues(v, s, pointer)
    case _ => Ok([])
  }

  function FieldIssues(fields: seq<Field>, properties: seq<Property>, isDate: string -> bool, pointer: string): Found
    decreases fields, 0
  {
    if fields == [] then Ok([])
    else
      var n := |fields| - 1;
      var declared := PropertyOf(properties, fields[n].key);
      Both(FieldIssues(fields[..n], properties, isDate, pointer),
           if declared.None? then Ok([])
           else AllIssues(fields[n].value, declared.value, isDate, pointer + "/" + fields[n].key))
  }

  function ItemIssues(items: seq<Value>, child: Schema, isDate: string -> bool, pointer: string): Found
    decreases items, 0
  {
    if items == [] then Ok([])
    else
      var n := |items| - 1;
      Both(ItemIssues(items[..n], child, isDate, pointer),
           AllIssues(items[n], child, isDate, pointer + "/" + IndexText(n)))
  }

  // ----- the meaning of a schema -----

  predicate AtLeast(x: real, bound: Option<Value>) {
    bound.Some? ==> Numeric(bound.value) && x >= Magnitude(bound.value)
  }

  predicate AtMost(x: real, bound: Option<Value>) {
    bound.Some? ==> Numeric(bound.value) && x <= Magnitude(bound.value)
  }

  /** `v` satisfies `s`. */
  predicate Conforms(v: Value, s: Schema, isDate: string -> bool)
    decreases v, 2
  {
    && Supported(s) && MatchesSome(v, s.types.value)
    && (s.fixed.Some? ==> Equal(v, s.fixed.value))
    && (s.choices.Some? ==> Among(v, s.choices.value))
    && PartsConform(v, s, isDate)
  }

  predicate PartsConform(v: Value, s: Schema, isDate: string -> bool)
    decreases v, 1
  {
    match v
    case Obj(fields) =>
      && (forall i :: 0 <= i < |s.required| ==> HasKey(fields, s.required[i]))
      && (s.closed ==> OnlyDeclared(fields, s.properties))
      && FieldsConform(fields, s.properties, isDate)
    case Arr(items) =>
      && AtLeast(|items| as real, s.minItems) && AtMost(|items| as real, s.maxItems)
      && (s.items.Some? ==> ItemsConform(items, s.items.value, isDate))
    case Str(text) =>
      && AtLeast(|text| as real, s.minLength) && AtMost(|text| as real, s.maxLength)
      && (s.date ==> isDate(text))
    case Int(_) => WithinLimits(v) && AtLeast(Magnitude(v), s.minimum) && AtMost(Magnitude(v), s.maximum)
    case Dec(_) => WithinLimits(v) && AtLeast(Magnitude(v), s.minimum) && AtMost(Magnitude(v), s.maximum)
    case _ => true
  }

  predicate OnlyDeclared(fields: seq<Field>, properties: seq<Property>) {
    forall i :: 0 <= i < |fields| ==> PropertyOf(properties, fields[i].key).Some?
  }

  /** Every field with a declared property satisfies its schema. */
  predicate FieldsConform(fields: seq<Field>, properties: seq<Property>, isDate: string -> bool)
    decreases fields, 0
  {
    forall i :: 0 <= i < |fields| ==>
      PropertyOf(properties, fields[i].key).Some? ==>
      Conforms(fields[i].value, PropertyOf(properties, fields[i].key).value, isDate)
  }

  predicate ItemsConform(items: seq<Value>, child: Schema, isDate: string -> bool)
    decreases items, 0
  {
    forall i :: 0 <= i < |items| ==> Conforms(items[i], child, isDate)
  }

  // ----- no issues means conforming -----

  lemma BothClean(a: Found, b: Found)
    ensures Both(a, b) == Ok([]) <==> a == Ok([]) && b == Ok([])
  {
    if a.Ok? && b.Ok? { assert |a.value + b.value| == |a.value| + |b.value|; }
  }

  lemma {:induction false} ValueClean(v: Value, s: Schema, pointer: string)
    ensures ValueIssues(v, s, pointer) == [] <==>
      (s.fixed.Some? ==> Equal(v, s.fixed.value)) && (s.choices.Some? ==> Among(v, s.choices.value))
  {
    hide Equal, Among;
    var a := if s.fixed.Some? && !Equal(v, s.fixed.value) then [At(pointer, "const")] else [];
    var b := if s.choices.Some? && !Among(v, s.choices.value) then [At(pointer, "enum")] else [];
    assert |ValueIssues(v, s, pointer)| == |a| + |b|;
  }

  lemma {:induction false} RequiredClean(fields: seq<Field>, required: seq<string>, pointer: string)
    ensures RequiredIssues(fields, required, pointer) == [] <==>
      forall i :: 0 <= i < |required| ==> HasKey(fields, required[i])
  {
    hide HasKey;
    if required != [] {
      var n := |required| - 1;
      RequiredClean(fields, required[..n], pointer);
      assert forall i :: 0 <= i < n ==> required[..n][i] == required[i];
    }
  }

  lemma {:induction false} UnknownClean(fields: seq<Field>, s: Schema, pointer: string)
    ensures UnknownIssues(fields, s, pointer) == [] <==> (s.closed ==> OnlyDeclared(fields, s.properties))
  {
    hide PropertyOf;
    if fields != [] {
      var n := |fields| - 1;
      UnknownClean(fields[..n], s, pointer);
      assert forall i :: 0 <= i < n ==> fields[..n][i] == fields[i];
    }
  }

  lemma BoundsClean(x: real, low: Option<Value>, high: Option<Value>, a: Issue, b: Issue)
    ensures When(TooSmall(x, low), a) == Ok([]) <==> AtLeast(x, low)
    ensures When(TooBig(x, high), b) == Ok([]) <==> AtMost(x, high)
  {
    hide NumberValue;
  }

  /** Nothing is reported about a value exactly when it satisfies the schema. */
  lemma {:induction false} CleanExactly(v: Value, s: Schema, isDate: string -> bool, pointer: string)
    ensures AllIssues(v, s, isDate, pointer) == Ok([]) <==> Conforms(v, s, isDate)
    decreases v, 2
  {
    PartsClean(v, s, isDate, pointer);
    ValueClean(v, s, pointer);
    hide PartIssues, PartsConform, Equal, Among, Supported, MatchesSome, Both, ValueIssues;
    BothClean(Ok(ValueIssues(v, s, pointer)), PartIssues(v, s, isDate, pointer));
  }

  lemma {:induction false} PartsClean(v: Value, s: Schema, isDate: string -> bool, pointer: string)
    ensures PartIssues(v, s, isDate, pointer) == Ok([]) <==> PartsConform(v, s, isDate)
    decreases v, 1
  {
    hide Both, FieldIssues, FieldsConform, RequiredIssues, UnknownIssues, OnlyDeclared, HasKey;
    hide Both, ItemIssues, ItemsConform, LengthIssues, AtLeast, AtMost;
    match v
    case Obj(fields) =>
      RequiredClean(fields, s.required, pointer);
      UnknownClean(fields, s, pointer);
      FieldsClean(fields, s.properties, isDate, pointer);
      var missing, unknown := RequiredIssues(fields, s.required, pointer), UnknownIssues(fields, s, pointer);
      assert |missing + unknown| == |missing| + |unknown|;
      BothClean(Ok(RequiredIssues(fields, s.required, pointer) + UnknownIssues(fields, s, pointer)),
                FieldIssues(fields, s.properties, isDate, pointer));
    case Arr(items) =>
      if s.items.Some? { ItemsClean(items, s.items.value, isDate, pointer); }
      LengthClean(|items|, s, pointer);
      BothClean(LengthIssues(|items|, s, pointer),
                if s.items.Some? then ItemIssues(items, s.items.value, isDate, pointer) else Ok([]));
    case Str(text) => StringClean(text, s, isDate, pointer);
    case Int(_) => NumberClean(v, s, pointer);
    case Dec(_) => NumberClean(v, s, pointer);
    case _ =>
  }

  lemma LengthClean(n: nat, s: Schema, pointer: string)
    ensures LengthIssues(n, s, pointer) == Ok([]) <==> AtLeast(n as real, s.minItems) && AtMost(n as real, s.maxItems)
  {
    hide Both, When, TooSmall, TooBig, AtLeast, AtMost;
    BoundsClean(n as real, s.minItems, s.maxItems, At(pointer, "min_items"), At(pointer, "max_items"));
    BothClean(When(TooBig(n as real, s.maxItems), At(pointer, "max_items")),
              When(TooSmall(n as real, s.minItems), At(pointer, "min_items")));
  }

  lemma StringClean(text: string, s: Schema, isDate: string -> bool, pointer: string)
    ensures StringIssues(text, s, isDate, pointer) == Ok([]) <==>
      AtLeast(|text| as real, s.minLength) && AtMost(|text| as real, s.maxLength) && (s.date ==> isDate(text))
  {
    hide Both, When, TooSmall, TooBig, AtLeast, AtMost;
    BoundsClean(|text| as real, s.minLength, s.maxLength, At(pointer, "min_length"), At(pointer, "max_length"));
    var long := When(TooBig(|text| as real, s.maxLength), At(pointer, "max_length"));
    var format := if s.date && !isDate(text) then [At(pointer, "format")] else [];
    BothClean(long, Ok(format));
    BothClean(When(TooSmall(|text| as real, s.minLength), At(pointer, "min_length")), Both(long, Ok(format)));
  }

  lemma NumberClean(v: Value, s: Schema, pointer: string)
    requires v.Int? || v.Dec?
    ensures NumberIssues(v, s, pointer) == Ok([]) <==>
      WithinLimits(v) && AtLeast(Magnitude(v), s.minimum) && AtMost(Magnitude(v), s.maximum)
  {
    hide When, AtLeast, AtMost, WithinLimits, Magnitude, Both, TooSmall, TooBig;
    BoundsClean(Magnitude(v), s.minimum, s.maximum, At(pointer, "minimum"), At(pointer, "maximum"));
    BothClean(When(TooSmall(Magnitude(v), s.minimum), At(pointer, "minimum")),
              When(TooBig(Magnitude(v), s.maximum), At(pointer, "maximum")));
  }

  lemma {:induction false} FieldsClean(fields: seq<Field>, properties: seq<Property>, isDate: string -> bool,
                                       pointer: string)
    ensures FieldIssues(fields, properties, isDate, pointer) == Ok([]) <==> FieldsConform(fields, properties, isDate)
    decreases fields, 0
  {
    hide AllIssues, Conforms, Both, PropertyOf;
    if fields != [] {
      var n := |fields| - 1;
      var declared := PropertyOf(properties, fields[n].key);
      var path := pointer + "/" + fields[n].key;
      FieldsClean(fields[..n], properties, isDate, pointer);
      if declared.Some? { CleanExactly(fields[n].value, declared.value, isDate, path); }
      BothClean(FieldIssues(fields[..n], properties, isDate, pointer),
                if declared.Some? then AllIssues(fields[n].value, declared.value, isDate, path) else Ok([]));
      assert forall i :: 0 <= i < n ==> fields[..n][i] == fields[i];
    }
  }

  lemma {:induction false} ItemsClean(items: seq<Value>, child: Schema, isDate: string -> bool, pointer: string)
    ensures ItemIssues(items, child, isDate, pointer) == Ok([]) <==> ItemsConform(items, child, isDate)
    decreases items, 0
  {
    hide AllIssues, Conforms, Both, IndexText;
    if items != [] {
      var n := |items| - 1;
      ItemsClean(items[..n], child, isDate, pointer);
      CleanExactly(items[n], child, isDate, pointer + "/" + IndexText(n));
      BothClean(ItemIssues(items[..n], child, isDate, pointer),
                AllIssues(items[n], child, isDate, pointer + "/" + IndexText(n)));
      assert forall i :: 0 <= i < n ==> items[..n][i] == items[i];
    }
  }

  // ----- the cap -----

  function Add(issues: seq<Issue>, issue: Issue, cap: int): seq<Issue> {
    if |issues| < cap then issues + [issue] else issues
  }

  function AddAll(issues: seq<Issue>, more: seq<Issue>, cap: int): seq<Issue> {
    if more == [] then issues else Add(AddAll(issues, more[..|more| - 1], cap), more[|more| - 1], cap)
  }

  function Capped(issues: seq<Issue>, more: Found, cap: int): Found {
    match more
    case Err(e) => Err(e)
    case Ok(m) => Ok(AddAll(issues, m, cap))
  }

  lemma {:induction false} AddAllConcat(issues: seq<Issue>, a: seq<Issue>, b: seq<Issue>, cap: int)
    ensures AddAll(issues, a + b, cap) == AddAll(AddAll(issues, a, cap), b, cap)
  {
    if b == [] {
      assert a + b == a;
    } else {
      var n := |b| - 1;
      assert (a + b)[..|a| + n] == a + b[..n];
      AddAllConcat(issues, a, b[..n], cap);
    }
  }

  lemma {:induction false} AddAllLast(more: seq<Issue>, cap: int)
    requires more != []
    ensures AddAll([], more, cap) == Add(AddAll([], more[..|more| - 1], cap), more[|more| - 1], cap)
  {
  }

  /** The cap keeps the first issues; it never keeps none when there are some. */
  lemma {:induction false} CapKeepsTheFirst(more: seq<Issue>, cap: int)
    requires cap >= 0
    ensures AddAll([], more, cap) == if |more| <= cap then more else more[..cap]
  {
    if more != [] {
      var n := |more| - 1;
      AddAllLast(more, cap);
      hide AddAll;
      CapKeepsTheFirst(more[..n], cap);
      assert more == more[..n] + [more[n]];
      if n > cap { assert more[..n][..cap] == more[..cap]; }
    }
  }

  lemma {:induction false} NoCapNoIssues(more: seq<Issue>, cap: int)
    requires cap <= 0
    ensures AddAll([], more, cap) == []
  {
    if more != [] { NoCapNoIssues(more[..|more| - 1], cap); }
  }

  /** `validate_schema`. */
  function Validated(v: Value, s: Schema, isDate: string -> bool, cap: int): Result<(), (Fault, seq<Issue>)> {
    match Capped([], AllIssues(v, s, isDate, ""), cap)
    case Err(e) => Err((e, []))
    case Ok(issues) => if issues != [] then Err((ValidationFault, issues)) else Ok(())
  }

  /** With room for one issue, exactly the values that satisfy the schema are accepted. */
  lemma {:induction false} AcceptsExactly(v: Value, s: Schema, isDate: string -> bool, cap: int)
    requires cap >= 1
    ensures Validated(v, s, isDate, cap).Ok? <==> Conforms(v, s, isDate)
  {
    CleanExactly(v, s, isDate, "");
    hide AllIssues, Conforms;
    var all := AllIssues(v, s, isDate, "");
    if all.Ok? { CapKeepsTheFirst(all.value, cap); }
  }

  /** With no room, everything that raises no exception is accepted: the smallest cap at
      which the validator means what the schema says is one. */
  lemma {:induction false} WithoutRoomAcceptsAnything(v: Value, s: Schema, isDate: string -> bool, cap: int)
    requires cap <= 0
    ensures Validated(v, s, isDate, cap).Ok? <==> AllIssues(v, s, isDate, "").Ok?
  {
    hide AllIssues;
    var all := AllIssues(v, s, isDate, "");
    if all.Ok? { NoCapNoIssues(all.value, cap); }
  }

  /** Only integers. */
  function IntegersOnly(): Schema {
    Schema(Some(["integer"]), None, None, [], [], false, None, None, None, None, None, None, None, false)
  }

  /** A value that violates its schema is accepted when there is no room for the issue. */
  lemma {:induction false} NullPassesForAnInteger(isDate: string -> bool, cap: int)
    requires cap <= 0
    ensures !Conforms(Null, IntegersOnly(), isDate) && Validated(Null, IntegersOnly(), isDate, cap).Ok?
  {
    assert |"integer"| == 7 && |"null"| == 4;
    WithoutRoomAcceptsAnything(Null, IntegersOnly(), isDate, cap);
    hide Validated;
    assert !MatchesSome(Null, ["integer"]);
  }

  /** Acceptance means the schema, for all values and schemas, exactly from a cap of one on. */
  lemma {:induction false} CapDecides(isDate: string -> bool, cap: int)
    ensures cap >= 1 <==> forall v, s :: Validated(v, s, isDate, cap).Ok? <==> Conforms(v, s, isDate)
  {
    hide Validated, Conforms;
    if cap >= 1 {
      forall v, s ensures Validated(v, s, isDate, cap).Ok? <==> Conforms(v, s, isDate) {
        AcceptsExactly(v, s, isDate, cap);
      }
    } else {
      NullPassesForAnInteger(isDate, cap);
    }
  }

  // ----- the walk -----

  lemma BothCapped(issues: seq<Issue>, a: Found, b: Found, cap: int)
    ensures Capped(issues, Both(a, b), cap) ==
      match Capped(issues, a, cap)
      case Err(e) => Err(e)
      case Ok(mid) => Capped(mid, b, cap)
  {
    if a.Ok? && b.Ok? { AddAllConcat(issues, a.value, b.value, cap); }
    hide AddAll;
  }

  lemma {:induction false} AddOne(issues: seq<Issue>, issue: Issue, cap: int)
    ensures AddAll(issues, [issue], cap) == Add(issues, issue, cap) && AddAll(issues, [], cap) == issues
  {
    assert [issue][..0] == [];
  }

  lemma {:induction false} AddNone(issues: seq<Issue>, cap: int)
    ensures AddAll(issues, [], cap) == issues
  {
  }

  /** `add`, under a condition that may itself raise. */
  method AddWhen(issues: seq<Issue>, failed: Result<bool, Fault>, issue: Issue, cap: int) returns (r: Found)
    ensures r == Capped(issues, When(failed, issue), cap)
  {
    AddOne(issues, issue, cap);
    hide AddAll;
    if failed.Err? { return Err(failed.error); }
    r := Ok(if failed.value then Add(issues, issue, cap) else issues);
  }

  /** `visit`: one value, its issues appended to those found so far. */
  method Visit(v: Value, s: Schema, isDate: string -> bool, pointer: string, issues: seq<Issue>, cap: int)
    returns (r: Found)
    ensures r == Capped(issues, AllIssues(v, s, isDate, pointer), cap)
    decreases v, 2
  {
    AddOne(issues, At(pointer, "schema"), cap);
    AddOne(issues, At(pointer, "type"), cap);
    hide AddAll, PartIssues, Both, SupportedType, MatchesSome, Equal, Among, ValueIssues;
    if !Supported(s) { return Ok(Add(issues, At(pointer, "schema"), cap)); }
    if !MatchesSome(v, s.types.value) { return Ok(Add(issues, At(pointer, "type"), cap)); }
    BothCapped(issues, Ok(ValueIssues(v, s, pointer)), PartIssues(v, s, isDate, pointer), cap);
    var own := VisitValue(v, s, pointer, issues, cap);
    r := VisitParts(v, s, isDate, pointer, own, cap);
  }

  method VisitValue(v: Value, s: Schema, pointer: string, issues: seq<Issue>, cap: int) returns (r: seq<Issue>)
    ensures r == AddAll(issues, ValueIssues(v, s, pointer), cap)
  {
    var a := if s.fixed.Some? && !Equal(v, s.fixed.value) then [At(pointer, "const")] else [];
    var b := if s.choices.Some? && !Among(v, s.choices.value) then [At(pointer, "enum")] else [];
    hide Equal, Among;
    AddAllConcat(issues, a, b, cap);
    AddOne(issues, At(pointer, "const"), cap);
    r := if a == [] then issues else Add(issues, At(pointer, "const"), cap);
    AddOne(r, At(pointer, "enum"), cap);
    hide AddAll;
    r := if b == [] then r else Add(r, At(pointer, "enum"), cap);
  }

  method VisitParts(v: Value, s: Schema, isDate: string -> bool, pointer: string, issues: seq<Issue>, cap: int)
    returns (r: Found)
    ensures r == Capped(issues, PartIssues(v, s, isDate, pointer), cap)
    decreases v, 1
  {
    hide AddAll, Both, FieldIssues, ItemIssues, RequiredIssues, UnknownIssues, WithinLimits, Magnitude, TooSmall,
         TooBig, When;
    match v
    case Obj(fields) =>
      var missing, unknown := RequiredIssues(fields, s.required, pointer), UnknownIssues(fields, s, pointer);
      BothCapped(issues, Ok(missing + unknown), FieldIssues(fields, s.properties, isDate, pointer), cap);
      AddAllConcat(issues, missing, unknown, cap);
      var found := VisitShape(fields, s, pointer, issues, cap);
      r := VisitFields(fields, s.properties, isDate, pointer, found, cap);
    case Arr(items) =>
      var rest: Found := if s.items.Some? then ItemIssues(items, s.items.value, isDate, pointer) else Ok([]);
      BothCapped(issues, LengthIssues(|items|, s, pointer), rest, cap);
      r := VisitLength(|items|, s, pointer, issues, cap);
      if r.Err? { return; }
      if s.items.Some? {
        r := VisitItems(items, s.items.value, isDate, pointer, r.value, cap);
      } else {
        AddNone(r.value, cap);
      }
    case Str(text) => r := VisitString(text, s, isDate, pointer, issues, cap);
    case Int(_) => r := VisitNumber(v, s, pointer, issues, cap);
    case Dec(_) => r := VisitNumber(v, s, pointer, issues, cap);
    case _ =>
      AddNone(issues, cap);
      r := Ok(issues);
  }

  method VisitLength(n: nat, s: Schema, pointer: string, issues: seq<Issue>, cap: int) returns (r: Found)
    ensures r == Capped(issues, LengthIssues(n, s, pointer), cap)
  {
    hide AddAll, Both, TooSmall, TooBig, When;
    BothCapped(issues, When(TooBig(n as real, s.maxItems), At(pointer, "max_items")),
               When(TooSmall(n as real, s.minItems), At(pointer, "min_items")), cap);
    r := AddWhen(issues, TooBig(n as real, s.maxItems), At(pointer, "max_items"), cap);
    if r.Err? { return; }
    r := AddWhen(r.value, TooSmall(n as real, s.minItems), At(pointer, "min_items"), cap);
  }

  method VisitString(text: string, s: Schema, isDate: string -> bool, pointer: string, issues: seq<Issue>, cap: int)
    returns (r: Found)
    ensures r == Capped(issues, StringIssues(text, s, isDate, pointer), cap)
  {
    var last: Found := Ok(if s.date && !isDate(text) then [At(pointer, "format")] else []);
    assert last == When(Ok(s.date && !isDate(text)), At(pointer, "format"));
    hide AddAll, Both, TooSmall, TooBig, When;
    var high := When(TooBig(|text| as real, s.maxLength), At(pointer, "max_length"));
    BothCapped(issues, When(TooSmall(|text| as real, s.minLength), At(pointer, "min_length")), Both(high, last), cap);
    r := AddWhen(issues, TooSmall(|text| as real, s.minLength), At(pointer, "min_length"), cap);
    if r.Err? { return; }
    BothCapped(r.value, high, last, cap);
    r := AddWhen(r.value, TooBig(|text| as real, s.maxLength), At(pointer, "max_length"), cap);
    if r.Err? { return; }
    r := AddWhen(r.value, Ok(s.date && !isDate(text)), At(pointer, "format"), cap);
  }

  method VisitNumber(v: Value, s: Schema, pointer: string, issues: seq<Issue>, cap: int) returns (r: Found)
    requires v.Int? || v.Dec?
    ensures r == Capped(issues, NumberIssues(v, s, pointer), cap)
  {
    hide AddAll, Both, TooSmall, TooBig, When, WithinLimits, Magnitude;
    if !WithinLimits(v) { return Err(ResourceLimit); }
    BothCapped(issues, When(TooSmall(Magnitude(v), s.minimum), At(pointer, "minimum")),
               When(TooBig(Magnitude(v), s.maximum), At(pointer, "maximum")), cap);
    r := AddWhen(issues, TooSmall(Magnitude(v), s.minimum), At(pointer, "minimum"), cap);
    if r.Err? { return; }
    r := AddWhen(r.value, TooBig(Magnitude(v), s.maximum), At(pointer, "maximum"), cap);
  }

  /** The required names, then the fields of a closed object. */
  method VisitShape(fields: seq<Field>, s: Schema, pointer: string, issues: seq<Issue>, cap: int)
    returns (r: seq<Issue>)
    ensures r == AddAll(AddAll(issues, RequiredIssues(fields, s.required, pointer), cap),
                        UnknownIssues(fields, s, pointer), cap)
  {
    hide HasKey, PropertyOf;
    r := issues;
    assert s.required[..0] == [];
    for i := 0 to |s.required|
      invariant r == AddAll(issues, RequiredIssues(fields, s.required[..i], pointer), cap)
    {
      assert s.required[..i + 1][..i] == s.required[..i];
      var name := s.required[i];
      var more := if HasKey(fields, name) then [] else [At(pointer + "/" + name, "required")];
      AddAllConcat(issues, RequiredIssues(fields, s.required[..i], pointer), more, cap);
      AddOne(r, At(pointer + "/" + name, "required"), cap);
      if !HasKey(fields, name) { r := Add(r, At(pointer + "/" + name, "required"), cap); }
    }
    assert s.required[..|s.required|] == s.required;
    var known := r;
    assert fields[..0] == [];
    for i := 0 to |fields|
      invariant r == AddAll(known, UnknownIssues(fields[..i], s, pointer), cap)
    {
      assert fields[..i + 1][..i] == fields[..i];
      var name := fields[i].key;
      var unknown := s.closed && PropertyOf(s.properties, name).None?;
      var more := if unknown then [At(pointer + "/" + name, "additional_properties")] else [];
      AddAllConcat(known, UnknownIssues(fields[..i], s, pointer), more, cap);
      AddOne(r, At(pointer + "/" + name, "additional_properties"), cap);
      if unknown { r := Add(r, At(pointer + "/" + name, "additional_properties"), cap); }
    }
    assert fields[..|fields|] == fields;
  }

  /** The declared fields, in the order the object has them. */
  method VisitFields(fields: seq<Field>, properties: seq<Property>, isDate: string -> bool, pointer: string,
                     issues: seq<Issue>, cap: int)
    returns (r: Found)
    ensures r == Capped(issues, FieldIssues(fields, properties, isDate, pointer), cap)
    decreases fields, 0
  {
    hide AllIssues, Both, PropertyOf, AddAll;
    AddNone(issues, cap);
    r := Ok(issues);
    assert fields[..0] == [];
    for i := 0 to |fields|
      invariant r.Ok? && r == Capped(issues, FieldIssues(fields[..i], properties, isDate, pointer), cap)
    {
      assert fields[..i + 1][..i] == fields[..i];
      var declared := PropertyOf(properties, fields[i].key);
      var path := pointer + "/" + fields[i].key;
      var here: Found := if declared.Some? then AllIssues(fields[i].value, declared.value, isDate, path) else Ok([]);
      BothCapped(issues, FieldIssues(fields[..i], properties, isDate, pointer), here, cap);
      if declared.Some? {
        r := Visit(fields[i].value, declared.value, isDate, path, r.value, cap);
        if r.Err? {
          FieldsStop(fields, properties, isDate, pointer, i + 1);
          return;
        }
      } else {
        AddNone(r.value, cap);
      }
    }
    assert fields[..|fields|] == fields;
  }

  method VisitItems(items: seq<Value>, child: Schema, isDate: string -> bool, pointer: string,
                    issues: seq<Issue>, cap: int)
    returns (r: Found)
    ensures r == Capped(issues, ItemIssues(items, child, isDate, pointer), cap)
    decreases items, 0
  {
    hide AllIssues, Both, AddAll, IndexText;
    AddNone(issues, cap);
    r := Ok(issues);
    assert items[..0] == [];
    for i := 0 to |items|
      invariant r.Ok? && r == Capped(issues, ItemIssues(items[..i], child, isDate, pointer), cap)
    {
      assert items[..i + 1][..i] == items[..i];
      var path := pointer + "/" + IndexText(i);
      BothCapped(issues, ItemIssues(items[..i], child, isDate, pointer), AllIssues(items[i], child, isDate, path), cap);
      r := Visit(items[i], child, isDate, path, r.value, cap);
      if r.Err? {
        ItemsStop(items, child, isDate, pointer, i + 1);
        return;
      }
    }
    assert items[..|items|] == items;
  }

  lemma {:induction false} FieldsStop(fields: seq<Field>, properties: seq<Property>, isDate: string -> bool,
                                      pointer: string, k: nat)
    requires k <= |fields| && FieldIssues(fields[..k], properties, isDate, pointer).Err?
    ensures FieldIssues(fields, properties, isDate, pointer) == FieldIssues(fields[..k], properties, isDate, pointer)
    decreases |fields| - k
  {
    hide AllIssues, PropertyOf;
    if k == |fields| {
      assert fields[..k] == fields;
    } else {
      assert fields[..k + 1][..k] == fields[..k];
      FieldsStop(fields, properties, isDate, pointer, k + 1);
    }
  }

  lemma {:induction false} ItemsStop(items: seq<Value>, child: Schema, isDate: string -> bool, pointer: string, k: nat)
    requires k <= |items| && ItemIssues(items[..k], child, isDate, pointer).Err?
    ensures ItemIssues(items, child, isDate, pointer) == ItemIssues(items[..k], child, isDate, pointer)
    decreases |items| - k
  {
    hide AllIssues, IndexText;
    if k == |items| {
      assert items[..k] == items;
    } else {
      assert items[..k + 1][..k] == items[..k];
      ItemsStop(items, child, isDate, pointer, k + 1);
    }
  }

  /** `validate_schema`, with its shared list of issues. */
  method ValidateSchema(v: Value, s: Schema, isDate: string -> bool, cap: int)
    returns (r: Result<(), (Fault, seq<Issue>)>)
    ensures r == Validated(v, s, isDate, cap)
  {
    hide AllIssues, AddAll;
    var found := Visit(v, s, isDate, "", [], cap);
    if found.Err? { return Err((found.error, [])); }
    r := if found.value != [] then Err((ValidationFault, found.value)) else Ok(());
  }
}
