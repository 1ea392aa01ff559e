/**
 The canonical JSON text on which every digest of the system rests
 (quant_data/json_codec.py): values, the printer, and the limits it enforces.
 */
module Json {
  import opened Wrappers
  import opened Ordering
  import opened Digits

  /** A finite `decimal.Decimal`: (-1)^negative * coefficient * 10^exponent. */
  datatype Decimal = Decimal(negative: bool, coefficient: nat, exponent: int)

  datatype Field = Field(key: string, value: Value)

  /** What the codec is given. An object keeps its fields in insertion order, as a
      Python dict does; `NonFinite` is a NaN or infinite number. */
  datatype Value =
    | Null
    | Bool(b: bool)
    | Int(i: int)
    | Dec(d: Decimal)
    | NonFinite
    | Str(s: string)
    | Arr(items: seq<Value>)
    | Obj(fields: seq<Field>)

  const MAX_JSON_BYTES: nat := 8 * 1024 * 1024
  const MAX_JSON_DEPTH: nat := 32
  const MAX_DECIMAL_DIGITS: nat := 4096
  const MAX_DECIMAL_EXPONENT: nat := 4096
  const MAX_INTEGER_BITS: nat := 13610

  // ----- dictionaries -----

  function Lookup(fields: seq<Field>, key: string): (r: Option<Value>)
    ensures r.None? <==> forall i :: 0 <= i < |fields| ==> fields[i].key != key
    ensures r.Some? ==> Field(key, r.value) in fields
  {
    if fields == [] then None
    else if fields[0].key == key then
      assert fields[0] == Field(key, fields[0].value);
      Some(fields[0].value)
    else Lookup(fields[1..], key)
  }

  predicate HasKey(fields: seq<Field>, key: string) {
    Lookup(fields, key).Some?
  }

  predicate UniqueFields(fields: seq<Field>) {
    forall i, j :: 0 <= i < j < |fields| ==> fields[i].key != fields[j].key
  }

  /** The invariant of the Python types: the keys of every dict are unique. */
  predicate UniqueKeys(v: Value) {
    match v
    case Arr(items) => forall i :: 0 <= i < |items| ==> UniqueKeys(items[i])
    case Obj(fields) =>
      && UniqueFields(fields)
      && forall i :: 0 <= i < |fields| ==> UniqueKeys(fields[i].value)
    case _ => true
  }

  lemma {:induction false} LookupUnique(fields: seq<Field>, f: Field)
    requires UniqueFields(fields) && f in fields
    ensures Lookup(fields, f.key) == Some(f.value)
  {
    var r := Lookup(fields, f.key);
    var i :| 0 <= i < |fields| && fields[i] == f;
    assert r.Some?;
    var j :| 0 <= j < |fields| && fields[j] == Field(f.key, r.value);
    assert i == j;
  }

  // ----- sizes and limits -----

  function CharBytes(c: char): (n: nat)
    ensures 1 <= n <= 4
  {
    if c < '\U{80}' then 1 else if c < '\U{800}' then 2 else if c < '\U{10000}' then 3 else 4
  }

  /** `len(text.encode("utf-8"))`. */
  function Utf8Length(text: string): nat {
    if text == [] then 0 else CharBytes(text[0]) + Utf8Length(text[1..])
  }

  /** `int.bit_length`. */
  function BitLength(n: nat): nat {
    if n == 0 then 0 else 1 + BitLength(n / 2)
  }

  function Abs(i: int): nat {
    if i < 0 then -i else i
  }

  predicate IntegerWithinLimits(i: int) {
    BitLength(Abs(i)) <= MAX_INTEGER_BITS
  }

  predicate DecimalWithinLimits(d: Decimal) {
    var adjusted := d.exponent + DigitCount(d.coefficient) - 1;
    && DigitCount(d.coefficient) <= MAX_DECIMAL_DIGITS
    && Abs(d.exponent) <= MAX_DECIMAL_EXPONENT
    && Abs(adjusted) <= MAX_DECIMAL_EXPONENT
  }

  // ----- text of the leaves -----

  function IntText(i: int): string {
    if i < 0 then "-" + NatText(-i) else NatText(i)
  }

  /** Digits before and after the point in `format(value, "f")`. */
  function DecimalParts(d: Decimal): (parts: (string, string))
    ensures parts.0 != [] && AllDigits(parts.0) && AllDigits(parts.1)
  {
    var digits := NatText(d.coefficient);
    if d.exponent >= 0 then
      (if d.coefficient == 0 then "0" else digits + Zeros(d.exponent), "")
    else
      var places := -d.exponent;
      if |digits| <= places then ("0", Zeros(places - |digits|) + digits)
      else (digits[..|digits| - places], digits[|digits| - places..])
  }

  function DecimalText(d: Decimal): string {
    var (whole, fraction) := DecimalParts(d);
    var text := (if d.negative then "-" else "") + whole
      + (if fraction == "" then "" else "." + fraction);
    if text == "-0" || text == "-0.0" then "0" else text
  }

  function HexDigit(d: nat): char
    requires d < 16
  {
    if d < 10 then DigitChar(d) else (('a' as int) + d - 10) as char
  }

  /** `json.dumps(text, ensure_ascii=False)`, one character at a time. */
  function EscapeChar(c: char): (r: string)
    ensures r != []
  {
    if c == '"' then "\\\""
    else if c == '\\' then "\\\\"
    else if c == '\n' then "\\n"
    else if c == '\r' then "\\r"
    else if c == '\t' then "\\t"
    else if c == '\U{0C}' then "\\f"
    else if c == '\U{08}' then "\\b"
    else if c < ' ' then
      "\\u00" + [HexDigit((c as int) / 16), HexDigit((c as int) % 16)]
    else [c]
  }

  function EscapeText(s: string): string {
    if s == [] then [] else EscapeChar(s[0]) + EscapeText(s[1..])
  }

  function Quote(s: string): (r: string)
    ensures r != [] && r[0] == '"'
  {
    "\"" + EscapeText(s) + "\""
  }

  /** `",".join(parts)`. */
  function Join(parts: seq<string>): string {
    if parts == [] then ""
    else if |parts| == 1 then parts[0]
    else parts[0] + "," + Join(parts[1..])
  }

  // ----- the printer -----

  /** The text of a value, fields in the order they are stored in. */
  function Print(v: Value): string {
    match v
    case Null => "null"
    case Bool(b) => if b then "true" else "false"
    case Int(i) => IntText(i)
    case Dec(d) => DecimalText(d)
    case NonFinite => ""
    case Str(s) => Quote(s)
    case Arr(items) => "[" + Join(PrintItems(items)) + "]"
    case Obj(fields) => "{" + Join(PrintFields(fields)) + "}"
  }

  function PrintItems(items: seq<Value>): (r: seq<string>)
    ensures |r| == |items|
    ensures forall i :: 0 <= i < |items| ==> r[i] == Print(items[i])
  {
    if items == [] then [] else [Print(items[0])] + PrintItems(items[1..])
  }

  function PrintField(f: Field): string {
    Quote(f.key) + ":" + Print(f.value)
  }

  function PrintFields(fields: seq<Field>): (r: seq<string>)
    ensures |r| == |fields|
    ensures forall i :: 0 <= i < |fields| ==> r[i] == PrintField(fields[i])
  {
    if fields == [] then [] else [PrintField(fields[0])] + PrintFields(fields[1..])
  }

  predicate FieldLt(f: Field, g: Field) {
    TextLt(f.key, g.key)
  }

  /** `sorted(value)` at every depth. */
  function SortKeys(v: Value): Value {
    match v
    case Arr(items) => Arr(SortItems(items))
    case Obj(fields) => Obj(Sort(SortFieldValues(fields), FieldLt))
    case _ => v
  }

  function SortItems(items: seq<Value>): (r: seq<Value>)
    ensures |r| == |items|
    ensures forall i :: 0 <= i < |items| ==> r[i] == SortKeys(items[i])
  {
    if items == [] then [] else [SortKeys(items[0])] + SortItems(items[1..])
  }

  function SortFieldValues(fields: seq<Field>): (r: seq<Field>)
    ensures |r| == |fields|
    ensures forall i :: 0 <= i < |fields| ==> r[i] == Field(fields[i].key, SortKeys(fields[i].value))
  {
    if fields == [] then []
    else [Field(fields[0].key, SortKeys(fields[0].value))] + SortFieldValues(fields[1..])
  }

  /** The first exception the printer raises on a value, fields in stored order. */
  function Refusal(v: Value, depth: nat): Option<Fault> {
    if depth > MAX_JSON_DEPTH then Some(ResourceLimit)
    else
      match v
      case Int(i) => if IntegerWithinLimits(i) then None else Some(ResourceLimit)
      case Dec(d) => if DecimalWithinLimits(d) then None else Some(ResourceLimit)
      case NonFinite => Some(ValidationFault)
      case Arr(items) => RefusalInItems(items, depth + 1)
      case Obj(fields) => RefusalInFields(fields, depth + 1)
      case _ => None
  }

  function RefusalInItems(items: seq<Value>, depth: nat): (r: Option<Fault>)
    ensures r.None? <==> forall i :: 0 <= i < |items| ==> Refusal(items[i], depth).None?
  {
    if items == [] then None
    else match Refusal(items[0], depth)
      case Some(e) => Some(e)
      case None =>
        var r := RefusalInItems(items[1..], depth);
        assert forall i :: 1 <= i < |items| ==> items[i] == items[1..][i - 1];
        assert forall i :: 0 <= i < |items[1..]| ==> items[1..][i] == items[i + 1];
        r
  }

  function RefusalInFields(fields: seq<Field>, depth: nat): (r: Option<Fault>)
    ensures r.None? <==> forall i :: 0 <= i < |fields| ==> Refusal(fields[i].value, depth).None?
  {
    if fields == [] then None
    else match Refusal(fields[0].value, depth)
      case Some(e) => Some(e)
      case None =>
        var r := RefusalInFields(fields[1..], depth);
        assert forall i :: 1 <= i < |fields| ==> fields[i] == fields[1..][i - 1];
        assert forall i :: 0 <= i < |fields[1..]| ==> fields[1..][i] == fields[i + 1];
        r
  }

  /** What `_encode(value)` returns or raises. */
  function Encoded(v: Value, depth: nat): Result<string, Fault> {
    var sorted := SortKeys(v);
    match Refusal(sorted, depth)
    case Some(e) => Err(e)
    case None => Ok(Print(sorted))
  }

  /** What `dumps_strict(value)` returns or raises. */
  function Dumped(v: Value): Result<string, Fault> {
    match Encoded(v, 0)
    case Err(e) => Err(e)
    case Ok(text) => if Utf8Length(text) > MAX_JSON_BYTES then Err(ResourceLimit) else Ok(text)
  }
}
