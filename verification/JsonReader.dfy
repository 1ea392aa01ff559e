/**
 A reader for the grammar of sections 2 to 7 of RFC 8259, and the strict loader
 built on it (`loads_strict` in quant_data/json_codec.py).
 */
module JsonReader {
  import opened Wrappers
  import opened Digits
  import opened Json

  predicate IsSpace(c: char) {
    c == ' ' || c == '\t' || c == '\n' || c == '\r'
  }

  function SkipSpace(t: string): (r: string)
    ensures |r| <= |t|
    ensures r != [] ==> !IsSpace(r[0])
  {
    if t != [] && IsSpace(t[0]) then SkipSpace(t[1..]) else t
  }

  predicate StartsWith(t: string, prefix: string) {
    |prefix| <= |t| && t[..|prefix|] == prefix
  }

  // ----- numbers (section 6) -----

  /** Length of the longest run of digits at the front. */
  function DigitRun(t: string): (n: nat)
    ensures n <= |t|
    ensures AllDigits(t[..n])
    ensures n < |t| ==> !IsDigit(t[n])
  {
    if t != [] && IsDigit(t[0]) then
      var n := 1 + DigitRun(t[1..]);
      assert t[..n] == [t[0]] + t[1..][..n - 1];
      n
    else 0
  }

  /** The integer part: one zero, or digits that do not start with zero. */
  function WholeRun(t: string): (n: nat)
    ensures n <= |t| && AllDigits(t[..n])
  {
    if t != [] && t[0] == '0' then 1 else DigitRun(t)
  }

  /** Digits behind a point, if there are any. */
  function FractionRun(t: string): (n: nat)
    ensures n < |t| || n == 0
    ensures n > 0 ==> AllDigits(t[1..1 + n])
  {
    if t != [] && t[0] == '.' then
      var n := DigitRun(t[1..]);
      assert t[1..1 + n] == t[1..][..n];
      n
    else 0
  }

  /** An exponent, if there is one: its value and the text behind it. */
  function ReadExponent(t: string): (r: Option<(int, string)>)
    ensures r.Some? ==> |r.value.1| < |t|
  {
    if t == [] || (t[0] != 'e' && t[0] != 'E') then None
    else
      var signed := |t| > 1 && (t[1] == '-' || t[1] == '+');
      var u := if signed then t[2..] else t[1..];
      var n := DigitRun(u);
      if n == 0 then None
      else
        var magnitude := TextNat(u[..n]);
        Some((if signed && t[1] == '-' then 0 - magnitude else magnitude, u[n..]))
  }

  function ReadNumber(t: string): (r: Option<(Value, string)>)
    ensures r.Some? ==> |r.value.1| < |t|
  {
    if t != [] && t[0] == '-' then ReadUnsigned(true, t[1..]) else ReadUnsigned(false, t)
  }

  function ReadUnsigned(negative: bool, u: string): (r: Option<(Value, string)>)
    ensures r.Some? ==> |r.value.1| < |u|
  {
    var n := WholeRun(u);
    if n == 0 then None
    else
      var whole := u[..n];
      var behind := u[n..];
      var f := FractionRun(behind);
      if f == 0 then ReadScaled(negative, whole, "", behind)
      else ReadScaled(negative, whole, behind[1..1 + f], behind[1 + f..])
  }

  /** The number spelled by the digits around its point, and an exponent in `rest`. */
  function ReadScaled(negative: bool, whole: string, fraction: string, rest: string): (r: Option<(Value, string)>)
    requires AllDigits(whole) && AllDigits(fraction)
    ensures r.Some? && |r.value.1| <= |rest|
  {
    var digits := whole + fraction;
    assert AllDigits(digits);
    match ReadExponent(rest)
    case Some((e, tail)) => Some((Dec(Decimal(negative, TextNat(digits), e - |fraction|)), tail))
    case None =>
      if fraction == "" then Some((Int(if negative then 0 - TextNat(whole) else TextNat(whole)), rest))
      else Some((Dec(Decimal(negative, TextNat(digits), 0 - |fraction|)), rest))
  }

  // ----- strings (section 7) -----

  function HexValue(c: char): Option<nat> {
    if '0' <= c <= '9' then Some((c as int) - ('0' as int))
    else if 'a' <= c <= 'f' then Some((c as int) - ('a' as int) + 10)
    else if 'A' <= c <= 'F' then Some((c as int) - ('A' as int) + 10)
    else None
  }

  function ReadHex4(t: string): (r: Option<nat>)
    ensures r.Some? ==> |t| >= 4 && r.value < 0x10000
  {
    if |t| < 4 then None
    else match (HexValue(t[0]), HexValue(t[1]), HexValue(t[2]), HexValue(t[3]))
      case (Some(a), Some(b), Some(c), Some(d)) =>
        if a < 16 && b < 16 && c < 16 && d < 16 then Some(((a * 16 + b) * 16 + c) * 16 + d) else None
      case _ => None
  }

  /** One escape sequence, read behind its backslash. A surrogate pair is one character. */
  function ReadEscape(t: string): (r: Option<(char, string)>)
    ensures r.Some? ==> |r.value.1| < |t|
  {
    if t == [] then None
    else if t[0] == '"' then Some(('"', t[1..]))
    else if t[0] == '\\' then Some(('\\', t[1..]))
    else if t[0] == '/' then Some(('/', t[1..]))
    else if t[0] == 'b' then Some(('\U{08}', t[1..]))
    else if t[0] == 'f' then Some(('\U{0C}', t[1..]))
    else if t[0] == 'n' then Some(('\n', t[1..]))
    else if t[0] == 'r' then Some(('\r', t[1..]))
    else if t[0] == 't' then Some(('\t', t[1..]))
    else if t[0] != 'u' then None
    else match ReadHex4(t[1..])
      case None => None
      case Some(unit) =>
        if unit < 0xD800 || 0xE000 <= unit then Some((unit as char, t[5..]))
        else if unit < 0xDC00 && StartsWith(t[5..], "\\u") then
          match ReadHex4(t[7..])
          case None => None
          case Some(low) =>
            if 0xDC00 <= low < 0xE000 then
              Some(((0x10000 + (unit - 0xD800) * 0x400 + (low - 0xDC00)) as char, t[11..]))
            else None
        else None
  }

  /** The characters of a string, read behind its opening quote. */
  function ReadText(t: string): (r: Option<(string, string)>)
    ensures r.Some? ==> |r.value.1| < |t|
    decreases |t|
  {
    if t == [] then None
    else if t[0] == '"' then Some(("", t[1..]))
    else if t[0] == '\\' then
      match ReadEscape(t[1..])
      case None => None
      case Some((c, rest)) => Prepend(c, ReadText(rest))
    else if t[0] < ' ' then None
    else Prepend(t[0], ReadText(t[1..]))
  }

  function Prepend(c: char, r: Option<(string, string)>): Option<(string, string)> {
    match r
    case None => None
    case Some((s, rest)) => Some(([c] + s, rest))
  }

  // ----- values (sections 3 to 5) -----

  function ReadValue(t: string): (r: Option<(Value, string)>)
    ensures r.Some? ==> |r.value.1| < |t|
    decreases |t|, 0
  {
    var u := SkipSpace(t);
    if u == [] then None
    else if u[0] == '"' then ReadString(u[1..])
    else if u[0] == '[' then ReadArray(u[1..])
    else if u[0] == '{' then ReadObject(u[1..])
    else ReadPlain(u)
  }

  function ReadString(t: string): (r: Option<(Value, string)>)
    ensures r.Some? ==> |r.value.1| < |t|
  {
    match ReadText(t)
    case None => None
    case Some((s, rest)) => Some((Str(s), rest))
  }

  /** Literals (section 3) and numbers. */
  function ReadPlain(t: string): (r: Option<(Value, string)>)
    ensures r.Some? ==> |r.value.1| < |t|
  {
    if StartsWith(t, "null") then Some((Null, t[4..]))
    else if StartsWith(t, "true") then Some((Bool(true), t[4..]))
    else if StartsWith(t, "false") then Some((Bool(false), t[5..]))
    else ReadNumber(t)
  }

  /** An array, read behind its bracket. */
  function ReadArray(t: string): (r: Option<(Value, string)>)
    ensures r.Some? ==> |r.value.1| < |t|
    decreases |t|, 3
  {
    var w := SkipSpace(t);
    if w != [] && w[0] == ']' then Some((Arr([]), w[1..]))
    else match ReadItems(w)
      case None => None
      case Some((items, rest)) => Some((Arr(items), rest))
  }

  /** An object, read behind its brace. */
  function ReadObject(t: string): (r: Option<(Value, string)>)
    ensures r.Some? ==> |r.value.1| < |t|
    decreases |t|, 3
  {
    var w := SkipSpace(t);
    if w != [] && w[0] == '}' then Some((Obj([]), w[1..]))
    else match ReadFields(w)
      case None => None
      case Some((fields, rest)) => Some((Obj(fields), rest))
  }

  /** One or more values separated by commas, and the closing bracket. */
  function ReadItems(t: string): (r: Option<(seq<Value>, string)>)
    ensures r.Some? ==> |r.value.1| < |t|
    decreases |t|, 1
  {
    match ReadValue(t)
    case None => None
    case Some((v, rest)) =>
      var w := SkipSpace(rest);
      if w == [] then None
      else if w[0] == ']' then Some(([v], w[1..]))
      else if w[0] != ',' then None
      else match ReadItems(w[1..])
        case None => None
        case Some((items, tail)) => Some(([v] + items, tail))
  }

  function ReadField(t: string): (r: Option<(Field, string)>)
    ensures r.Some? ==> |r.value.1| < |t|
    decreases |t|, 1
  {
    var u := SkipSpace(t);
    if u == [] || u[0] != '"' then None
    else match ReadText(u[1..])
      case None => None
      case Some((key, rest)) =>
        var w := SkipSpace(rest);
        if w == [] || w[0] != ':' then None
        else match ReadValue(w[1..])
          case None => None
          case Some((v, tail)) => Some((Field(key, v), tail))
  }

  /** One or more fields separated by commas, and the closing brace. */
  function ReadFields(t: string): (r: Option<(seq<Field>, string)>)
    ensures r.Some? ==> |r.value.1| < |t|
    decreases |t|, 2
  {
    match ReadField(t)
    case None => None
    case Some((f, rest)) =>
      var w := SkipSpace(rest);
      if w == [] then None
      else if w[0] == '}' then Some(([f], w[1..]))
      else if w[0] != ',' then None
      else match ReadFields(w[1..])
        case None => None
        case Some((fields, tail)) => Some(([f] + fields, tail))
  }

  /** A whole JSON text: one value between white space (section 2). */
  function ReadDocument(t: string): Option<Value> {
    match ReadValue(t)
    case None => None
    case Some((v, rest)) => if SkipSpace(rest) == [] then Some(v) else None
  }

  // ----- the strict loader -----

  /** Every number token passes `_parse_integer` or `_parse_decimal`. */
  predicate NumbersReadable(v: Value) {
    match v
    case Int(i) => DigitCount(Abs(i)) <= MAX_DECIMAL_DIGITS && IntegerWithinLimits(i)
    case Dec(d) => DecimalWithinLimits(d)
    case Arr(items) => forall i :: 0 <= i < |items| ==> NumbersReadable(items[i])
    case Obj(fields) => forall i :: 0 <= i < |fields| ==> NumbersReadable(fields[i].value)
    case _ => true
  }

  /** `_check_depth` does not raise. */
  predicate DepthOk(v: Value, depth: nat)
    decreases v
  {
    && depth <= MAX_JSON_DEPTH
    && match v
      case Arr(items) => forall i :: 0 <= i < |items| ==> DepthOk(items[i], depth + 1)
      case Obj(fields) => forall i :: 0 <= i < |fields| ==> DepthOk(fields[i].value, depth + 1)
      case _ => true
  }

  /** What `loads_strict(text)` returns or raises. When several checks fail, the one
      reported here may differ from the one the original meets first. */
  function Loaded(text: string): Result<Value, Fault> {
    if Utf8Length(text) > MAX_JSON_BYTES then Err(ResourceLimit)
    else match ReadDocument(text)
      case None => Err(ValidationFault)
      case Some(v) =>
        if !UniqueKeys(v) then Err(ValidationFault)
        else if !NumbersReadable(v) || !DepthOk(v, 0) then Err(ResourceLimit)
        else Ok(v)
  }
}
