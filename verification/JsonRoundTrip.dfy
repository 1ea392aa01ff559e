/**
 Reading printed text back: the printed text of a value determines the value.
 */
module JsonRoundTrip {
  import opened Wrappers
  import opened Ordering
  import opened Digits
  import opened Json
  import opened JsonReader

  // ----- what a value becomes when its text is read -----

  function Scaled(d: Decimal): int
    requires d.exponent >= 0
  {
    var n := d.coefficient * Pow(10, d.exponent);
    if d.negative then -n else n
  }

  /** An integral decimal comes back as an integer, and so does "-0.0". */
  function ReadBackDecimal(d: Decimal): Value {
    if d.exponent >= 0 then Int(Scaled(d))
    else if d == Decimal(true, 0, -1) then Int(0)
    else Dec(d)
  }

  function ReadBack(v: Value): Value {
    match v
    case Dec(d) => ReadBackDecimal(d)
    case Arr(items) => Arr(ReadBackItems(items))
    case Obj(fields) => Obj(ReadBackFields(fields))
    case _ => v
  }

  function ReadBackItems(items: seq<Value>): (r: seq<Value>)
    ensures |r| == |items|
    ensures forall i :: 0 <= i < |items| ==> r[i] == ReadBack(items[i])
  {
    if items == [] then [] else [ReadBack(items[0])] + ReadBackItems(items[1..])
  }

  function ReadBackFields(fields: seq<Field>): (r: seq<Field>)
    ensures |r| == |fields|
    ensures forall i :: 0 <= i < |fields| ==> r[i] == Field(fields[i].key, ReadBack(fields[i].value))
  {
    if fields == [] then []
    else [Field(fields[0].key, ReadBack(fields[0].value))] + ReadBackFields(fields[1..])
  }

  /** No NaN and no infinity anywhere. */
  predicate Finite(v: Value) {
    match v
    case NonFinite => false
    case Arr(items) => forall i :: 0 <= i < |items| ==> Finite(items[i])
    case Obj(fields) => forall i :: 0 <= i < |fields| ==> Finite(fields[i].value)
    case _ => true
  }

  /** Text that cannot continue a number. */
  predicate Boundary(t: string) {
    t == [] || !(IsDigit(t[0]) || t[0] == '.' || t[0] == 'e' || t[0] == 'E')
  }

  // ----- numbers -----

  lemma {:induction false} DigitRunStops(ds: string, rest: string)
    requires AllDigits(ds) && (rest == [] || !IsDigit(rest[0]))
    ensures DigitRun(ds + rest) == |ds|
  {
    if ds == [] {
      assert ds + rest == rest;
    } else {
      assert (ds + rest)[1..] == ds[1..] + rest;
      DigitRunStops(ds[1..], rest);
    }
  }

  /** `whole` is a legal integer part and `rest` does not extend it. */
  lemma WholeRunStops(whole: string, rest: string)
    requires whole != [] && AllDigits(whole) && (whole[0] == '0' ==> |whole| == 1)
    requires rest == [] || !IsDigit(rest[0])
    ensures WholeRun(whole + rest) == |whole|
  {
    assert (whole + rest)[0] == whole[0];
    DigitRunStops(whole, rest);
  }

  lemma ReadsInt(i: int, rest: string)
    requires Boundary(rest)
    ensures ReadNumber(IntText(i) + rest) == Some((Int(i), rest))
  {
    hide NatText, TextNat, ReadUnsigned, ReadNumber;
    var ds := NatText(Abs(i));
    NatTextLeading(Abs(i));
    NatTextValue(Abs(i));
    assert IntText(i) + rest == (if i < 0 then "-" else "") + (ds + rest);
    assert (ds + rest)[0] == ds[0] && IsDigit(ds[0]);
    ReadsSign(i < 0, ds + rest);
    ReadsUnsignedWhole(i < 0, ds, rest);
  }

  lemma {:induction false} ReadsUnsignedWhole(negative: bool, ds: string, rest: string)
    requires ds != [] && AllDigits(ds) && (ds[0] == '0' ==> |ds| == 1) && Boundary(rest)
    ensures ReadUnsigned(negative, ds + rest)
         == Some((Int(if negative then 0 - TextNat(ds) else TextNat(ds)), rest))
  {
    hide TextNat, WholeRun, ReadScaled;
    WholeRunStops(ds, rest);
    ScaledWhole(negative, ds, rest);
    assert FractionRun(rest) == 0;
    assert (ds + rest)[..|ds|] == ds && (ds + rest)[|ds|..] == rest;
  }

  lemma ReadsUnsignedSplit(negative: bool, whole: string, fraction: string, rest: string)
    requires whole != [] && AllDigits(whole) && (whole[0] == '0' ==> |whole| == 1)
    requires fraction != [] && AllDigits(fraction) && Boundary(rest)
    ensures ReadUnsigned(negative, whole + ("." + (fraction + rest))) == ReadScaled(negative, whole, fraction, rest)
  {
    hide ReadScaled, WholeRun, FractionRun;
    var behind := "." + (fraction + rest);
    var u := whole + behind;
    WholeRunStops(whole, behind);
    assert u[..|whole|] == whole && u[|whole|..] == behind;
    FractionRunStops(fraction, rest);
    var f := |fraction|;
    assert behind[1..1 + f] == fraction;
    assert behind[1 + f..] == rest;
  }

  lemma FractionRunStops(fraction: string, rest: string)
    requires AllDigits(fraction) && Boundary(rest)
    ensures FractionRun("." + (fraction + rest)) == |fraction|
  {
    hide DigitRun;
    DigitRunStops(fraction, rest);
    assert ("." + (fraction + rest))[1..] == fraction + rest;
  }

  lemma {:induction false} ReadsSplit(negative: bool, whole: string, fraction: string, rest: string)
    requires whole != [] && AllDigits(whole) && (whole[0] == '0' ==> |whole| == 1)
    requires fraction != [] && AllDigits(fraction) && Boundary(rest)
    ensures AllDigits(whole + fraction)
    ensures ReadNumber((if negative then "-" else "") + (whole + ("." + (fraction + rest))))
         == Some((Dec(Decimal(negative, TextNat(whole + fraction), 0 - |fraction|)), rest))
  {
    hide ReadNumber, ReadUnsigned, ReadScaled, TextNat;
    var u := whole + ("." + (fraction + rest));
    assert u[0] == whole[0] && IsDigit(whole[0]);
    ReadsSign(negative, u);
    ReadsUnsignedSplit(negative, whole, fraction, rest);
    ScaledWithoutExponent(negative, whole, fraction, rest);
  }

  lemma Reassociate(a: string, b: string, c: string, rest: string)
    ensures a + b + ("." + c) + rest == a + (b + ("." + (c + rest)))
  {
  }

  lemma ReadsSign(negative: bool, u: string)
    requires u != [] && u[0] != '-'
    ensures ReadNumber((if negative then "-" else "") + u) == ReadUnsigned(negative, u)
  {
    hide ReadUnsigned;
    if negative {
      assert ("-" + u)[1..] == u;
    } else {
      assert "" + u == u;
    }
  }

  lemma {:induction false} ScaledWhole(negative: bool, whole: string, rest: string)
    requires AllDigits(whole) && Boundary(rest)
    ensures ReadScaled(negative, whole, "", rest)
         == Some((Int(if negative then 0 - TextNat(whole) else TextNat(whole)), rest))
  {
  }

  lemma {:induction false} ScaledWithoutExponent(negative: bool, whole: string, fraction: string, rest: string)
    requires AllDigits(whole) && fraction != [] && AllDigits(fraction) && Boundary(rest)
    ensures AllDigits(whole + fraction)
    ensures ReadScaled(negative, whole, fraction, rest)
         == Some((Dec(Decimal(negative, TextNat(whole + fraction), 0 - |fraction|)), rest))
  {
  }

  /** The digits around the point spell the coefficient. */
  lemma PartsValue(d: Decimal)
    requires d.exponent < 0
    ensures var (whole, fraction) := DecimalParts(d);
      && AllDigits(whole + fraction)
      && |fraction| == -d.exponent
      && (whole[0] == '0' ==> |whole| == 1)
      && TextNat(whole + fraction) == d.coefficient
  {
    hide NatText, Zeros, TextNat;
    var digits := NatText(d.coefficient);
    var places := -d.exponent;
    NatTextValue(d.coefficient);
    NatTextLeading(d.coefficient);
    if |digits| <= places {
      var k := places - |digits|;
      ZerosJoin(1, k);
      assert Zeros(1)[0] == '0' && Zeros(1) == "0";
      assert "0" + (Zeros(k) + digits) == Zeros(1 + k) + digits;
      TextNatZeros(1 + k, digits);
    } else {
      var cut := |digits| - places;
      assert digits[..cut] + digits[cut..] == digits;
    }
  }

  lemma ZerosJoin(j: nat, k: nat)
    ensures Zeros(j) + Zeros(k) == Zeros(j + k)
  {
    assert forall i :: 0 <= i < j + k ==> (Zeros(j) + Zeros(k))[i] == '0';
  }

  lemma IntegralDecimalText(d: Decimal)
    requires d.exponent >= 0
    ensures DecimalText(d) == IntText(Scaled(d))
  {
    var (whole, fraction) := DecimalParts(d);
    var sign := if d.negative then "-" else "";
    var text := sign + whole + "";
    assert text == sign + whole && fraction == "";
    if d.coefficient == 0 {
      ZeroTimes(Pow(10, d.exponent));
      assert Scaled(d) == 0 && IntText(0) == "0";
      assert whole == "0";
      assert text == if d.negative then "-0" else "0";
    } else {
      NatTextShift(d.coefficient, d.exponent);
      NatTextLeading(d.coefficient * Pow(10, d.exponent));
      assert text[|sign|] == whole[0] != '0';
      assert !d.negative ==> text[0] != '-' && text == whole;
    }
  }

  lemma ReadsIntegralDecimal(d: Decimal, rest: string)
    requires Boundary(rest) && d.exponent >= 0
    ensures ReadNumber(DecimalText(d) + rest) == Some((ReadBackDecimal(d), rest))
  {
    hide DecimalText, IntText, ReadNumber, Pow;
    IntegralDecimalText(d);
    ReadsInt(Scaled(d), rest);
  }

  lemma ZeroTimes(n: nat)
    ensures 0 * n == 0
  {
  }

  /** The one signed zero whose text the printer rewrites. */
  lemma SignedZeroText(d: Decimal)
    requires d.exponent < 0
    ensures var (whole, fraction) := DecimalParts(d);
      (if d.negative then "-" else "") + whole + ("." + fraction) == "-0.0" <==> d == Decimal(true, 0, -1)
  {
    var (whole, fraction) := DecimalParts(d);
    var text := (if d.negative then "-" else "") + whole + ("." + fraction);
    PartsValue(d);
    if text == "-0.0" {
      assert d.negative by { assert !d.negative ==> text[0] == whole[0]; assert IsDigit(whole[0]); }
      assert text[1] == whole[0] == '0';
      assert text[1..] == "0" + ("." + fraction);
      assert fraction == text[3..] == "0";
      assert whole + fraction == Zeros(2) + "" by { assert whole == "0"; }
      TextNatZeros(2, "");
    }
    if d == Decimal(true, 0, -1) {
      assert NatText(0) == "0" && Zeros(0) == "";
    }
  }

  lemma ReadsDecimal(d: Decimal, rest: string)
    requires Boundary(rest)
    ensures ReadNumber(DecimalText(d) + rest) == Some((ReadBackDecimal(d), rest))
  {
    hide DecimalParts, ReadNumber, TextNat, NatText;
    var (whole, fraction) := DecimalParts(d);
    if d.exponent >= 0 {
      ReadsIntegralDecimal(d, rest);
    } else {
      PartsValue(d);
      SignedZeroText(d);
      if d == Decimal(true, 0, -1) {
        assert DecimalText(d) == IntText(0) by { NatTextLeading(0); }
        ReadsInt(0, rest);
      } else {
        assert |whole + ("." + fraction)| > 2;
        ReadsSplit(d.negative, whole, fraction, rest);
        Reassociate(if d.negative then "-" else "", whole, fraction, rest);
      }
    }
  }

  // ----- strings -----

  lemma HexRoundTrip(d: nat)
    requires d < 16
    ensures HexValue(HexDigit(d)) == Some(d)
  {
  }

  lemma ReadsHex(hi: nat, lo: nat, tail: string)
    requires hi < 16 && lo < 16
    ensures ReadHex4(['0', '0', HexDigit(hi), HexDigit(lo)] + tail) == Some(hi * 16 + lo)
  {
    HexRoundTrip(hi);
    HexRoundTrip(lo);
  }

  lemma {:induction false} ReadsChar(c: char, tail: string)
    ensures ReadText(EscapeChar(c) + tail) == Prepend(c, ReadText(tail))
  {
    hide ReadHex4, HexDigit;
    var e := EscapeChar(c);
    var t := e + tail;
    if |e| == 1 {
      assert t[0] == c && t[1..] == tail;
    } else if |e| == 2 {
      assert t[0] == '\\' && t[1..][1..] == tail && t[1..][0] == e[1];
    } else {
      var hi, lo := (c as int) / 16, (c as int) % 16;
      assert t[1..] == ['u', '0', '0', HexDigit(hi), HexDigit(lo)] + tail;
      assert t[1..][1..] == ['0', '0', HexDigit(hi), HexDigit(lo)] + tail;
      ReadsHex(hi, lo, tail);
      assert t[1..][5..] == tail;
      assert ReadEscape(t[1..]) == Some((c, tail));
    }
  }

  lemma {:induction false} ReadsText(s: string, rest: string)
    ensures ReadText(EscapeText(s) + "\"" + rest) == Some((s, rest))
  {
    if s == [] {
      assert EscapeText(s) + "\"" + rest == "\"" + rest;
      assert ("\"" + rest)[1..] == rest;
    } else {
      var tail := EscapeText(s[1..]) + "\"" + rest;
      assert EscapeText(s) + "\"" + rest == EscapeChar(s[0]) + tail;
      ReadsChar(s[0], tail);
      ReadsText(s[1..], rest);
      assert [s[0]] + s[1..] == s;
    }
  }

  lemma ReadsQuoted(s: string, rest: string)
    ensures var t := Quote(s) + rest; t != [] && t[0] == '"' && ReadText(t[1..]) == Some((s, rest))
  {
    var t := Quote(s) + rest;
    assert t[1..] == EscapeText(s) + "\"" + rest;
    ReadsText(s, rest);
  }

  // ----- values -----

  /** The first character of a printed number. */
  lemma {:induction false} NumberStart(v: Value)
    requires v.Int? || v.Dec?
    ensures Print(v) != [] && (Print(v)[0] == '-' || IsDigit(Print(v)[0]))
  {
    if v.Dec? {
      var (whole, fraction) := DecimalParts(v.d);
      assert IsDigit(whole[0]);
    }
  }

  lemma {:induction false} PrintStart(v: Value)
    requires Finite(v)
    ensures Print(v) != [] && !IsSpace(Print(v)[0]) && Print(v)[0] !in "]}"
  {
    if v.Int? || v.Dec? { NumberStart(v); }
  }

  lemma NotStartsWith(t: string, prefix: string)
    requires t != [] && prefix != [] && t[0] != prefix[0]
    ensures !StartsWith(t, prefix)
  {
    if |prefix| <= |t| { assert t[..|prefix|][0] == t[0]; }
  }

  lemma {:induction false} ReadsLiteral(v: Value, rest: string)
    requires v.Null? || v.Bool?
    ensures ReadPlain(Print(v) + rest) == Some((v, rest))
  {
    var p := Print(v);
    var t := p + rest;
    assert t[0] == p[0];
    assert t[..|p|] == p && t[|p|..] == rest;
    if v.Bool? { NotStartsWith(t, "null"); }
    if v == Bool(false) { NotStartsWith(t, "true"); }
  }

  /** Text that starts like a number is read as one. */
  lemma ReadsAsNumber(t: string)
    requires t != [] && (t[0] == '-' || IsDigit(t[0]))
    ensures ReadPlain(t) == ReadNumber(t)
  {
    NotStartsWith(t, "null");
    NotStartsWith(t, "true");
    NotStartsWith(t, "false");
  }

  lemma {:induction false} ReadsPlain(v: Value, rest: string)
    requires (v.Null? || v.Bool? || v.Int? || v.Dec?) && Boundary(rest)
    ensures ReadPlain(Print(v) + rest) == Some((ReadBack(v), rest))
  {
    match v
    case Null => ReadsLiteral(v, rest);
    case Bool(b) => ReadsLiteral(v, rest);
    case Int(i) =>
      NumberStart(v);
      ReadsAsNumber(Print(v) + rest);
      ReadsInt(i, rest);
    case Dec(d) =>
      NumberStart(v);
      ReadsAsNumber(Print(v) + rest);
      ReadsDecimal(d, rest);
  }

  /** A printed value, read in front of anything that cannot extend it. */
  lemma {:induction false} ReadsValue(v: Value, rest: string)
    requires Finite(v) && Boundary(rest)
    ensures ReadValue(Print(v) + rest) == Some((ReadBack(v), rest))
    decreases v, 0
  {
    hide ReadArray, ReadObject, ReadPlain, Join, PrintItems, PrintFields, ReadBackItems, ReadBackFields, Quote;
    match v
    case Str(s) =>
      ReadsString(s, rest);
    case Arr(items) =>
      ReadsArray(items, rest);
      var body := Join(PrintItems(items)) + "]" + rest;
      assert Print(v) + rest == "[" + body;
      ReadsOpening(body);
      hide ReadValue;
    case Obj(fields) =>
      ReadsObject(fields, rest);
      var body := Join(PrintFields(fields)) + "}" + rest;
      assert Print(v) + rest == "{" + body;
      ReadsOpening(body);
      hide ReadValue;
    case _ =>
      NoOpening(v, rest);
      ReadsPlain(v, rest);
  }

  lemma {:induction false} ReadsString(s: string, rest: string)
    ensures ReadValue(Print(Str(s)) + rest) == Some((Str(s), rest))
  {
    hide ReadText, Quote;
    ReadsQuoted(s, rest);
    var t := Quote(s) + rest;
    assert SkipSpace(t) == t;
  }

  lemma {:induction false} ReadsOpening(body: string)
    ensures ReadValue("[" + body) == ReadArray(body)
    ensures ReadValue("{" + body) == ReadObject(body)
  {
    hide ReadArray, ReadObject;
    assert ("[" + body)[1..] == body && ("{" + body)[1..] == body;
  }

  lemma {:induction false} NoOpening(v: Value, rest: string)
    requires v.Null? || v.Bool? || v.Int? || v.Dec?
    ensures ReadValue(Print(v) + rest) == ReadPlain(Print(v) + rest)
  {
    hide Print, ReadString, ReadArray, ReadObject, ReadPlain, SkipSpace;
    PlainStart(v);
    NoSpaceToSkip(Print(v) + rest);
  }

  lemma {:induction false} PlainStart(v: Value)
    requires v.Null? || v.Bool? || v.Int? || v.Dec?
    ensures Print(v) != [] && !IsSpace(Print(v)[0]) && Print(v)[0] !in "\"[{"
  {
    if v.Int? || v.Dec? { NumberStart(v); }
  }

  lemma {:induction false} NoSpaceToSkip(t: string)
    requires t != [] && !IsSpace(t[0])
    ensures SkipSpace(t) == t
  {
  }

  lemma {:induction false} ReadsArray(items: seq<Value>, rest: string)
    requires forall i :: 0 <= i < |items| ==> Finite(items[i])
    ensures ReadArray(Join(PrintItems(items)) + "]" + rest) == Some((Arr(ReadBackItems(items)), rest))
    decreases items, 3
  {
    var t := Join(PrintItems(items)) + "]" + rest;
    if items == [] {
      assert t == "]" + rest && t[0] == ']' && t[1..] == rest;
      assert ReadBackItems(items) == [];
    } else {
      PrintStart(items[0]);
      JoinStart(PrintItems(items));
      assert t[0] == Print(items[0])[0];
      ReadsItems(items, rest);
    }
    NoSpaceToSkip(t);
  }

  lemma {:induction false} ReadsObject(fields: seq<Field>, rest: string)
    requires forall i :: 0 <= i < |fields| ==> Finite(fields[i].value)
    ensures ReadObject(Join(PrintFields(fields)) + "}" + rest) == Some((Obj(ReadBackFields(fields)), rest))
    decreases fields, 3
  {
    var t := Join(PrintFields(fields)) + "}" + rest;
    if fields == [] {
      assert t == "}" + rest && t[0] == '}' && t[1..] == rest;
      assert ReadBackFields(fields) == [];
    } else {
      JoinStart(PrintFields(fields));
      assert t[0] == '"';
      ReadsFields(fields, rest);
    }
    NoSpaceToSkip(t);
  }

  lemma {:induction false} JoinStart(parts: seq<string>)
    requires parts != [] && parts[0] != []
    ensures Join(parts) != [] && Join(parts)[0] == parts[0][0]
  {
  }

  lemma {:induction false} ReadsItems(items: seq<Value>, rest: string)
    requires items != [] && (forall i :: 0 <= i < |items| ==> Finite(items[i]))
    ensures ReadItems(Join(PrintItems(items)) + "]" + rest) == Some((ReadBackItems(items), rest))
    decreases items, 1
  {
    hide ReadValue, Print;
    var t := Join(PrintItems(items)) + "]" + rest;
    if |items| == 1 {
      assert t == Print(items[0]) + ("]" + rest);
      assert ReadBackItems(items) == [ReadBack(items[0])];
      ReadsValue(items[0], "]" + rest);
      assert SkipSpace("]" + rest) == "]" + rest;
      assert ("]" + rest)[1..] == rest;
    } else {
      var tail := Join(PrintItems(items[1..])) + "]" + rest;
      assert PrintItems(items)[1..] == PrintItems(items[1..]);
      assert t == Print(items[0]) + ("," + tail);
      ReadsValue(items[0], "," + tail);
      assert SkipSpace("," + tail) == "," + tail;
      assert ("," + tail)[1..] == tail;
      ReadsItems(items[1..], rest);
    }
  }

  lemma {:induction false} ReadsField(f: Field, rest: string)
    requires Finite(f.value) && Boundary(rest)
    ensures ReadField(PrintField(f) + rest) == Some((Field(f.key, ReadBack(f.value)), rest))
    decreases f, 1
  {
    hide ReadValue, ReadText, Print, Quote;
    var t := PrintField(f) + rest;
    var tail := Print(f.value) + rest;
    assert t == Quote(f.key) + (":" + tail);
    assert SkipSpace(t) == t;
    ReadsQuoted(f.key, ":" + tail);
    assert SkipSpace(":" + tail) == ":" + tail;
    assert (":" + tail)[1..] == tail;
    ReadsValue(f.value, rest);
  }

  lemma {:induction false} ReadsFields(fields: seq<Field>, rest: string)
    requires fields != [] && (forall i :: 0 <= i < |fields| ==> Finite(fields[i].value))
    ensures ReadFields(Join(PrintFields(fields)) + "}" + rest) == Some((ReadBackFields(fields), rest))
    decreases fields, 2
  {
    hide ReadField, PrintField;
    var t := Join(PrintFields(fields)) + "}" + rest;
    if |fields| == 1 {
      assert t == PrintField(fields[0]) + ("}" + rest);
      assert ReadBackFields(fields) == [Field(fields[0].key, ReadBack(fields[0].value))];
      ReadsField(fields[0], "}" + rest);
      assert SkipSpace("}" + rest) == "}" + rest;
      assert ("}" + rest)[1..] == rest;
    } else {
      var tail := Join(PrintFields(fields[1..])) + "}" + rest;
      assert PrintFields(fields)[1..] == PrintFields(fields[1..]);
      assert t == PrintField(fields[0]) + ("," + tail);
      ReadsField(fields[0], "," + tail);
      assert SkipSpace("," + tail) == "," + tail;
      assert ("," + tail)[1..] == tail;
      ReadsFields(fields[1..], rest);
    }
  }
}
