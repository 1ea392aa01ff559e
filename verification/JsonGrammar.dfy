/**
 The grammar of sections 2 to 7 of RFC 8259, and the proof that the reader accepts exactly
 its texts and gives each the value it spells.
 */
module JsonGrammar {
  import opened Wrappers
  import opened Digits
  import opened Json
  import opened JsonReader
  import opened JsonRoundTrip
  import opened JsonLimits

  // ----- the grammar -----

  /** Section 2. */
  predicate Space(t: string) {
    forall i :: 0 <= i < |t| ==> t[i] in " \t\n\r"
  }

  /** Section 6: sign, integer part, fraction and exponent of a number. */
  datatype Exponent = Exponent(mark: char, sign: string, digits: string)

  datatype Number = Number(negative: bool, whole: string, fraction: Option<string>, exponent: Option<Exponent>)

  predicate DigitsOf(s: string) {
    s != "" && AllDigits(s)
  }

  predicate ExponentOk(e: Exponent) {
    e.mark in "eE" && e.sign in {"", "+", "-"} && DigitsOf(e.digits)
  }

  predicate NumberOk(n: Number) {
    && DigitsOf(n.whole) && (n.whole[0] == '0' ==> n.whole == "0")
    && (n.fraction.Some? ==> DigitsOf(n.fraction.value))
    && (n.exponent.Some? ==> ExponentOk(n.exponent.value))
  }

  function ExponentText(e: Option<Exponent>): string {
    if e.None? then "" else [e.value.mark] + (e.value.sign + e.value.digits)
  }

  function FractionText(f: Option<string>): string {
    if f.None? then "" else "." + f.value
  }

  function UnsignedText(n: Number): string {
    n.whole + (FractionText(n.fraction) + ExponentText(n.exponent))
  }

  function NumberText(n: Number): string {
    (if n.negative then "-" else "") + UnsignedText(n)
  }

  function ExponentValue(e: Option<Exponent>): int
    requires e.Some? ==> ExponentOk(e.value)
  {
    if e.None? then 0 else if e.value.sign == "-" then 0 - TextNat(e.value.digits) else TextNat(e.value.digits)
  }

  function FractionDigits(n: Number): string {
    if n.fraction.None? then "" else n.fraction.value
  }

  /** An integer without fraction and exponent, and a decimal with one of them. */
  function NumberMeans(n: Number): Value
    requires NumberOk(n)
  {
    var digits := n.whole + FractionDigits(n);
    if n.fraction.None? && n.exponent.None? then Int(if n.negative then 0 - TextNat(n.whole) else TextNat(n.whole))
    else Dec(Decimal(n.negative, TextNat(digits), ExponentValue(n.exponent) - |FractionDigits(n)|))
  }

  ghost predicate SpellsNumber(t: string, v: Value) {
    exists n :: NumberOk(n) && t == NumberText(n) && v == NumberMeans(n)
  }

  predicate HexIs(c: char, d: nat) {
    d < 16 && (c == "0123456789abcdef"[d] || c == "0123456789ABCDEF"[d])
  }

  /** Section 7: four hexadecimal digits. */
  predicate HexOk(t: string, unit: nat) {
    && |t| == 4 && unit < 0x10000
    && HexIs(t[0], unit / 4096) && HexIs(t[1], unit / 256 % 16) && HexIs(t[2], unit / 16 % 16) && HexIs(t[3], unit % 16)
  }

  lemma HexExactly(c: char, d: nat)
    ensures HexIs(c, d) <==> HexValue(c) == Some(d) && d < 16
  {
  }

  /** A character as itself, by a short escape, by number, or by its two surrogates. */
  predicate SpellsChar(t: string, c: char) {
    || (t == [c] && c >= ' ' && c != '"' && c != '\\')
    || (t == "\\\"" && c == '"') || (t == "\\\\" && c == '\\') || (t == "\\/" && c == '/')
    || (t == "\\b" && c == '\U{08}') || (t == "\\f" && c == '\U{0C}')
    || (t == "\\n" && c == '\n') || (t == "\\r" && c == '\r') || (t == "\\t" && c == '\t')
    || (|t| == 6 && t[..2] == "\\u" && HexOk(t[2..], c as int))
    || (|t| == 12 && t[..2] == "\\u" && t[6..8] == "\\u" && c as int >= 0x10000
        && HexOk(t[2..6], 0xD800 + (c as int - 0x10000) / 0x400)
        && HexOk(t[8..], 0xDC00 + (c as int - 0x10000) % 0x400))
  }

  ghost predicate SpellsText(t: string, s: string)
    decreases |s|
  {
    if s == "" then t == ""
    else exists n :: 0 < n <= |t| && SpellsChar(t[..n], s[0]) && SpellsText(t[n..], s[1..])
  }

  ghost predicate SpellsString(t: string, s: string) {
    |t| >= 2 && t[0] == '"' && t[|t| - 1] == '"' && SpellsText(t[1..|t| - 1], s)
  }

  /** Sections 3 to 5. */
  ghost predicate Spells(t: string, v: Value)
    decreases |t|, 0
  {
    match v
    case Null => t == "null"
    case Bool(b) => t == if b then "true" else "false"
    case Int(_) => SpellsNumber(t, v)
    case Dec(_) => SpellsNumber(t, v)
    case NonFinite => false
    case Str(s) => SpellsString(t, s)
    case Arr(items) =>
      && |t| >= 2 && t[0] == '[' && t[|t| - 1] == ']'
      && if items == [] then Space(t[1..|t| - 1]) else SpellsItems(t[1..|t| - 1], items)
    case Obj(fields) =>
      && |t| >= 2 && t[0] == '{' && t[|t| - 1] == '}'
      && if fields == [] then Space(t[1..|t| - 1]) else SpellsFields(t[1..|t| - 1], fields)
  }

  /** With white space around it. */
  ghost predicate Padded(t: string, v: Value)
    decreases |t|, 1
  {
    exists i, j :: 0 <= i <= j <= |t| && Space(t[..i]) && Space(t[j..]) && Spells(t[i..j], v)
  }

  ghost predicate SpellsItems(t: string, items: seq<Value>)
    requires items != []
    decreases |t|, 2
  {
    if |items| == 1 then Padded(t, items[0])
    else exists n :: 0 <= n < |t| && t[n] == ',' && Padded(t[..n], items[0]) && SpellsItems(t[n + 1..], items[1..])
  }

  /** A key, a colon and a value. */
  ghost predicate SpellsField(t: string, f: Field)
    decreases |t|, 2
  {
    exists i, j, k :: 0 <= i <= j <= k < |t| && Space(t[..i]) && SpellsString(t[i..j], f.key)
                      && Space(t[j..k]) && t[k] == ':' && Padded(t[k + 1..], f.value)
  }

  ghost predicate SpellsFields(t: string, fields: seq<Field>)
    requires fields != []
    decreases |t|, 3
  {
    if |fields| == 1 then SpellsField(t, fields[0])
    else
      exists n :: 0 <= n < |t| && t[n] == ',' && SpellsField(t[..n], fields[0])
                  && SpellsFields(t[n + 1..], fields[1..])
  }

  // ----- white space -----

  lemma {:induction false} SkipsSpace(w: string, t: string)
    requires Space(w) && (t == "" || t[0] !in " \t\n\r")
    ensures SkipSpace(w + t) == t
  {
    if w == "" {
      assert w + t == t;
    } else {
      assert (w + t)[1..] == w[1..] + t;
      SkipsSpace(w[1..], t);
    }
  }

  lemma {:induction false} SkippedIsSpace(t: string) returns (i: nat)
    ensures i <= |t| && Space(t[..i]) && SkipSpace(t) == t[i..]
    ensures i < |t| ==> t[i] !in " \t\n\r"
  {
    if t != "" && IsSpace(t[0]) {
      var k := SkippedIsSpace(t[1..]);
      i := k + 1;
      assert t[..i] == [t[0]] + t[1..][..k];
      assert t[i..] == t[1..][k..];
    } else {
      i := 0;
    }
  }

  // ----- numbers -----

  lemma {:induction false} RunStops(ds: string, rest: string)
    requires AllDigits(ds) && (rest == "" || !IsDigit(rest[0]))
    ensures DigitRun(ds + rest) == |ds|
  {
    if ds == "" {
      assert ds + rest == rest;
    } else {
      assert (ds + rest)[1..] == ds[1..] + rest;
      RunStops(ds[1..], rest);
    }
  }

  /** Behind its first character `t` has that sign, or none, and then `u`. */
  predicate SignAt(t: string, sign: string, u: string)
    requires t != ""
  {
    if |t| > 1 && (t[1] == '-' || t[1] == '+') then sign == [t[1]] && u == t[2..] else sign == "" && u == t[1..]
  }

  /** Behind the mark: a sign or none, digits, and the rest. */
  lemma {:induction false} ReadsMarked(mark: char, sign: string, digits: string, rest: string)
    requires mark in "eE" && sign in {"", "+", "-"} && DigitsOf(digits) && (rest == "" || !IsDigit(rest[0]))
    ensures ReadExponent([mark] + (sign + (digits + rest))) ==
      Some((if sign == "-" then 0 - TextNat(digits) else TextNat(digits), rest))
  {
    hide TextNat, DigitRun, AllDigits, ReadExponent, SignAt;
    var u := digits + rest;
    RunStops(digits, rest);
    assert u[..|digits|] == digits && u[|digits|..] == rest;
    FirstIsDigit(digits, rest);
    SignedUnfolds(mark, sign, u);
    MarkedUnfolds([mark] + (sign + u), sign, u);
  }

  lemma SignedUnfolds(mark: char, sign: string, u: string)
    requires sign in {"", "+", "-"} && u != "" && IsDigit(u[0])
    ensures SignAt([mark] + (sign + u), sign, u)
  {
    var t := [mark] + (sign + u);
    if sign == "" {
      assert sign + u == u;
      assert t[1..] == u && t[1] == u[0];
    } else {
      assert |sign| == 1 && t[1] == sign[0] && t[2..] == u && sign == [t[1]];
    }
  }

  lemma {:induction false} MarkedUnfolds(t: string, sign: string, u: string)
    requires t != "" && t[0] in "eE" && DigitRun(u) > 0 && SignAt(t, sign, u)
    ensures var m := TextNat(u[..DigitRun(u)]);
      ReadExponent(t) == Some((if sign == "-" then 0 - m else m, u[DigitRun(u)..]))
  {
    hide TextNat, DigitRun;
  }

  lemma FirstIsDigit(digits: string, rest: string)
    requires DigitsOf(digits)
    ensures IsDigit((digits + rest)[0])
  {
  }

  /** The exponent is read whole, and nothing else is one. */
  lemma {:induction false} ReadsExponent(e: Option<Exponent>, rest: string)
    requires (e.Some? ==> ExponentOk(e.value)) && Boundary(rest)
    ensures ReadExponent(ExponentText(e) + rest) ==
      if e.None? then None else Some((ExponentValue(e), rest))
  {
    hide TextNat, DigitRun, ReadExponent;
    if e.Some? {
      var x := e.value;
      assert ExponentText(e) + rest == [x.mark] + (x.sign + (x.digits + rest));
      ReadsMarked(x.mark, x.sign, x.digits, rest);
    } else {
      assert ExponentText(e) + rest == rest;
      NoExponent(rest);
    }
  }

  lemma NoExponent(rest: string)
    requires Boundary(rest)
    ensures ReadExponent(rest) == None
  {
  }

  lemma {:induction false} ExponentUnfolds(t: string, sign: string, u: string)
    requires ReadExponent(t).Some? && t != "" && SignAt(t, sign, u)
    ensures t[0] in "eE" && DigitRun(u) > 0
    ensures ReadExponent(t).value.1 == u[DigitRun(u)..]
    ensures var m := TextNat(u[..DigitRun(u)]);
      ReadExponent(t).value.0 == if sign == "-" then 0 - m else m
  {
    hide TextNat, DigitRun;
  }

  lemma {:induction false} ExponentFound(t: string) returns (e: Exponent)
    requires ReadExponent(t).Some?
    ensures ExponentOk(e) && t == ExponentText(Some(e)) + ReadExponent(t).value.1
    ensures ReadExponent(t).value.0 == ExponentValue(Some(e))
  {
    hide TextNat, DigitRun, AllDigits, ReadExponent;
    var signed := |t| > 1 && (t[1] == '-' || t[1] == '+');
    var sign, u := if signed then [t[1]] else "", if signed then t[2..] else t[1..];
    ExponentUnfolds(t, sign, u);
    var n := DigitRun(u);
    e := Exponent(t[0], sign, u[..n]);
    Rejoined(t, sign, u, n);
  }

  lemma Rejoined(t: string, sign: string, u: string, n: nat)
    requires t != "" && n <= |u| && SignAt(t, sign, u)
    ensures t == ([t[0]] + (sign + u[..n])) + u[n..]
    ensures sign in {"", "+", "-"}
  {
    if sign == "" {
      FrontAndBack([t[0]], "", u, n);
      assert t == [t[0]] + t[1..];
    } else {
      FrontAndBack([t[0]], sign, u, n);
      assert t == [t[0]] + ([t[1]] + t[2..]);
    }
  }

  lemma FrontAndBack(a: string, b: string, u: string, n: nat)
    requires n <= |u|
    ensures (a + (b + u[..n])) + u[n..] == a + (b + u)
  {
    assert u == u[..n] + u[n..];
  }

  // ----- whole numbers and fractions -----

  lemma {:induction false} ReadsWhole(whole: string, rest: string)
    requires DigitsOf(whole) && (whole[0] == '0' ==> whole == "0") && (rest == "" || !IsDigit(rest[0]))
    ensures WholeRun(whole + rest) == |whole|
  {
    RunStops(whole, rest);
  }

  lemma {:induction false} ReadsFraction(f: Option<string>, rest: string)
    requires (f.Some? ==> DigitsOf(f.value)) && (rest == "" || (!IsDigit(rest[0]) && rest[0] != '.'))
    ensures FractionRun(FractionText(f) + rest) == if f.None? then 0 else |f.value|
  {
    if f.Some? {
      assert (FractionText(f) + rest)[1..] == f.value + rest;
      RunStops(f.value, rest);
    } else {
      assert FractionText(f) + rest == rest;
    }
  }

  /** What begins behind a part of a number cannot continue the part. */
  lemma Starts(n: Number, rest: string)
    requires NumberOk(n) && Boundary(rest)
    ensures var behind := ExponentText(n.exponent) + rest;
      behind == "" || (!IsDigit(behind[0]) && behind[0] != '.')
    ensures var behind := FractionText(n.fraction) + (ExponentText(n.exponent) + rest);
      behind == "" || !IsDigit(behind[0])
  {
    if n.exponent.Some? { assert (ExponentText(n.exponent) + rest)[0] == n.exponent.value.mark; }
    if n.exponent.None? { assert ExponentText(n.exponent) + rest == rest; }
    if n.fraction.Some? { assert (FractionText(n.fraction) + (ExponentText(n.exponent) + rest))[0] == '.'; }
    if n.fraction.None? {
      assert FractionText(n.fraction) + (ExponentText(n.exponent) + rest) == ExponentText(n.exponent) + rest;
    }
  }

  lemma {:induction false} ReadsScaledNumber(n: Number, rest: string)
    requires NumberOk(n) && Boundary(rest)
    ensures ReadScaled(n.negative, n.whole, FractionDigits(n), ExponentText(n.exponent) + rest) ==
      Some((NumberMeans(n), rest))
  {
    hide TextNat, ReadExponent, ExponentText;
    ReadsExponent(n.exponent, rest);
    NoExponentText(n.exponent, rest);
    assert n.whole + "" == n.whole;
  }

  lemma NoExponentText(e: Option<Exponent>, rest: string)
    ensures e.None? ==> ExponentText(e) + rest == rest
  {
    if e.None? { assert ExponentText(e) + rest == rest; }
  }

  lemma {:induction false} ReadsUnsignedNumber(n: Number, rest: string)
    requires NumberOk(n) && Boundary(rest)
    ensures ReadUnsigned(n.negative, UnsignedText(n) + rest) == Some((NumberMeans(n), rest))
  {
    hide ReadScaled, NumberMeans, ExponentText, FractionText, WholeRun, FractionRun, AllDigits;
    var behind := FractionText(n.fraction) + (ExponentText(n.exponent) + rest);
    var u := n.whole + behind;
    Starts(n, rest);
    ReadsWhole(n.whole, behind);
    ReadsFraction(n.fraction, ExponentText(n.exponent) + rest);
    ReadsScaledNumber(n, rest);
    assert UnsignedText(n) + rest == u;
    assert u[..|n.whole|] == n.whole && u[|n.whole|..] == behind;
    FractionParts(n.fraction, ExponentText(n.exponent) + rest);
  }

  lemma FractionParts(f: Option<string>, rest: string)
    ensures var behind := FractionText(f) + rest;
      if f.None? then behind == rest
      else |behind| > |f.value| && behind[1..1 + |f.value|] == f.value && behind[1 + |f.value|..] == rest
  {
    if f.None? { assert FractionText(f) + rest == rest; }
  }

  lemma {:induction false} ReadsNumber(n: Number, rest: string)
    requires NumberOk(n) && Boundary(rest)
    ensures ReadNumber(NumberText(n) + rest) == Some((NumberMeans(n), rest))
  {
    hide ReadUnsigned, NumberMeans, ExponentText, FractionText;
    ReadsUnsignedNumber(n, rest);
    var u := UnsignedText(n) + rest;
    if n.negative {
      assert NumberText(n) + rest == "-" + u;
      assert ("-" + u)[1..] == u;
    } else {
      assert NumberText(n) + rest == u;
      assert u[0] == n.whole[0] && IsDigit(n.whole[0]);
    }
  }

  lemma {:induction false} ScaledFound(negative: bool, whole: string, fraction: Option<string>, rest: string)
    returns (n: Number)
    requires DigitsOf(whole) && (whole[0] == '0' ==> whole == "0") && (fraction.Some? ==> DigitsOf(fraction.value))
    ensures NumberOk(n) && n.negative == negative && n.whole == whole && n.fraction == fraction
    ensures var r := ReadScaled(negative, whole, FractionDigits(n), rest).value;
      rest == ExponentText(n.exponent) + r.1 && r.0 == NumberMeans(n)
  {
    hide TextNat, ReadExponent, ExponentText, ExponentOk;
    assert whole + "" == whole;
    if ReadExponent(rest).Some? {
      var e := ExponentFound(rest);
      n := Number(negative, whole, fraction, Some(e));
    } else {
      n := Number(negative, whole, fraction, None);
      NoExponentText(None, rest);
    }
  }

  lemma UnsignedUnfolds(negative: bool, u: string)
    requires ReadUnsigned(negative, u).Some?
    ensures WholeRun(u) > 0
    ensures var whole, behind := u[..WholeRun(u)], u[WholeRun(u)..];
      var f := FractionRun(behind);
      ReadUnsigned(negative, u) ==
        if f == 0 then ReadScaled(negative, whole, "", behind)
        else ReadScaled(negative, whole, behind[1..1 + f], behind[1 + f..])
  {
    hide ReadScaled, WholeRun, FractionRun;
  }

  lemma {:induction false} UnsignedFound(negative: bool, u: string) returns (n: Number)
    requires ReadUnsigned(negative, u).Some?
    ensures NumberOk(n) && n.negative == negative
    ensures u == UnsignedText(n) + ReadUnsigned(negative, u).value.1
    ensures ReadUnsigned(negative, u).value.0 == NumberMeans(n)
  {
    hide ReadScaled, NumberMeans, ExponentText, WholeRun, FractionRun, ReadUnsigned, NumberOk, DigitsOf, AllDigits,
         FractionText;
    UnsignedUnfolds(negative, u);
    WholeFound(u);
    var whole, behind := u[..WholeRun(u)], u[WholeRun(u)..];
    var f := FractionRun(behind);
    assert u == whole + behind;
    if f == 0 {
      n := ScaledFound(negative, whole, None, behind);
      NoFraction(behind);
      Assembled(u, n, behind, ReadUnsigned(negative, u).value.1);
    } else {
      PointFound(behind);
      n := ScaledFound(negative, whole, Some(behind[1..1 + f]), behind[1 + f..]);
      WithFraction(behind, f);
      Assembled(u, n, behind[1 + f..], ReadUnsigned(negative, u).value.1);
    }
  }

  lemma NoFraction(behind: string)
    ensures behind == FractionText(None) + behind
  {
  }

  lemma WithFraction(behind: string, f: nat)
    requires f + 1 <= |behind| && behind[0] == '.'
    ensures behind == FractionText(Some(behind[1..1 + f])) + behind[1 + f..]
  {
  }

  lemma Assembled(u: string, n: Number, marked: string, rest: string)
    requires u == n.whole + (FractionText(n.fraction) + marked) && marked == ExponentText(n.exponent) + rest
    ensures u == UnsignedText(n) + rest
  {
    hide FractionText, ExponentText;
  }

  lemma {:induction false} WholeFound(u: string)
    requires WholeRun(u) > 0
    ensures DigitsOf(u[..WholeRun(u)]) && (u[0] == '0' ==> u[..WholeRun(u)] == "0")
  {
  }

  lemma PointFound(t: string)
    requires FractionRun(t) > 0
    ensures t[0] == '.' && DigitsOf(t[1..1 + FractionRun(t)])
  {
    hide DigitRun;
  }

  lemma {:induction false} NumberFound(t: string)
    requires ReadNumber(t).Some?
    ensures var (v, rest) := ReadNumber(t).value;
      && t[|t| - |rest|..] == rest && SpellsNumber(t[..|t| - |rest|], v)
  {
    hide ReadUnsigned, NumberMeans, ExponentText, FractionText;
    var (v, rest) := ReadNumber(t).value;
    var negative := t != "" && t[0] == '-';
    var n := UnsignedFound(negative, if negative then t[1..] else t);
    assert t == NumberText(n) + rest by {
      if negative { assert t == "-" + t[1..]; }
    }
    assert t[..|t| - |rest|] == NumberText(n);
  }

  // ----- strings -----

  lemma {:induction false} ReadsHexOf(t: string, unit: nat)
    requires |t| >= 4 && HexOk(t[..4], unit)
    ensures ReadHex4(t) == Some(unit)
  {
    hide HexIs, HexValue;
    var (a, b, c, d) := (unit / 4096, unit / 256 % 16, unit / 16 % 16, unit % 16);
    assert t[..4][0] == t[0] && t[..4][1] == t[1] && t[..4][2] == t[2] && t[..4][3] == t[3];
    HexExactly(t[0], a);
    HexExactly(t[1], b);
    HexExactly(t[2], c);
    HexExactly(t[3], d);
    PlacesBack(unit);
    FourHex(t, a, b, c, d);
  }

  lemma PlacesBack(unit: nat)
    ensures ((unit / 4096 * 16 + unit / 256 % 16) * 16 + unit / 16 % 16) * 16 + unit % 16 == unit
  {
    assert unit / 16 / 16 == unit / 256 && unit / 256 / 16 == unit / 4096;
  }

  lemma FourHex(t: string, a: nat, b: nat, c: nat, d: nat)
    requires |t| >= 4 && a < 16 && b < 16 && c < 16 && d < 16
    requires HexValue(t[0]) == Some(a) && HexValue(t[1]) == Some(b) && HexValue(t[2]) == Some(c)
    requires HexValue(t[3]) == Some(d)
    ensures ReadHex4(t) == Some(((a * 16 + b) * 16 + c) * 16 + d)
  {
    hide HexValue;
  }

  lemma {:induction false} HexFound(t: string)
    requires ReadHex4(t).Some?
    ensures |t| >= 4 && HexOk(t[..4], ReadHex4(t).value)
  {
    hide HexIs, HexValue;
    assert forall i :: 0 <= i < 4 ==> t[..4][i] == t[i];
    var (a, b, c, d) := (HexValue(t[0]).value, HexValue(t[1]).value, HexValue(t[2]).value, HexValue(t[3]).value);
    FourPlaces(a, b, c, d);
    HexExactly(t[0], a);
    HexExactly(t[1], b);
    HexExactly(t[2], c);
    HexExactly(t[3], d);
  }

  lemma FourPlaces(a: nat, b: nat, c: nat, d: nat)
    requires a < 16 && b < 16 && c < 16 && d < 16
    ensures var unit := ((a * 16 + b) * 16 + c) * 16 + d;
      unit / 4096 == a && unit / 256 % 16 == b && unit / 16 % 16 == c && unit % 16 == d && unit < 0x10000
  {
  }

  /** An escaped character, behind its backslash. */
  lemma {:induction false} ReadsEscape(t: string, c: char, rest: string)
    requires SpellsChar(t, c) && t[0] == '\\'
    ensures ReadEscape(t[1..] + rest) == Some((c, rest))
  {
    hide ReadHex4, HexOk, HexValue;
    var u := t[1..] + rest;
    if |t| == 2 {
      assert u[0] == t[1] && u[1..] == rest;
    } else if |t| == 6 {
      assert u[0] == 'u' && u[1..][..4] == t[2..] && u[5..] == rest;
      ReadsHexOf(u[1..], c as int);
    } else {
      SurrogatesRead(t, c, rest);
    }
  }

  lemma {:induction false} SurrogatesRead(t: string, c: char, rest: string)
    requires |t| == 12 && t[..2] == "\\u" && t[6..8] == "\\u" && c as int >= 0x10000
    requires HexOk(t[2..6], 0xD800 + (c as int - 0x10000) / 0x400)
    requires HexOk(t[8..], 0xDC00 + (c as int - 0x10000) % 0x400)
    ensures ReadEscape(t[1..] + rest) == Some((c, rest))
  {
    hide ReadHex4, HexOk, HexValue;
    var u := t[1..] + rest;
    var high, low := 0xD800 + (c as int - 0x10000) / 0x400, 0xDC00 + (c as int - 0x10000) % 0x400;
    assert u[0] == t[1] == 'u';
    assert u[1..][..4] == t[2..6];
    ReadsHexOf(u[1..], high);
    assert u[5..][..2] == t[6..8];
    assert u[7..][..4] == t[8..];
    ReadsHexOf(u[7..], low);
    assert u[11..] == rest;
  }

  lemma {:induction false} EscapeFound(t: string)
    requires ReadEscape(t).Some?
    ensures var (c, rest) := ReadEscape(t).value;
      && |rest| < |t| && t[|t| - |rest|..] == rest && SpellsChar("\\" + t[..|t| - |rest|], c)
  {
    hide ReadHex4, HexOk, HexValue;
    var (c, rest) := ReadEscape(t).value;
    var s := "\\" + t[..|t| - |rest|];
    if t[0] == 'u' {
      HexFound(t[1..]);
      assert t[1..][..4] == t[1..5];
      if |rest| == |t| - 5 {
        assert s[2..] == t[1..5] && s[..2] == "\\u";
      } else {
        assert rest == t[11..];
        HexFound(t[7..]);
        assert t[7..][..4] == t[7..11];
        assert s[2..6] == t[1..5] && s[8..] == t[7..11] && s[6..8] == t[5..7] && s[..2] == "\\u";
        assert t[5..][..2] == t[5..7];
      }
    } else {
      assert rest == t[1..];
      assert s == "\\" + [t[0]];
    }
  }

  lemma CharShape(t: string, c: char)
    requires SpellsChar(t, c)
    ensures t != "" && t[0] != '"' && (t[0] != '\\' ==> t == [c] && c >= ' ')
  {
    hide HexOk;
    assert "\\u"[0] == '\\';
    if |t| == 6 && t[..2] == "\\u" { assert t[..2][0] == t[0]; }
    if |t| == 12 && t[..2] == "\\u" { assert t[..2][0] == t[0]; }
  }

  /** The characters of a string, up to its closing quote. */
  lemma {:induction false} ReadsBody(t: string, s: string, rest: string)
    requires SpellsText(t, s)
    ensures ReadText(t + ("\"" + rest)) == Some((s, rest))
    decreases |s|
  {
    hide SpellsChar, ReadEscape, ReadText;
    if s == "" {
      assert t + ("\"" + rest) == "\"" + rest;
      ClosedAtOnce("\"" + rest);
      assert ("\"" + rest)[1..] == rest;
    } else {
      var n :| 0 < n <= |t| && SpellsChar(t[..n], s[0]) && SpellsText(t[n..], s[1..]);
      var behind := t[n..] + ("\"" + rest);
      assert t + ("\"" + rest) == t[..n] + behind;
      ReadsBody(t[n..], s[1..], rest);
      ReadsFirst(t[..n], s[0], behind);
      assert [s[0]] + s[1..] == s;
    }
  }

  lemma {:induction false} ReadsFirst(front: string, c: char, behind: string)
    requires SpellsChar(front, c)
    ensures ReadText(front + behind) == Prepend(c, ReadText(behind))
  {
    hide SpellsChar, ReadEscape;
    var whole := front + behind;
    CharShape(front, c);
    assert whole[0] == front[0];
    if whole[0] == '\\' {
      ReadsEscape(front, c, behind);
      assert whole[1..] == front[1..] + behind;
    } else {
      assert whole[1..] == behind;
    }
  }

  /** The first character of a string's rest, and what is read behind it. */
  lemma {:induction false} FirstFound(t: string) returns (c: char, front: string, behind: string)
    requires ReadText(t).Some? && t[0] != '"'
    ensures front != "" && t == front + behind && SpellsChar(front, c)
    ensures ReadText(behind).Some? && ReadText(t).value.1 == ReadText(behind).value.1
    ensures var s := ReadText(t).value.0;
      s != "" && s[0] == c && s[1..] == ReadText(behind).value.0
  {
    hide SpellsChar, ReadEscape;
    if t[0] == '\\' {
      c, behind := ReadEscape(t[1..]).value.0, ReadEscape(t[1..]).value.1;
      EscapeFound(t[1..]);
      front := "\\" + t[1..][..|t| - 1 - |behind|];
      assert t == "\\" + t[1..];
      assert t[1..] == t[1..][..|t| - 1 - |behind|] + behind;
    } else {
      c, front, behind := t[0], [t[0]], t[1..];
      ItselfSpelled(c);
    }
  }

  lemma {:induction false} BodyFound(t: string) returns (body: string)
    requires ReadText(t).Some?
    ensures t == body + ("\"" + ReadText(t).value.1) && SpellsText(body, ReadText(t).value.0)
    decreases |t|
  {
    hide ReadText, SpellsText, SpellsChar;
    NotEmpty(t);
    if t[0] == '"' {
      body := "";
      ClosedAtOnce(t);
    } else {
      var c, front, behind := FirstFound(t);
      var more := BodyFound(behind);
      body := front + more;
      Joined(front, more, c, ReadText(t).value.0);
      Reassociated(front, more, ReadText(t).value.1);
    }
  }

  lemma {:induction false} NotEmpty(t: string)
    requires ReadText(t).Some?
    ensures t != ""
  {
  }

  lemma {:induction false} ClosedAtOnce(t: string)
    requires t != "" && t[0] == '"'
    ensures ReadText(t) == Some(("", t[1..])) && SpellsText("", "") && t == "" + ("\"" + t[1..])
  {
  }

  lemma Reassociated(front: string, more: string, rest: string)
    ensures front + (more + ("\"" + rest)) == (front + more) + ("\"" + rest)
  {
  }

  lemma ItselfSpelled(c: char)
    requires c >= ' ' && c != '"' && c != '\\'
    ensures SpellsChar([c], c)
  {
  }

  lemma {:induction false} Joined(front: string, more: string, c: char, s: string)
    requires front != "" && SpellsChar(front, c) && s != "" && s[0] == c && SpellsText(more, s[1..])
    ensures SpellsText(front + more, s)
  {
    hide SpellsChar;
    var t := front + more;
    assert t[..|front|] == front && t[|front|..] == more;
  }

  /** A string with its quotes. */
  lemma {:induction false} ReadsQuotes(t: string, s: string, rest: string)
    requires SpellsString(t, s)
    ensures t != "" && t[0] == '"' && ReadText(t[1..] + rest) == Some((s, rest))
  {
    hide SpellsText;
    var body := t[1..|t| - 1];
    ReadsBody(body, s, rest);
    assert t[1..] + rest == body + ("\"" + rest);
  }

  lemma {:induction false} QuotesFound(t: string)
    requires t != "" && t[0] == '"' && ReadText(t[1..]).Some?
    ensures var (s, rest) := ReadText(t[1..]).value;
      |rest| < |t| && t[|t| - |rest|..] == rest && SpellsString(t[..|t| - |rest|], s)
  {
    hide SpellsText, ReadText;
    var (s, rest) := ReadText(t[1..]).value;
    var body := BodyFound(t[1..]);
    var quoted := t[..|t| - |rest|];
    assert t == "\"" + (body + ("\"" + rest));
    assert quoted == "\"" + (body + "\"");
    assert quoted[1..|quoted| - 1] == body;
  }

  // ----- values -----

  /** The text behind a value does not continue it: only numbers can be continued. */
  predicate Ends(v: Value, rest: string) {
    v.Int? || v.Dec? ==> Boundary(rest)
  }

  predicate Opens(c: char) {
    c == '"' || c == '[' || c == '{'
  }

  lemma {:induction false} ReadsLiteral(t: string, v: Value, rest: string)
    requires v.Null? || v.Bool?
    requires Spells(t, v)
    ensures ReadPlain(t + rest) == Some((v, rest)) && t != "" && !Opens(t[0]) && t[0] !in " \t\n\r"
  {
    hide ReadNumber;
    assert (t + rest)[..|t|] == t && (t + rest)[|t|..] == rest;
    assert t[0] in "ntf";
    NotPrefix(t + rest, "null");
    NotPrefix(t + rest, "true");
    NotPrefix(t + rest, "false");
  }

  lemma NotPrefix(t: string, prefix: string)
    ensures StartsWith(t, prefix) && prefix != "" ==> t != "" && t[0] == prefix[0]
  {
  }

  lemma {:induction false} NumberFirst(n: Number)
    requires NumberOk(n)
    ensures NumberText(n) != "" && (NumberText(n)[0] == '-' || IsDigit(NumberText(n)[0]))
  {
    hide ExponentText, FractionText;
    if !n.negative { assert NumberText(n) == UnsignedText(n); }
  }

  lemma {:induction false} ReadsPlainNumber(t: string, v: Value, rest: string)
    requires SpellsNumber(t, v) && Boundary(rest)
    ensures ReadPlain(t + rest) == Some((v, rest)) && t != "" && !Opens(t[0]) && t[0] !in " \t\n\r"
  {
    hide ReadNumber, NumberOk, NumberText, NumberMeans;
    var n :| NumberOk(n) && t == NumberText(n) && v == NumberMeans(n);
    NumberFirst(n);
    ReadsNumber(n, rest);
    assert (t + rest)[0] == t[0];
    NotPrefix(t + rest, "null");
    NotPrefix(t + rest, "true");
    NotPrefix(t + rest, "false");
  }

  lemma {:induction false} PlainFound(t: string)
    requires ReadPlain(t).Some?
    ensures var (v, rest) := ReadPlain(t).value;
      |rest| < |t| && t[|t| - |rest|..] == rest && Spells(t[..|t| - |rest|], v)
  {
    hide ReadNumber, SpellsNumber;
    if !StartsWith(t, "null") && !StartsWith(t, "true") && !StartsWith(t, "false") {
      NumberFound(t);
      NumberIsNumber(t[..|t| - |ReadNumber(t).value.1|], ReadNumber(t).value.0);
    }
  }

  lemma {:induction false} NumberIsNumber(t: string, v: Value)
    requires SpellsNumber(t, v)
    ensures Spells(t, v)
  {
    hide NumberOk, NumberText;
  }

  lemma {:induction false} ValueSkips(w: string, t: string)
    requires Space(w) && t != "" && t[0] !in " \t\n\r"
    ensures ReadValue(w + t) == ReadValue(t)
  {
    hide SkipSpace, ReadString, ReadArray, ReadObject, ReadPlain;
    SkipsSpace(w, t);
    SkipsSpace("", t);
    assert "" + t == t;
  }

  lemma {:induction false} StartOfPlain(t: string)
    requires t != "" && t[0] !in " \t\n\r" && !Opens(t[0])
    ensures ReadValue(t) == ReadPlain(t)
  {
    hide SkipSpace, ReadPlain;
    SkipsSpace("", t);
    assert "" + t == t;
  }

  lemma {:induction false} StartOfOther(t: string)
    requires t != "" && Opens(t[0])
    ensures ReadValue(t) ==
      if t[0] == '"' then ReadString(t[1..]) else if t[0] == '[' then ReadArray(t[1..]) else ReadObject(t[1..])
  {
    hide SkipSpace, ReadString, ReadArray, ReadObject;
    SkipsSpace("", t);
    assert "" + t == t;
  }

  /** Behind a value in a list or an object: the next separator or the closing bracket. */
  predicate Separated(rest: string) {
    rest != "" && (rest[0] == ',' || rest[0] == ']' || rest[0] == '}')
  }

  /** A spelled value is read whole. */
  lemma {:induction false} ReadsSpelled(t: string, v: Value, rest: string)
    requires Spells(t, v) && Ends(v, rest)
    ensures t != "" && t[0] !in " \t\n\r" && ReadValue(t + rest) == Some((v, rest))
    decreases |t|, 0
  {
    hide ReadValue, ReadPlain, ReadString, ReadArray, ReadObject, SpellsItems, SpellsFields, SpellsString,
         SpellsNumber;
    match v
    case Str(s) => ReadsStringToken(t, s, rest);
    case Arr(items) =>
      ReadsArrayBody(t[1..|t| - 1], items, rest);
      ReadsArrayToken(t, items, rest);
    case Obj(fields) =>
      ReadsObjectBody(t[1..|t| - 1], fields, rest);
      ReadsObjectToken(t, fields, rest);
    case Int(_) =>
      ReadsPlainNumber(t, v, rest);
      StartOfPlain(t + rest);
    case Dec(_) =>
      ReadsPlainNumber(t, v, rest);
      StartOfPlain(t + rest);
    case _ =>
      ReadsLiteral(t, v, rest);
      StartOfPlain(t + rest);
  }

  lemma {:induction false} ReadsStringToken(t: string, s: string, rest: string)
    requires SpellsString(t, s)
    ensures t != "" && t[0] == '"' && ReadValue(t + rest) == Some((Str(s), rest))
  {
    hide ReadValue, ReadString, SpellsString, ReadText;
    ReadsQuotes(t, s, rest);
    StartOfOther(t + rest);
    assert (t + rest)[1..] == t[1..] + rest;
    StringRead(t[1..] + rest);
  }

  lemma {:induction false} ReadsArrayToken(t: string, items: seq<Value>, rest: string)
    requires |t| >= 2 && t[0] == '[' && t[|t| - 1] == ']'
    requires ReadArray(t[1..|t| - 1] + ("]" + rest)) == Some((Arr(items), rest))
    ensures ReadValue(t + rest) == Some((Arr(items), rest))
  {
    hide ReadValue, ReadArray;
    StartOfOther(t + rest);
    assert (t + rest)[1..] == t[1..|t| - 1] + ("]" + rest);
  }

  lemma {:induction false} ReadsObjectToken(t: string, fields: seq<Field>, rest: string)
    requires |t| >= 2 && t[0] == '{' && t[|t| - 1] == '}'
    requires ReadObject(t[1..|t| - 1] + ("}" + rest)) == Some((Obj(fields), rest))
    ensures ReadValue(t + rest) == Some((Obj(fields), rest))
  {
    hide ReadValue, ReadObject;
    StartOfOther(t + rest);
    assert (t + rest)[1..] == t[1..|t| - 1] + ("}" + rest);
  }

  lemma {:induction false} StringRead(t: string)
    ensures ReadText(t).Some? ==> ReadString(t) == Some((Str(ReadText(t).value.0), ReadText(t).value.1))
  {
    hide ReadText;
  }

  /** With white space around it, up to a separator. */
  lemma {:induction false} ReadsPadded(t: string, v: Value, rest: string) returns (behind: string)
    requires Padded(t, v) && Separated(rest)
    ensures ReadValue(t + rest) == Some((v, behind)) && SkipSpace(behind) == rest
    decreases |t|, 1
  {
    hide ReadValue, Spells, SkipSpace, Space;
    var i, j :| 0 <= i <= j <= |t| && Space(t[..i]) && Space(t[j..]) && Spells(t[i..j], v);
    behind := t[j..] + rest;
    SpaceEnds(t[j..], rest, v);
    ReadsSpelled(t[i..j], v, behind);
    ValueSkips(t[..i], t[i..j] + behind);
    assert t + rest == t[..i] + (t[i..j] + behind);
    SkipsSpace(t[j..], rest);
  }

  lemma SpaceEnds(w: string, rest: string, v: Value)
    requires Space(w) && Separated(rest)
    ensures Ends(v, w + rest)
  {
  }

  lemma {:induction false} SkipTwice(t: string)
    ensures SkipSpace(SkipSpace(t)) == SkipSpace(t)
  {
    var i := SkippedIsSpace(t);
    SkipsSpace("", t[i..]);
    assert "" + t[i..] == t[i..];
  }

  lemma {:induction false} ValueSkipsFirst(t: string)
    ensures ReadValue(SkipSpace(t)) == ReadValue(t)
  {
    hide SkipSpace, ReadString, ReadArray, ReadObject, ReadPlain;
    SkipTwice(t);
  }

  lemma {:induction false} ItemsSkipFirst(t: string)
    ensures ReadItems(SkipSpace(t)) == ReadItems(t)
  {
    hide SkipSpace, ReadValue;
    ValueSkipsFirst(t);
  }

  /** No value begins with a closing bracket or a separator. */
  lemma {:induction false} ValueOpens(t: string)
    requires ReadValue(t).Some?
    ensures SkipSpace(t) != "" && SkipSpace(t)[0] !in ",:]}"
  {
    hide SkipSpace, ReadString, ReadArray, ReadObject;
    var u := SkipSpace(t);
    if u != "" && u[0] in ",:]}" {
      NotPrefix(u, "null");
      NotPrefix(u, "true");
      NotPrefix(u, "false");
    }
  }

  lemma {:induction false} ItemsOpen(t: string)
    requires ReadItems(t).Some?
    ensures SkipSpace(t) != "" && SkipSpace(t)[0] != ']'
  {
    hide SkipSpace, ReadValue;
    ValueOpens(t);
  }

  lemma {:induction false} ReadsArrayBody(body: string, items: seq<Value>, rest: string)
    requires if items == [] then Space(body) else SpellsItems(body, items)
    ensures ReadArray(body + ("]" + rest)) == Some((Arr(items), rest))
    decreases |body|, 3
  {
    hide ReadItems, SpellsItems, SkipSpace;
    var t := body + ("]" + rest);
    if items == [] {
      SkipsSpace(body, "]" + rest);
      assert ("]" + rest)[1..] == rest;
    } else {
      ReadsItemsOf(body, items, rest);
      ItemsSkipFirst(t);
      ItemsOpen(t);
    }
  }

  lemma {:induction false} FirstItem(t: string, items: seq<Value>) returns (n: nat)
    requires |items| > 1 && SpellsItems(t, items)
    ensures n < |t| && t[n] == ',' && Padded(t[..n], items[0]) && SpellsItems(t[n + 1..], items[1..])
  {
    hide Padded;
    n :| 0 <= n < |t| && t[n] == ',' && Padded(t[..n], items[0]) && SpellsItems(t[n + 1..], items[1..]);
  }

  lemma {:induction false} OnlyItem(t: string, items: seq<Value>)
    requires |items| == 1 && SpellsItems(t, items)
    ensures Padded(t, items[0]) && items == [items[0]]
  {
    hide Padded;
  }

  lemma {:induction false} ReadsItemsOf(t: string, items: seq<Value>, rest: string)
    requires items != [] && SpellsItems(t, items)
    ensures ReadItems(t + ("]" + rest)) == Some((items, rest))
    decreases |t|, 2
  {
    hide ReadValue, Padded, SkipSpace, ReadItems, SpellsItems;
    var close := "]" + rest;
    assert close[1..] == rest;
    if |items| == 1 {
      OnlyItem(t, items);
      var behind := ReadsPadded(t, items[0], close);
      ItemsUnfold(t + close, items[0], behind, close);
    } else {
      var n := FirstItem(t, items);
      var more := t[n + 1..] + close;
      SplitAt(t, n, close);
      var behind := ReadsPadded(t[..n], items[0], "," + more);
      ReadsItemsOf(t[n + 1..], items[1..], rest);
      ItemsUnfold(t + close, items[0], behind, "," + more);
      assert items == [items[0]] + items[1..];
    }
  }

  lemma {:induction false} ItemsUnfold(t: string, v: Value, behind: string, w: string)
    requires ReadValue(t) == Some((v, behind)) && SkipSpace(behind) == w && w != ""
    ensures w[0] == ']' ==> ReadItems(t) == Some(([v], w[1..]))
    ensures w[0] == ',' && ReadItems(w[1..]).Some? ==>
      ReadItems(t) == Some(([v] + ReadItems(w[1..]).value.0, ReadItems(w[1..]).value.1))
  {
    hide ReadValue, SkipSpace;
  }

  lemma {:induction false} FieldsUnfold(t: string, f: Field, behind: string, w: string)
    requires ReadField(t) == Some((f, behind)) && SkipSpace(behind) == w && w != ""
    ensures w[0] == '}' ==> ReadFields(t) == Some(([f], w[1..]))
    ensures w[0] == ',' && ReadFields(w[1..]).Some? ==>
      ReadFields(t) == Some(([f] + ReadFields(w[1..]).value.0, ReadFields(w[1..]).value.1))
  {
    hide ReadField, SkipSpace;
  }

  lemma {:induction false} ReadsFieldOf(t: string, f: Field, rest: string) returns (behind: string)
    requires SpellsField(t, f) && Separated(rest)
    ensures ReadField(t + rest) == Some((f, behind)) && SkipSpace(behind) == rest
    decreases |t|, 2
  {
    hide ReadValue, Padded, SkipSpace, SpellsString, ReadText, ReadField;
    var i, j, k :| 0 <= i <= j <= k < |t| && Space(t[..i]) && SpellsString(t[i..j], f.key)
      && Space(t[j..k]) && t[k] == ':' && Padded(t[k + 1..], f.value);
    var value := t[k + 1..] + rest;
    behind := ReadsPadded(t[k + 1..], f.value, rest);
    var keyed := KeyRead(t[..i], t[i..j], t[j..k], f.key, value);
    FieldParts(t, i, j, k, rest);
    FieldUnfolds(t + rest, keyed, f.key, t[j..k] + (":" + value), ":" + value, f.value, behind);
  }

  lemma FieldParts(t: string, i: int, j: int, k: int, rest: string)
    requires 0 <= i <= j <= k < |t| && t[k] == ':'
    ensures t + rest == t[..i] + (t[i..j] + (t[j..k] + (":" + (t[k + 1..] + rest))))
    ensures (":" + (t[k + 1..] + rest))[1..] == t[k + 1..] + rest
  {
  }

  lemma {:induction false} KeyRead(before: string, quoted: string, after: string, key: string, value: string)
    returns (keyed: string)
    requires Space(before) && SpellsString(quoted, key) && Space(after)
    ensures keyed == quoted + (after + (":" + value)) && keyed[0] == '"'
    ensures SkipSpace(before + keyed) == keyed
    ensures ReadText(keyed[1..]) == Some((key, after + (":" + value)))
    ensures SkipSpace(after + (":" + value)) == ":" + value
  {
    hide SkipSpace, SpellsString, ReadText;
    keyed := quoted + (after + (":" + value));
    ReadsQuotes(quoted, key, after + (":" + value));
    assert keyed[1..] == quoted[1..] + (after + (":" + value));
    SkipsSpace(before, keyed);
    SkipsSpace(after, ":" + value);
  }

  lemma {:induction false} FieldUnfolds(t: string, u: string, key: string, behind: string, w: string, v: Value,
                                        tail: string)
    requires SkipSpace(t) == u && u != "" && u[0] == '"' && ReadText(u[1..]) == Some((key, behind))
    requires SkipSpace(behind) == w && w != "" && w[0] == ':' && ReadValue(w[1..]) == Some((v, tail))
    ensures ReadField(t) == Some((Field(key, v), tail))
  {
    hide SkipSpace, ReadText, ReadValue;
  }

  lemma SplitAt(t: string, n: nat, behind: string)
    requires n < |t| && t[n] == ','
    ensures t + behind == t[..n] + ("," + (t[n + 1..] + behind))
    ensures ("," + (t[n + 1..] + behind))[1..] == t[n + 1..] + behind
  {
  }

  lemma {:induction false} FirstField(t: string, fields: seq<Field>) returns (n: nat)
    requires |fields| > 1 && SpellsFields(t, fields)
    ensures n < |t| && t[n] == ',' && SpellsField(t[..n], fields[0]) && SpellsFields(t[n + 1..], fields[1..])
  {
    hide SpellsField;
    n :| 0 <= n < |t| && t[n] == ',' && SpellsField(t[..n], fields[0]) && SpellsFields(t[n + 1..], fields[1..]);
  }

  lemma {:induction false} OnlyField(t: string, fields: seq<Field>)
    requires |fields| == 1 && SpellsFields(t, fields)
    ensures SpellsField(t, fields[0]) && fields == [fields[0]]
  {
    hide SpellsField;
  }

  lemma {:induction false} ReadsFieldsOf(t: string, fields: seq<Field>, rest: string)
    requires fields != [] && SpellsFields(t, fields)
    ensures ReadFields(t + ("}" + rest)) == Some((fields, rest))
    decreases |t|, 3
  {
    hide ReadField, SpellsField, SkipSpace, ReadFields, SpellsFields;
    var close := "}" + rest;
    assert close[1..] == rest;
    if |fields| == 1 {
      OnlyField(t, fields);
      var behind := ReadsFieldOf(t, fields[0], close);
      FieldsUnfold(t + close, fields[0], behind, close);
    } else {
      var n := FirstField(t, fields);
      var more := t[n + 1..] + close;
      SplitAt(t, n, close);
      var behind := ReadsFieldOf(t[..n], fields[0], "," + more);
      ReadsFieldsOf(t[n + 1..], fields[1..], rest);
      FieldsUnfold(t + close, fields[0], behind, "," + more);
      assert fields == [fields[0]] + fields[1..];
    }
  }

  lemma {:induction false} FieldsSkipFirst(t: string)
    ensures ReadFields(SkipSpace(t)) == ReadFields(t)
  {
    hide SkipSpace, ReadValue, ReadText;
    SkipTwice(t);
  }

  lemma {:induction false} FieldsOpen(t: string)
    requires ReadFields(t).Some?
    ensures SkipSpace(t) != "" && SkipSpace(t)[0] == '"'
  {
    hide SkipSpace, ReadValue, ReadText;
  }

  lemma {:induction false} ReadsObjectBody(body: string, fields: seq<Field>, rest: string)
    requires if fields == [] then Space(body) else SpellsFields(body, fields)
    ensures ReadObject(body + ("}" + rest)) == Some((Obj(fields), rest))
    decreases |body|, 4
  {
    hide ReadFields, SpellsFields, SkipSpace;
    var t := body + ("}" + rest);
    if fields == [] {
      SkipsSpace(body, "}" + rest);
      assert ("}" + rest)[1..] == rest;
    } else {
      ReadsFieldsOf(body, fields, rest);
      FieldsSkipFirst(t);
      FieldsOpen(t);
    }
  }

  // ----- nothing else is read -----

  /** What was read: white space, and the text of the value. */
  lemma {:induction false} ValueFound(t: string) returns (i: nat)
    requires ReadValue(t).Some?
    ensures var (v, rest) := ReadValue(t).value;
      var m := |t| - |rest|;
      i <= m && t[m..] == rest && Space(t[..i]) && Spells(t[i..m], v)
    decreases |t|, 5
  {
    hide ReadValue, SkipSpace, Spells, TokenRead;
    i := SkippedIsSpace(t);
    var u := t[i..];
    ValueBehindSpace(t, u);
    TokenFound(u);
    var rest := ReadValue(t).value.1;
    assert t[|t| - |rest|..] == u[|u| - |rest|..] && t[i..|t| - |rest|] == u[..|u| - |rest|];
  }

  /** What is read from the first character of a value on. */
  function TokenRead(u: string): Option<(Value, string)>
    requires u != ""
  {
    if u[0] == '"' then ReadString(u[1..])
    else if u[0] == '[' then ReadArray(u[1..])
    else if u[0] == '{' then ReadObject(u[1..])
    else ReadPlain(u)
  }

  lemma {:induction false} TokenFound(u: string)
    requires u != "" && TokenRead(u).Some?
    ensures var (v, rest) := TokenRead(u).value;
      |rest| <= |u| && u[|u| - |rest|..] == rest && Spells(u[..|u| - |rest|], v)
    decreases |u|, 4
  {
    hide ReadText, ReadPlain, ReadArray, ReadObject, Spells, SpellsString, ReadString;
    if u[0] == '"' {
      StringFound(u);
    } else if u[0] == '[' {
      ArrayFound(u);
    } else if u[0] == '{' {
      ObjectFound(u);
    } else {
      PlainFound(u);
    }
  }

  lemma {:induction false} ValueBehindSpace(t: string, u: string)
    requires SkipSpace(t) == u && ReadValue(t).Some?
    ensures u != "" && ReadValue(t) == TokenRead(u)
  {
    hide SkipSpace, ReadString, ReadArray, ReadObject, ReadPlain;
  }

  lemma {:induction false} StringFound(u: string)
    requires u != "" && u[0] == '"' && ReadString(u[1..]).Some?
    ensures var (v, rest) := ReadString(u[1..]).value;
      |rest| <= |u| && u[|u| - |rest|..] == rest && Spells(u[..|u| - |rest|], v)
  {
    hide ReadText, SpellsString;
    QuotesFound(u);
  }

  /** Trailing white space belongs to the padding. */
  lemma {:induction false} PaddedWith(t: string, i: nat, m: nat, n: nat, v: Value)
    requires i <= m <= n <= |t| && Space(t[..i]) && Spells(t[i..m], v) && Space(t[m..n])
    ensures Padded(t[..n], v)
  {
    hide Spells;
    var u := t[..n];
    assert u[..i] == t[..i] && u[i..m] == t[i..m] && u[m..] == t[m..n];
  }

  /** A value and the space behind it: where the next character is. */
  lemma {:induction false} PaddedFound(t: string) returns (n: nat)
    requires ReadValue(t).Some?
    ensures n <= |t| && SkipSpace(ReadValue(t).value.1) == t[n..] && Padded(t[..n], ReadValue(t).value.0)
    decreases |t|, 6
  {
    hide ReadValue, SkipSpace, Spells, Padded;
    var (v, rest) := ReadValue(t).value;
    var i := ValueFound(t);
    var m := |t| - |rest|;
    var k := SkippedIsSpace(rest);
    n := m + k;
    assert t[m..n] == rest[..k] && t[n..] == rest[k..];
    PaddedWith(t, i, m, n, v);
  }

  lemma {:induction false} ItemsFound(t: string) returns (n: nat)
    requires ReadItems(t).Some?
    ensures var (items, rest) := ReadItems(t).value;
      n < |t| && t[n] == ']' && t[n + 1..] == rest && items != [] && SpellsItems(t[..n], items)
    decreases |t|, 7
  {
    hide ReadValue, SkipSpace, Padded;
    n := PaddedFound(t);
    var v := ReadValue(t).value.0;
    if t[n] == ']' {
      assert t[n..][1..] == t[n + 1..];
      OneItem(t[..n], v);
    } else {
      assert t[n..][1..] == t[n + 1..];
      var k := ItemsFound(t[n + 1..]);
      hide ReadItems, SpellsItems;
      MoreItems(t, n, k, v, ReadItems(t[n + 1..]).value.0);
      n := n + 1 + k;
    }
  }

  lemma {:induction false} OneItem(t: string, v: Value)
    requires Padded(t, v)
    ensures SpellsItems(t, [v])
  {
    hide Padded;
  }

  lemma {:induction false} MoreItems(t: string, n: nat, k: nat, v: Value, items: seq<Value>)
    requires n < |t| && t[n] == ',' && n + 1 + k <= |t| && items != []
    requires Padded(t[..n], v) && SpellsItems(t[n + 1..][..k], items)
    ensures SpellsItems(t[..n + 1 + k], [v] + items)
  {
    hide Padded;
    var u, all := t[..n + 1 + k], [v] + items;
    assert u[n] == ',' && u[..n] == t[..n] && u[n + 1..] == t[n + 1..][..k];
    assert all[0] == v && all[1..] == items;
  }

  lemma {:induction false} ArrayFound(u: string)
    requires u != "" && u[0] == '[' && ReadArray(u[1..]).Some?
    ensures var (v, rest) := ReadArray(u[1..]).value;
      |rest| < |u| && u[|u| - |rest|..] == rest && Spells(u[..|u| - |rest|], v)
    decreases |u|, 3
  {
    hide ReadItems, SkipSpace, SpellsItems;
    var t := u[1..];
    var (v, rest) := ReadArray(t).value;
    var i := SkippedIsSpace(t);
    if t[i..] != "" && t[i] == ']' {
      assert rest == t[i + 1..] == u[i + 2..];
      assert u[..i + 2][1..i + 1] == t[..i];
    } else {
      ItemsSkipFirst(t);
      var n := ItemsFound(t);
      assert rest == t[n + 1..] == u[n + 2..];
      assert u[..n + 2][1..n + 1] == t[..n];
    }
  }

  /** Where the key of a field is, and its colon. */
  lemma {:induction false} KeyFound(t: string) returns (i: nat, j: nat, k: nat)
    requires ReadField(t).Some?
    ensures i <= j <= k < |t| && Space(t[..i]) && SpellsString(t[i..j], ReadField(t).value.0.key)
    ensures Space(t[j..k]) && t[k] == ':' && ReadValue(t[k + 1..]).Some?
    ensures ReadField(t).value.0.value == ReadValue(t[k + 1..]).value.0
    ensures ReadField(t).value.1 == ReadValue(t[k + 1..]).value.1
  {
    hide ReadValue, SkipSpace, ReadText, SpellsString, ReadField, Space;
    i := SkippedIsSpace(t);
    var u := t[i..];
    var behind := FieldRead(t, u);
    QuotesFound(u);
    j := |t| - |behind|;
    var s := SkippedIsSpace(behind);
    k := j + s;
    KeyPlaces(t, i, j, s, u, behind);
  }

  lemma KeyPlaces(t: string, i: nat, j: nat, s: nat, u: string, behind: string)
    requires i <= |t| && u == t[i..] && |behind| <= |u| && u[|u| - |behind|..] == behind
    requires j == |t| - |behind| && s < |behind|
    ensures t[i..j] == u[..|u| - |behind|] && t[j..j + s] == behind[..s] && t[j + s] == behind[s]
    ensures t[j + s + 1..] == behind[s..][1..]
  {
  }

  lemma FieldRead(t: string, u: string) returns (behind: string)
    requires ReadField(t).Some? && SkipSpace(t) == u
    ensures u != "" && u[0] == '"' && ReadText(u[1..]) == Some((ReadField(t).value.0.key, behind))
    ensures SkipSpace(behind) != "" && SkipSpace(behind)[0] == ':' && ReadValue(SkipSpace(behind)[1..]).Some?
    ensures ReadField(t).value.0.value == ReadValue(SkipSpace(behind)[1..]).value.0
    ensures ReadField(t).value.1 == ReadValue(SkipSpace(behind)[1..]).value.1
  {
    hide SkipSpace, ReadText, ReadValue;
    behind := ReadText(u[1..]).value.1;
  }

  lemma {:induction false} FieldFound(t: string) returns (n: nat)
    requires ReadField(t).Some?
    ensures n <= |t| && SkipSpace(ReadField(t).value.1) == t[n..] && SpellsField(t[..n], ReadField(t).value.0)
    decreases |t|, 7
  {
    hide ReadValue, SkipSpace, Padded, SpellsString, ReadField, Space, SpellsField;
    var i, j, k := KeyFound(t);
    var m := PaddedFound(t[k + 1..]);
    n := k + 1 + m;
    assert t[n..] == t[k + 1..][m..];
    FieldSpelled(t, i, j, k, n, ReadField(t).value.0);
  }

  lemma {:induction false} FieldSpelled(t: string, i: nat, j: nat, k: nat, n: nat, f: Field)
    requires i <= j <= k < n <= |t| && Space(t[..i]) && SpellsString(t[i..j], f.key)
    requires Space(t[j..k]) && t[k] == ':' && Padded(t[k + 1..][..n - k - 1], f.value)
    ensures SpellsField(t[..n], f)
  {
    hide Padded, SpellsString;
    var u := t[..n];
    assert u[..i] == t[..i] && u[i..j] == t[i..j] && u[j..k] == t[j..k] && u[k] == t[k];
    assert u[k + 1..] == t[k + 1..][..n - k - 1];
  }

  lemma {:induction false} FieldsFound(t: string) returns (n: nat)
    requires ReadFields(t).Some?
    ensures var (fields, rest) := ReadFields(t).value;
      n < |t| && t[n] == '}' && t[n + 1..] == rest && fields != [] && SpellsFields(t[..n], fields)
    decreases |t|, 8
  {
    hide ReadField, SkipSpace, SpellsField;
    n := FieldFound(t);
    var f := ReadField(t).value.0;
    if t[n] == '}' {
      assert t[n..][1..] == t[n + 1..];
      OneSpelledField(t[..n], f);
    } else {
      assert t[n..][1..] == t[n + 1..];
      var k := FieldsFound(t[n + 1..]);
      hide ReadFields, SpellsFields;
      MoreFields(t, n, k, f, ReadFields(t[n + 1..]).value.0);
      n := n + 1 + k;
    }
  }

  lemma {:induction false} OneSpelledField(t: string, f: Field)
    requires SpellsField(t, f)
    ensures SpellsFields(t, [f])
  {
    hide SpellsField;
  }

  lemma {:induction false} MoreFields(t: string, n: nat, k: nat, f: Field, fields: seq<Field>)
    requires n < |t| && t[n] == ',' && n + 1 + k <= |t| && fields != []
    requires SpellsField(t[..n], f) && SpellsFields(t[n + 1..][..k], fields)
    ensures SpellsFields(t[..n + 1 + k], [f] + fields)
  {
    hide SpellsField;
    var u, all := t[..n + 1 + k], [f] + fields;
    assert u[n] == ',' && u[..n] == t[..n] && u[n + 1..] == t[n + 1..][..k];
    assert all[0] == f && all[1..] == fields;
  }

  lemma {:induction false} ObjectFound(u: string)
    requires u != "" && u[0] == '{' && ReadObject(u[1..]).Some?
    ensures var (v, rest) := ReadObject(u[1..]).value;
      |rest| < |u| && u[|u| - |rest|..] == rest && Spells(u[..|u| - |rest|], v)
    decreases |u|, 3
  {
    hide ReadFields, SkipSpace, SpellsFields;
    var t := u[1..];
    var (v, rest) := ReadObject(t).value;
    var i := SkippedIsSpace(t);
    if t[i..] != "" && t[i] == '}' {
      assert rest == t[i + 1..] == u[i + 2..];
      assert u[..i + 2][1..i + 1] == t[..i];
    } else {
      FieldsSkipFirst(t);
      var n := FieldsFound(t);
      assert rest == t[n + 1..] == u[n + 2..];
      assert u[..n + 2][1..n + 1] == t[..n];
    }
  }

  // ----- documents -----

  /** The reader accepts exactly the texts of the grammar, and reads what they spell. */
  lemma {:induction false} ReadsExactly(t: string, v: Value)
    ensures ReadDocument(t) == Some(v) <==> Padded(t, v)
  {
    hide ReadValue, SkipSpace, Spells;
    if ReadDocument(t) == Some(v) {
      hide Padded;
      var n := PaddedFound(t);
      assert t[..n] == t;
    }
    if Padded(t, v) {
      var i, j :| 0 <= i <= j <= |t| && Space(t[..i]) && Space(t[j..]) && Spells(t[i..j], v);
      BoundaryOfSpace(t[j..], v);
      ReadsSpelled(t[i..j], v, t[j..]);
      ValueSkips(t[..i], t[i..j] + t[j..]);
      assert t == t[..i] + (t[i..j] + t[j..]);
      SkipsSpace(t[j..], "");
      assert t[j..] + "" == t[j..];
    }
  }

  lemma BoundaryOfSpace(w: string, v: Value)
    requires Space(w)
    ensures Ends(v, w)
  {
  }

  /** A text spells one value at most. */
  lemma {:induction false} Unambiguous(t: string, v: Value, w: Value)
    requires Padded(t, v) && Padded(t, w)
    ensures v == w
  {
    hide Padded, ReadDocument;
    ReadsExactly(t, v);
    ReadsExactly(t, w);
  }

  /** What `loads_strict` accepts, and as what: texts of at most 8 MiB that spell a value
      without a repeated key, at most 32 deep, with its numbers within their limits. */
  lemma {:induction false} LoadsExactly(t: string, v: Value)
    ensures Loaded(t) == Ok(v) <==>
      && Utf8Length(t) <= 8_388_608 && Padded(t, v)
      && UniqueKeys(v) && Height(v) <= 32 && DigitsFine(v) && NumbersFine(v)
  {
    hide Loaded, Utf8Length, ReadDocument, Padded, UniqueKeys, Height, DigitsFine, NumbersFine;
    LoadedExactly(t);
    ReadsExactly(t, v);
  }
}
