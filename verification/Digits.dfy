/** Decimal notation of natural numbers: what `str(int)` prints and `int(text)` reads. */
module Digits {

  predicate IsDigit(c: char) {
    '0' <= c <= '9'
  }

  predicate AllDigits(s: string) {
    forall i :: 0 <= i < |s| ==> IsDigit(s[i])
  }

  function DigitChar(d: nat): (c: char)
    requires d < 10
    ensures IsDigit(c) && CharDigit(c) == d
    ensures c == '0' <==> d == 0
  {
    (('0' as int) + d) as char
  }

  function CharDigit(c: char): (d: nat)
    requires IsDigit(c)
    ensures d < 10
  {
    (c as int) - ('0' as int)
  }

  function NatText(n: nat): (s: string)
    ensures s != [] && AllDigits(s)
  {
    if n < 10 then [DigitChar(n)] else NatText(n / 10) + [DigitChar(n % 10)]
  }

  function TextNat(s: string): nat
    requires AllDigits(s)
  {
    if s == [] then 0 else TextNat(s[..|s| - 1]) * 10 + CharDigit(s[|s| - 1])
  }

  function Zeros(k: nat): (s: string)
    ensures |s| == k && AllDigits(s)
    ensures forall i :: 0 <= i < k ==> s[i] == '0'
  {
    if k == 0 then [] else Zeros(k - 1) + ['0']
  }

  function Pow(b: nat, k: nat): nat {
    if k == 0 then 1 else b * Pow(b, k - 1)
  }

  /** Number of decimal digits printed for `n`. */
  function DigitCount(n: nat): nat {
    |NatText(n)|
  }

  lemma {:induction false} NatTextValue(n: nat)
    ensures TextNat(NatText(n)) == n
  {
    if n >= 10 {
      NatTextValue(n / 10);
      var s := NatText(n);
      assert s[..|s| - 1] == NatText(n / 10);
    } else {
      assert NatText(n)[..0] == [];
    }
  }

  lemma {:induction false} NatTextLeading(n: nat)
    ensures NatText(n)[0] == '0' <==> n == 0
    ensures n == 0 ==> NatText(n) == "0"
  {
    if n >= 10 { NatTextLeading(n / 10); }
  }

  lemma {:induction false} TextNatZeros(k: nat, s: string)
    requires AllDigits(s)
    ensures AllDigits(Zeros(k) + s) && TextNat(Zeros(k) + s) == TextNat(s)
    decreases |s|, k
  {
    if s != [] {
      var t := Zeros(k) + s;
      assert t[..|t| - 1] == Zeros(k) + s[..|s| - 1];
      TextNatZeros(k, s[..|s| - 1]);
    } else if k > 0 {
      assert Zeros(k) + s == Zeros(k);
      assert Zeros(k)[..k - 1] == Zeros(k - 1);
      TextNatZeros(k - 1, s);
      assert Zeros(k - 1) + s == Zeros(k - 1);
    }
  }

  /** Appending zeros multiplies by a power of ten, in text as in value. */
  lemma {:induction false} NatTextShift(n: nat, k: nat)
    requires n > 0
    ensures n * Pow(10, k) > 0 && NatText(n * Pow(10, k)) == NatText(n) + Zeros(k)
  {
    if k == 0 {
      assert NatText(n) + Zeros(0) == NatText(n);
    } else {
      NatTextShift(n, k - 1);
      ShiftOne(n, Pow(10, k - 1));
      TimesTen(n * Pow(10, k - 1));
      assert NatText(n) + Zeros(k) == (NatText(n) + Zeros(k - 1)) + ['0'];
    }
  }

  lemma ShiftOne(n: nat, p: nat)
    ensures n * (10 * p) == (n * p) * 10
  {
  }

  lemma {:induction false} TimesTen(m: nat)
    requires m > 0
    ensures m * 10 > 0 && NatText(m * 10) == NatText(m) + ['0']
  {
    assert (m * 10) / 10 == m && (m * 10) % 10 == 0;
  }

  lemma {:induction false} PowPositive(b: nat, k: nat)
    requires b > 0
    ensures Pow(b, k) > 0
  {
    if k > 0 { PowPositive(b, k - 1); }
  }

  lemma {:induction false} PowAdd(b: nat, j: nat, k: nat)
    ensures Pow(b, j + k) == Pow(b, j) * Pow(b, k)
  {
    hide Pow;
    PowZero(b);
    if j > 0 {
      PowAdd(b, j - 1, k);
      PowNext(b, j + k);
      PowNext(b, j);
      Associate(b, Pow(b, j - 1), Pow(b, k));
    }
  }

  lemma {:induction false} PowZero(b: nat)
    ensures Pow(b, 0) == 1
  {
  }

  lemma PowNext(b: nat, k: nat)
    requires k > 0
    ensures Pow(b, k) == b * Pow(b, k - 1)
  {
  }

  lemma Associate(b: nat, x: nat, y: nat)
    ensures b * (x * y) == (b * x) * y
  {
  }

  lemma Enlarges(b: nat, x: nat)
    requires b > 0
    ensures x <= b * x
  {
  }

  /** `DigitCount` is the least k with n < 10^k (and at least 1). */
  lemma {:induction false} DigitCountBounds(n: nat)
    ensures n < Pow(10, DigitCount(n))
    ensures n > 0 ==> Pow(10, DigitCount(n) - 1) <= n
  {
    if n >= 10 {
      DigitCountBounds(n / 10);
      var k := DigitCount(n / 10);
      assert DigitCount(n) == k + 1;
      assert Pow(10, k + 1) == 10 * Pow(10, k);
      assert Pow(10, k) == 10 * Pow(10, k - 1);
    }
  }

  lemma {:induction false} PowMonotone(b: nat, j: nat, k: nat)
    requires b > 0 && j <= k
    ensures Pow(b, j) <= Pow(b, k)
  {
    hide Pow;
    if j < k {
      PowMonotone(b, j, k - 1);
      PowNext(b, k);
      Enlarges(b, Pow(b, k - 1));
    }
  }

  lemma DigitCountMonotone(m: nat, n: nat)
    requires m <= n
    ensures DigitCount(m) <= DigitCount(n)
  {
    DigitCountBounds(m);
    DigitCountBounds(n);
    if m > 0 && DigitCount(m) > DigitCount(n) {
      PowMonotone(10, DigitCount(n), DigitCount(m) - 1);
    } else if m == 0 {
      assert DigitCount(m) == 1;
    }
  }
}
