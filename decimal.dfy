/**
  Decimal digit strings: the text form that JavaScript's BigInt reads
  (`BigInt("1234")`) and writes (`n.toString()`), and the helpers that
  `formatUnits` builds on (`padStart`, the trailing-zero trim).
*/
module Decimal {

  predicate IsDigit(c: char) { '0' <= c <= '9' }

  predicate IsDigits(s: string) { forall i :: 0 <= i < |s| ==> IsDigit(s[i]) }

  function DigitValue(c: char): (d: nat)
    requires IsDigit(c)
    ensures d < 10
  {
    (c as int) - ('0' as int)
  }

  function DigitChar(d: nat): (c: char)
    requires d < 10
    ensures IsDigit(c) && DigitValue(c) == d
  {
    (('0' as int) + d) as char
  }

  /** The number a digit string denotes, most significant digit first. */
  function Value(s: string): nat
    requires IsDigits(s)
  {
    if s == [] then 0 else 10 * Value(s[..|s| - 1]) + DigitValue(s[|s| - 1])
  }

  function Pow10(k: nat): (p: nat)
    ensures p >= 1
  {
    if k == 0 then 1 else 10 * Pow10(k - 1)
  }

  /** `n.toString()` for a non-negative BigInt: its digits without leading zeros. */
  function ToDecimal(n: nat): (s: string)
    ensures IsDigits(s) && |s| >= 1
    ensures Value(s) == n
  {
    if n < 10 then [DigitChar(n)]
    else
      var p := ToDecimal(n / 10);
      assert (p + [DigitChar(n % 10)])[..|p|] == p;
      p + [DigitChar(n % 10)]
  }

  function Zeros(k: nat): (z: string)
    ensures |z| == k && IsDigits(z)
    ensures forall i :: 0 <= i < k ==> z[i] == '0'
  {
    if k == 0 then [] else Zeros(k - 1) + ['0']
  }

  /** `s.padStart(k, '0')`: left-pads with zeros up to length k; a longer string is kept. */
  function PadStart(s: string, k: nat): (r: string)
    ensures |r| == if |s| >= k then |s| else k
    ensures IsDigits(s) ==> IsDigits(r)
  {
    if |s| >= k then s else Zeros(k - |s|) + s
  }

  /** `s.replace(/0+$/, '')`: drops the maximal run of trailing '0' characters. */
  function TrimTrailingZeros(s: string): (r: string)
    ensures |r| <= |s| && r == s[..|r|]
    ensures forall i :: |r| <= i < |s| ==> s[i] == '0'
    ensures r == [] || r[|r| - 1] != '0'
  {
    if s != [] && s[|s| - 1] == '0' then TrimTrailingZeros(s[..|s| - 1]) else s
  }

  /** Reading a concatenation: the left part is shifted by the length of the right part. */
  lemma {:induction false} ValueAppend(a: string, b: string)
    requires IsDigits(a) && IsDigits(b)
    ensures IsDigits(a + b)
    ensures Value(a + b) == Value(a) * Pow10(|b|) + Value(b)
  {
    if b == [] {
      assert a + b == a;
    } else {
      var b' := b[..|b| - 1];
      var d := DigitValue(b[|b| - 1]);
      assert (a + b)[..|a + b| - 1] == a + b';
      ValueAppend(a, b');
      var v, p := Value(a), Pow10(|b'|);
      assert Value(a + b) == 10 * (v * p + Value(b')) + d;
      ShiftByTen(v, p);
      assert Value(b) == 10 * Value(b') + d;
    }
  }

  lemma ShiftByTen(v: nat, p: nat)
    ensures 10 * (v * p) == v * (10 * p)
  {
  }

  lemma {:induction false} ZerosValue(k: nat)
    ensures Value(Zeros(k)) == 0
  {
    if k > 0 {
      assert Zeros(k)[..k - 1] == Zeros(k - 1);
      ZerosValue(k - 1);
    }
  }

  /** Left-padding with zeros does not change the number. */
  lemma {:induction false} PadStartValue(s: string, k: nat)
    requires IsDigits(s)
    ensures Value(PadStart(s, k)) == Value(s)
  {
    if |s| < k {
      var z := Zeros(k - |s|);
      assert PadStart(s, k) == z + s;
      ValueAppend(z, s);
      ZerosValue(k - |s|);
      assert Value(z) * Pow10(|s|) == 0;
    }
  }

  /** Trimming z trailing zeros divides the number by 10^z exactly. */
  lemma {:induction false} TrimTrailingZerosValue(s: string)
    requires IsDigits(s)
    ensures IsDigits(TrimTrailingZeros(s))
    ensures Value(s) == Value(TrimTrailingZeros(s)) * Pow10(|s| - |TrimTrailingZeros(s)|)
  {
    var r := TrimTrailingZeros(s);
    var z := s[|r|..];
    assert s == r + z;
    assert z == Zeros(|s| - |r|);
    ValueAppend(r, z);
    ZerosValue(|z|);
  }

  /** A number below 10^k has at most k digits. */
  lemma {:induction false} ToDecimalLength(n: nat, k: nat)
    requires 1 <= k && n < Pow10(k)
    ensures |ToDecimal(n)| <= k
  {
    if n >= 10 {
      assert Pow10(1) == 10;
      ToDecimalLength(n / 10, k - 1);
    }
  }

  /** A digit string of length k denotes a number below 10^k. */
  lemma {:induction false} ValueBound(s: string)
    requires IsDigits(s)
    ensures Value(s) < Pow10(|s|)
  {
    if s != [] {
      ValueBound(s[..|s| - 1]);
    }
  }

  /** Equal-length digit strings that denote the same number are the same string. */
  lemma {:induction false} ValueInjective(a: string, b: string)
    requires IsDigits(a) && IsDigits(b) && |a| == |b| && Value(a) == Value(b)
    ensures a == b
  {
    if a != [] {
      var a', b' := a[..|a| - 1], b[..|b| - 1];
      var x, y := a[|a| - 1], b[|b| - 1];
      assert Value(a) == 10 * Value(a') + DigitValue(x);
      assert Value(b) == 10 * Value(b') + DigitValue(y);
      LastDigitUnique(Value(a'), DigitValue(x), Value(b'), DigitValue(y));
      assert x == y by {
        DigitValueInjective(x, y);
      }
      ValueInjective(a', b');
      assert a == a' + [x] && b == b' + [y];
    }
  }

  lemma LastDigitUnique(p: nat, x: nat, q: nat, y: nat)
    requires x < 10 && y < 10 && 10 * p + x == 10 * q + y
    ensures x == y && p == q
  {
  }

  lemma DigitValueInjective(x: char, y: char)
    requires IsDigit(x) && IsDigit(y) && DigitValue(x) == DigitValue(y)
    ensures x == y
  {
  }

  /** Exponents add: 10^(a+b) = 10^a * 10^b. */
  lemma {:induction false} Pow10Add(a: nat, b: nat)
    ensures Pow10(a + b) == Pow10(a) * Pow10(b)
  {
    if b > 0 {
      Pow10Add(a, b - 1);
      ShiftByTen(Pow10(a), Pow10(b - 1));
    }
  }

  /** Trailing zeros appended to a string are trimmed away again. */
  lemma {:induction false} TrimTrailingZerosOfZeros(s: string, k: nat)
    ensures TrimTrailingZeros(s + Zeros(k)) == TrimTrailingZeros(s)
  {
    if k > 0 {
      assert (s + Zeros(k))[..|s| + k - 1] == s + Zeros(k - 1);
      TrimTrailingZerosOfZeros(s, k - 1);
    } else {
      assert s + Zeros(k) == s;
    }
  }
}
