/**
  The pure helpers of src/utils.js: the signature comparison, the
  fixed-point amount renderer and the address mask.
*/
module Utils {
  import opened Wrappers
  import opened Decimal
  import opened Js
  import Utf8

  // ---------------------------------------------------------------------
  // timingSafeEqualHex
  // ---------------------------------------------------------------------

  /**
    Compares the UTF-8 bytes of both strings: a length mismatch is a
    mismatch, otherwise the bytes decide. The constant-time behaviour of the
    byte comparison is a timing property and is not part of the model.
  */
  function TimingSafeEqualHex(a: string, b: string): (r: bool)
    ensures |Utf8.Encode(a)| != |Utf8.Encode(b)| ==> !r
    ensures r <==> Utf8.Encode(a) == Utf8.Encode(b)
  {
    var bytesA, bytesB := Utf8.Encode(a), Utf8.Encode(b);
    if |bytesA| != |bytesB| then false else bytesA == bytesB
  }

  /** Because UTF-8 is injective, the comparison is string equality: reflexive and symmetric. */
  lemma {:induction false} TimingSafeEqualHexIsEquality(a: string, b: string)
    ensures TimingSafeEqualHex(a, b) <==> a == b
    ensures TimingSafeEqualHex(a, b) == TimingSafeEqualHex(b, a)
    ensures TimingSafeEqualHex(a, a)
  {
    Utf8.EncodeInjective(a, b);
  }

  // ---------------------------------------------------------------------
  // formatUnits
  // ---------------------------------------------------------------------

  /** The digits after the '.': the remainder left-padded to `decimals` digits, trailing zeros removed. */
  function FractionDigits(frac: nat, decimals: nat): (f: string)
    ensures f == [] || f[|f| - 1] != '0'
  {
    TrimTrailingZeros(PadStart(ToDecimal(frac), decimals))
  }

  /** The printed form of whole + frac * 10^-decimals, for a remainder frac below 10^decimals. */
  function Render(whole: nat, frac: nat, decimals: nat): string
  {
    if frac == 0 then ToDecimal(whole) else ToDecimal(whole) + ("." + FractionDigits(frac, decimals))
  }

  /** An amount split at the decimal point: `whole = n / 10^d` and `frac = n % 10^d`. */
  datatype Split = Split(whole: nat, frac: nat)

  /** BigInt `/` and `%` by 10^decimals on a non-negative amount. */
  function SplitAt(n: nat, decimals: nat): (r: Split)
    ensures r.frac < Pow10(decimals)
    ensures r.whole * Pow10(decimals) + r.frac == n
  {
    var d := Pow10(decimals);
    DivMod(n, d);
    Split(n / d, n % d)
  }

  /** The successful path of `formatUnits`: quotient and remainder by 10^decimals. */
  function Scale(n: nat, decimals: nat): string
  {
    var r := SplitAt(n, decimals);
    Render(r.whole, r.frac, decimals)
  }

  /** No fractional part is printed exactly when 10^decimals divides the amount. */
  lemma {:induction false} ScaleIsWhole(n: nat, decimals: nat, whole: nat, frac: nat)
    requires frac < Pow10(decimals) && whole * Pow10(decimals) + frac == n
    ensures Scale(n, decimals) == ToDecimal(whole) <==> frac == 0
  {
    ScaleOfSplit(n, decimals, whole, frac);
  }

  /**
    `formatUnits(amountStr, decimals)`: a BigInt parse failure, or a negative
    exponent (a RangeError in `10n ** BigInt(decimals)`), returns the input.
  */
  function FormatUnits(amountStr: string, decimals: int): (r: string)
    ensures StringToBigInt(amountStr).None? ==> r == amountStr
    ensures decimals < 0 ==> r == amountStr
    ensures StringToBigInt(amountStr).Some? && decimals >= 0 ==> r == Scale(StringToBigInt(amountStr).value, decimals)
  {
    match StringToBigInt(amountStr)
    case None => amountStr
    case Some(n) => if decimals < 0 then amountStr else Scale(n, decimals)
  }

  /** Position of the first '.', or |s| when there is none. */
  function IndexOfDot(s: string): (i: nat)
    ensures i <= |s|
    ensures forall j :: 0 <= j < i ==> s[j] != '.'
    ensures i < |s| ==> s[i] == '.'
  {
    if s == [] || s[0] == '.' then 0 else 1 + IndexOfDot(s[1..])
  }

  /**
    Reads a decimal string "W" or "W.F" back as an integer number of
    10^-d units; None when it is not of that form or F has more than d digits.
  */
  function ReadScaled(r: string, d: nat): Option<nat>
  {
    var i := IndexOfDot(r);
    var w := r[..i];
    if w == [] || !IsDigits(w) then None
    else if i == |r| then Some(Value(w) * Pow10(d))
    else
      var f := r[i + 1..];
      if IsDigits(f) && |f| <= d then Some(Value(w) * Pow10(d) + Value(f) * Pow10(d - |f|))
      else None
  }

  lemma {:induction false} DigitsHaveNoDot(s: string)
    requires IsDigits(s)
    ensures IndexOfDot(s) == |s|
  {
  }

  lemma {:induction false} IndexOfDotAfterDigits(w: string, rest: string)
    requires IsDigits(w) && rest != [] && rest[0] == '.'
    ensures IndexOfDot(w + rest) == |w|
  {
    if w != [] {
      assert (w + rest)[1..] == w[1..] + rest;
      IndexOfDotAfterDigits(w[1..], rest);
    } else {
      assert w + rest == rest;
    }
  }

  /**
    A non-zero remainder below 10^d prints as 1 to d digits that do not end
    in '0' and denote the remainder in units of 10^-d.
  */
  lemma {:induction false} FractionDigitsShape(frac: nat, d: nat)
    requires 0 < frac < Pow10(d)
    ensures var f := FractionDigits(frac, d);
            && 1 <= |f| <= d && IsDigits(f) && f[|f| - 1] != '0'
            && Value(f) * Pow10(d - |f|) == frac
  {
    var digits := ToDecimal(frac);
    assert |digits| <= d by {
      assert d >= 1 by {
        assert Pow10(0) == 1;
      }
      ToDecimalLength(frac, d);
    }
    var padded := PadStart(digits, d);
    assert |padded| == d && IsDigits(padded);
    assert Value(padded) == frac by {
      PadStartValue(digits, d);
    }
    TrimTrailingZerosValue(padded);
    var f := TrimTrailingZeros(padded);
    assert f == FractionDigits(frac, d);
    assert Value(f) * Pow10(d - |f|) == frac;
  }

  /** A zero remainder is printed as the quotient alone, without a '.'. */
  lemma {:induction false} RenderWhole(whole: nat, d: nat)
    ensures Render(whole, 0, d) == ToDecimal(whole)
    ensures IndexOfDot(Render(whole, 0, d)) == |Render(whole, 0, d)|
  {
    DigitsHaveNoDot(ToDecimal(whole));
  }

  /** A digit string, a '.', and anything: the first '.' is the one after the digits. */
  lemma {:induction false} SplitAtDot(w: string, f: string)
    requires IsDigits(w)
    ensures IndexOfDot(w + ("." + f)) == |w|
    ensures (w + ("." + f))[..|w|] == w
    ensures (w + ("." + f))[|w| + 1..] == f
  {
    IndexOfDotAfterDigits(w, "." + f);
  }

  lemma {:induction false} RenderRoundTrip(whole: nat, frac: nat, d: nat)
    requires frac < Pow10(d)
    ensures ReadScaled(Render(whole, frac, d), d) == Some(whole * Pow10(d) + frac)
  {
    if frac == 0 {
      RenderWhole(whole, d);
      ReadScaledWhole(Render(whole, frac, d), d);
    } else {
      RenderFractionRoundTrip(whole, frac, d);
    }
  }

  lemma {:induction false} RenderFractionRoundTrip(whole: nat, frac: nat, d: nat)
    requires 0 < frac < Pow10(d)
    ensures ReadScaled(Render(whole, frac, d), d) == Some(whole * Pow10(d) + frac)
  {
    var w, f := ToDecimal(whole), FractionDigits(frac, d);
    FractionDigitsShape(frac, d);
    ReadScaledFraction(w, f, d, whole, frac);
  }

  lemma {:induction false} ReadScaledWhole(w: string, d: nat)
    requires IndexOfDot(w) == |w| && w != [] && IsDigits(w)
    ensures ReadScaled(w, d) == Some(Value(w) * Pow10(d))
  {
    assert w[..|w|] == w;
  }

  lemma {:induction false} ReadScaledFraction(w: string, f: string, d: nat, whole: nat, frac: nat)
    requires w != [] && IsDigits(w) && IsDigits(f) && |f| <= d
    requires Value(w) == whole && Value(f) * Pow10(d - |f|) == frac
    ensures ReadScaled(w + ("." + f), d) == Some(whole * Pow10(d) + frac)
  {
    SplitAtDot(w, f);
  }

  /** Reading the rendered amount back and scaling by 10^d gives the original integer. */
  lemma {:induction false} ScaleRoundTrip(n: nat, d: nat)
    ensures ReadScaled(Scale(n, d), d) == Some(n)
  {
    var r := SplitAt(n, d);
    RenderRoundTrip(r.whole, r.frac, d);
  }

  lemma {:induction false} DivMod(n: nat, p: nat)
    requires p > 0
    ensures n / p >= 0 && 0 <= n % p < p
    ensures (n / p) * p + n % p == n
  {
  }

  /**
    The shape of `formatUnits` output: with a zero remainder the quotient
    alone; otherwise quotient, '.', and 1 to d fraction digits that do not end in '0'.
  */
  lemma {:induction false} RenderShape(whole: nat, frac: nat, d: nat)
    requires frac < Pow10(d)
    ensures frac == 0 ==> Render(whole, frac, d) == ToDecimal(whole) && IndexOfDot(Render(whole, frac, d)) == |Render(whole, frac, d)|
    ensures frac != 0 ==>
      var r := Render(whole, frac, d);
      var i := IndexOfDot(r);
      && i < |r| && r[..i] == ToDecimal(whole)
      && 1 <= |r| - i - 1 <= d && IsDigits(r[i + 1..]) && r[|r| - 1] != '0'
  {
    if frac == 0 {
      RenderWhole(whole, d);
    } else {
      FractionDigitsShape(frac, d);
      DotShape(ToDecimal(whole), FractionDigits(frac, d), d);
    }
  }

  lemma {:induction false} DotShape(w: string, f: string, d: nat)
    requires IsDigits(w) && IsDigits(f) && 1 <= |f| <= d && f[|f| - 1] != '0'
    ensures var r := w + ("." + f);
            var i := IndexOfDot(r);
            && i < |r| && r[..i] == w
            && 1 <= |r| - i - 1 <= d && IsDigits(r[i + 1..]) && r[|r| - 1] != '0'
  {
    SplitAtDot(w, f);
  }

  /** The same round trip for `formatUnits` on every amount BigInt accepts. */
  lemma {:induction false} FormatUnitsRoundTrip(amountStr: string, decimals: nat)
    requires StringToBigInt(amountStr).Some?
    ensures ReadScaled(FormatUnits(amountStr, decimals), decimals) == StringToBigInt(amountStr)
  {
    ScaleRoundTrip(StringToBigInt(amountStr).value, decimals);
  }

  /** `BigInt(n.toString())` is n. */
  lemma {:induction false} StringToBigIntOfDecimal(n: nat)
    ensures StringToBigInt(ToDecimal(n)) == Some(n)
  {
  }

  /** A digit string is read by BigInt as its value, so `formatUnits` then scales that value. */
  lemma {:induction false} FormatUnitsOfDecimal(n: nat, decimals: nat)
    ensures FormatUnits(ToDecimal(n), decimals) == Scale(n, decimals)
  {
    StringToBigIntOfDecimal(n);
  }

  /** "0" is printed as "0" whatever the number of decimals. */
  lemma {:induction false} FormatUnitsZero(decimals: nat)
    ensures FormatUnits("0", decimals) == "0"
  {
    assert ToDecimal(0) == "0";
    FormatUnitsOfDecimal(0, decimals);
    SplitUnique(0, decimals, 0, 0);
  }

  /** An exact multiple of 10^d is printed as the quotient alone: `formatUnits("1000000000000000000", 18)` is "1". */
  lemma {:induction false} ScaleOfMultiple(whole: nat, d: nat)
    ensures Scale(whole * Pow10(d), d) == ToDecimal(whole)
  {
    SplitUnique(whole * Pow10(d), d, whole, 0);
  }

  /**
    The converse round trip: a canonical "W.F" (F of 1 to d digits, last digit not '0'),
    read as an integer number of 10^-d units and printed again, is "W.F" itself;
    `formatUnits("1234500000000000000", 18)` is the instance W = 1, F = "2345", d = 18.
  */
  lemma {:induction false} ScaleOfCanonical(whole: nat, f: string, d: nat)
    requires IsDigits(f) && 1 <= |f| <= d && f[|f| - 1] != '0'
    ensures Scale(whole * Pow10(d) + Value(f) * Pow10(d - |f|), d) == ToDecimal(whole) + ("." + f)
  {
    var frac := Value(f) * Pow10(d - |f|);
    CanonicalFraction(f, d);
    NatProduct(whole, Pow10(d));
    ScaleOfSplit(whole * Pow10(d) + frac, d, whole, frac);
    RenderFraction(whole, frac, f, d);
  }

  lemma RenderFraction(whole: nat, frac: nat, f: string, d: nat)
    requires frac > 0 && FractionDigits(frac, d) == f
    ensures Render(whole, frac, d) == ToDecimal(whole) + ("." + f)
  {
  }

  /** On a digit string, `formatUnits` scales the string's value. */
  lemma FormatUnitsOfDigits(s: string, d: nat, n: nat)
    requires IsDigits(s) && Value(s) == n
    ensures FormatUnits(s, d) == Scale(n, d)
  {
  }

  /** A digit string worth whole * 10^d prints, at d decimals, as the whole amount. */
  lemma {:induction false} FormatUnitsOfMultiple(s: string, whole: nat, d: nat)
    requires IsDigits(s) && Value(s) == whole * Pow10(d)
    ensures FormatUnits(s, d) == ToDecimal(whole)
  {
    FormatUnitsOfDigits(s, d, whole * Pow10(d));
    ScaleOfMultiple(whole, d);
  }

  /** A digit string worth the canonical "W.F" in units of 10^-d prints, at d decimals, as "W.F". */
  lemma {:induction false} FormatUnitsOfCanonical(s: string, whole: nat, f: string, d: nat)
    requires IsDigits(s) && IsDigits(f) && 1 <= |f| <= d && f[|f| - 1] != '0'
    requires Value(s) == whole * Pow10(d) + Value(f) * Pow10(d - |f|)
    ensures FormatUnits(s, d) == ToDecimal(whole) + ("." + f)
  {
    var n, frac := Value(s), Value(f) * Pow10(d - |f|);
    CanonicalFraction(f, d);
    FormatUnitsOfDigits(s, d, n);
    ScaleOfSplit(n, d, whole, frac);
    RenderFraction(whole, frac, f, d);
  }

  /** The digits W, then F, then k zeros, read as a number. */
  lemma {:induction false} ValueOfParts(w: string, f: string, k: nat)
    requires IsDigits(w) && IsDigits(f)
    ensures IsDigits(w + f + Zeros(k))
    ensures Value(w + f + Zeros(k)) == Value(w) * Pow10(|f| + k) + Value(f) * Pow10(k)
  {
    ValueAppend(w, f);
    ValueAppend(w + f, Zeros(k));
    ZerosValue(k);
    Pow10Add(|f|, k);
    Distribute(Value(w), Pow10(|f|), Value(f), Pow10(k));
  }

  lemma Distribute(a: nat, p: nat, b: nat, c: nat)
    ensures (a * p + b) * c == a * (p * c) + b * c
  {
    assert (a * p + b) * c == (a * p) * c + b * c;
    assert (a * p) * c == a * (p * c);
  }

  /** One whole token of 18 decimals prints as "1". */
  lemma FormatUnitsOneToken()
    ensures FormatUnits("1000000000000000000", 18) == "1"
  {
    OneTokenValue();
    FormatUnitsOfMultiple("1000000000000000000", 1, 18);
  }

  lemma OneTokenValue()
    ensures IsDigits("1000000000000000000") && Value("1000000000000000000") == 1 * Pow10(18)
    ensures ToDecimal(1) == "1"
  {
    OneTokenDigits();
    ValueAppend("1", Zeros(18));
    ZerosValue(18);
    One();
  }

  lemma One()
    ensures Value("1") == 1 && Value("") == 0 && ToDecimal(1) == "1"
  {
    assert "1"[..0] == "";
  }

  lemma OneTokenDigits()
    ensures "1" + Zeros(18) == "1000000000000000000"
  {
  }

  /** 1.2345 tokens of 18 decimals print as "1.2345". */
  lemma FormatUnitsFraction()
    ensures FormatUnits("1234500000000000000", 18) == "1.2345"
  {
    FractionValue();
    FormatUnitsOfCanonical("1234500000000000000", 1, "2345", 18);
    OneDot2345();
  }

  lemma FractionValue()
    ensures IsDigits("1234500000000000000")
    ensures Value("1234500000000000000") == 1 * Pow10(18) + Value("2345") * Pow10(18 - |"2345"|)
  {
    FractionDigitsOf();
    ValueOfParts("1", "2345", 14);
    One();
  }

  lemma FractionDigitsOf()
    ensures "1" + "2345" + Zeros(14) == "1234500000000000000"
  {
  }

  lemma OneDot2345()
    ensures ToDecimal(1) + ("." + "2345") == "1.2345"
  {
    assert ToDecimal(1) == "1";
  }

  lemma {:induction false} ScaleOfSplit(n: nat, d: nat, whole: nat, frac: nat)
    requires frac < Pow10(d) && whole * Pow10(d) + frac == n
    ensures Scale(n, d) == Render(whole, frac, d)
  {
    SplitUnique(n, d, whole, frac);
  }

  /** The remainder a canonical F denotes is non-zero, below 10^d, and printed back as F. */
  lemma {:induction false} CanonicalFraction(f: string, d: nat)
    requires IsDigits(f) && 1 <= |f| <= d && f[|f| - 1] != '0'
    ensures var frac := Value(f) * Pow10(d - |f|);
            0 < frac < Pow10(d) && FractionDigits(frac, d) == f
  {
    var k := d - |f|;
    var frac := Value(f) * Pow10(k);
    FractionBound(f, d);
    var padded := PadStart(ToDecimal(frac), d);
    assert |padded| == d && Value(padded) == frac by {
      ToDecimalLength(frac, d);
      PadStartValue(ToDecimal(frac), d);
    }
    var g := f + Zeros(k);
    assert Value(g) == frac by {
      ValueAppend(f, Zeros(k));
      ZerosValue(k);
    }
    ValueInjective(padded, g);
    TrimTrailingZerosOfZeros(f, k);
  }

  /** A canonical F, read in units of 10^-d, is a non-zero remainder below 10^d. */
  lemma {:induction false} FractionBound(f: string, d: nat)
    requires IsDigits(f) && 1 <= |f| <= d && f[|f| - 1] != '0'
    ensures 0 < Value(f) * Pow10(d - |f|) < Pow10(d)
  {
    var k := d - |f|;
    ValueBound(f);
    Pow10Add(|f|, k);
    assert Value(f) >= 1 by {
      assert Value(f) == 10 * Value(f[..|f| - 1]) + DigitValue(f[|f| - 1]);
    }
    BoundedProduct(Value(f), Pow10(|f|), Pow10(k));
  }

  lemma NatProduct(a: nat, b: nat)
    ensures a * b >= 0
  {
  }

  lemma BoundedProduct(v: nat, p: nat, q: nat)
    requires 1 <= v < p && q >= 1
    ensures 0 < v * q < p * q
  {
  }

  /** Quotient and remainder are the only pair with n = whole * 10^d + frac and frac < 10^d. */
  lemma {:induction false} SplitUnique(n: nat, d: nat, whole: nat, frac: nat)
    requires frac < Pow10(d) && whole * Pow10(d) + frac == n
    ensures SplitAt(n, d) == Split(whole, frac)
  {
    var r := SplitAt(n, d);
    DivModUnique(Pow10(d), r.whole, r.frac, whole, frac);
  }

  lemma DivModUnique(p: nat, q1: nat, r1: nat, q2: nat, r2: nat)
    requires r1 < p && r2 < p && q1 * p + r1 == q2 * p + r2
    ensures q1 == q2 && r1 == r2
  {
    if q1 < q2 {
      ProductGap(q1, q2 - q1, p);
    } else if q2 < q1 {
      ProductGap(q2, q1 - q2, p);
    }
  }

  lemma ProductGap(q: nat, k: nat, p: nat)
    requires k >= 1
    ensures (q + k) * p >= q * p + p
  {
    assert (q + k) * p == q * p + k * p;
  }

  // ---------------------------------------------------------------------
  // maskAddress
  // ---------------------------------------------------------------------

  /**
    `maskAddress(addr)`: falsy or non-string values and strings of at most
    10 characters come back as they are; longer strings keep their first 6
    and last 4 characters around a '…'.
  */
  function MaskAddress(addr: JsValue): (r: JsValue)
    ensures !addr.Str? || |addr.s| <= 10 ==> r == addr
    ensures addr.Str? && |addr.s| > 10 ==>
      && r.Str? && |r.s| == 11
      && r.s[..6] == addr.s[..6] && r.s[6] == '\U{2026}' && r.s[7..] == addr.s[|addr.s| - 4..]
  {
    if !Truthy(addr) || !addr.Str? then addr
    else if |addr.s| <= 10 then addr
    else Str(addr.s[..6] + "\U{2026}" + addr.s[|addr.s| - 4..])
  }

  /** Masking twice is masking once. */
  lemma {:induction false} MaskAddressIdempotent(addr: JsValue)
    ensures MaskAddress(MaskAddress(addr)) == MaskAddress(addr)
  {
    if addr.Str? && |addr.s| > 10 {
      var m := MaskAddress(addr).s;
      assert m[|m| - 4..] == m[7..];
      assert m == m[..6] + "\U{2026}" + m[|m| - 4..];
    }
  }

  lemma {:induction false} MaskAddressExample()
    ensures MaskAddress(Str("0xBEEFCAFE00112233")) == Str("0xBEEF\U{2026}2233")
  {
  }
}
