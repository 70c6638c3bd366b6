/**
  The few JavaScript value semantics the bot relies on: truthiness (`!!v`,
  `a || b`, `filter(Boolean)`), nullishness (`a ?? b`, `v != null`),
  `String(v)`, `String.prototype.trim` and `BigInt(string)`.
*/
module Js {
  import opened Wrappers
  import opened Decimal

  /**
    A JSON or ethers value as far as the bot looks at it. `Num` holds
    the integers that `String(v)` prints digit by digit: ethers' BigInt
    values, and JSON numbers of magnitude below 10^21. Every other value
    (booleans, fractional numbers, JSON numbers of 10^21 or more, which
    print in exponent form such as "1e+21", objects, arrays) is `Other`,
    carrying what `String(v)` prints and whether it is truthy.
  */
  datatype JsValue =
    | Undefined
    | Null
    | Str(s: string)
    | Num(n: int)
    | Other(text: string, truthy: bool)

  predicate Truthy(v: JsValue)
  {
    match v
    case Undefined => false
    case Null => false
    case Str(s) => s != ""
    case Num(n) => n != 0
    case Other(_, t) => t
  }

  /** `v == null` (loose equality: both `null` and `undefined`). */
  predicate IsNullish(v: JsValue) { v.Undefined? || v.Null? }

  /** `a ?? b` */
  function Coalesce(a: JsValue, b: JsValue): (r: JsValue)
    ensures !IsNullish(a) ==> r == a
    ensures IsNullish(a) ==> r == b
  {
    if IsNullish(a) then b else a
  }

  /** `a || b` */
  function Or(a: JsValue, b: JsValue): (r: JsValue)
    ensures Truthy(a) ==> r == a
    ensures !Truthy(a) ==> r == b
  {
    if Truthy(a) then a else b
  }

  /** `String(v)`, also what a template literal `${v}` inserts. */
  function ToStr(v: JsValue): string
  {
    match v
    case Undefined => "undefined"
    case Null => "null"
    case Str(s) => s
    case Num(n) => if n >= 0 then ToDecimal(n) else "-" + ToDecimal(-n)
    case Other(t, _) => t
  }

  /** WhiteSpace and LineTerminator code points, the characters `trim` removes. */
  predicate IsSpace(c: char)
  {
    var n := c as int;
    (0x09 <= n <= 0x0D) || n == 0x20 || n == 0xA0 || n == 0x1680 || (0x2000 <= n <= 0x200A)
    || n == 0x2028 || n == 0x2029 || n == 0x202F || n == 0x205F || n == 0x3000 || n == 0xFEFF
  }

  function TrimStart(s: string): (r: string)
    ensures |r| <= |s| && r == s[|s| - |r|..]
    ensures forall i :: 0 <= i < |s| - |r| ==> IsSpace(s[i])
    ensures r == [] || !IsSpace(r[0])
  {
    if s != [] && IsSpace(s[0]) then TrimStart(s[1..]) else s
  }

  function TrimEnd(s: string): (r: string)
    ensures |r| <= |s| && r == s[..|r|]
    ensures forall i :: |r| <= i < |s| ==> IsSpace(s[i])
    ensures r == [] || !IsSpace(r[|r| - 1])
  {
    if s != [] && IsSpace(s[|s| - 1]) then TrimEnd(s[..|s| - 1]) else s
  }

  /** `s.trim()` */
  function Trim(s: string): (r: string)
  {
    TrimEnd(TrimStart(s))
  }

  /** Digits are not white space, so `trim` leaves a digit string alone. */
  lemma {:induction false} TrimDigits(s: string)
    requires IsDigits(s)
    ensures Trim(s) == s
  {
    if s != [] {
      assert IsDigit(s[0]) && IsDigit(s[|s| - 1]);
      assert TrimStart(s) == s;
      assert TrimEnd(s) == s;
    }
  }

  /**
    `BigInt(s)` for the decimal forms: surrounding white space is ignored
    and the empty string reads as 0. None stands for the SyntaxError the
    remaining inputs raise in this model.
  */
  function StringToBigInt(s: string): (r: Option<nat>)
    ensures IsDigits(s) ==> r == Some(Value(s))
    ensures r.Some? ==> IsDigits(Trim(s)) && r.value == Value(Trim(s))
    ensures r.None? ==> !IsDigits(Trim(s))
  {
    var t := Trim(s);
    if IsDigits(s) then TrimDigits(s); Some(Value(s))
    else if t == [] then Some(0)
    else if IsDigits(t) then Some(Value(t))
    else None
  }
}
