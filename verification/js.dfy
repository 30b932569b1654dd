/**
 * The JavaScript values that reach the handlers: JSON request bodies,
 * stored documents and parsed tool arguments, together with the handful of
 * coercions the handlers rely on (truthiness, `Number(...)`, `??`).
 */
module Js {

  /** A JavaScript number. `NaN` is kept apart because it is falsy and every
      comparison with it is false. Infinities are not modelled. */
  datatype Number = Finite(r: real) | NaN

  /** A JavaScript value. `Undefined` stands both for the `undefined` value and
      for a property that is absent; objects and arrays, whose contents no rule
      of the model inspects, are the opaque `Composite`. */
  datatype Value =
    | Undefined
    | Null
    | Bool(b: bool)
    | Num(n: Number)
    | Str(s: string)
    | Date(ms: int)
    | Composite

  /** JavaScript truthiness, as used by `!x` and `x || y`. */
  predicate Truthy(v: Value)
  {
    match v
    case Undefined => false
    case Null => false
    case Bool(b) => b
    case Num(n) => n.Finite? && n.r != 0.0
    case Str(s) => s != ""
    case Date(_) => true
    case Composite => true
  }

  /** `v === null || v === undefined`, the test behind `??`. */
  predicate Nullish(v: Value)
  {
    v.Undefined? || v.Null?
  }

  predicate IsDigit(c: char)
  {
    '0' <= c <= '9'
  }

  predicate AllDigits(s: string)
  {
    forall i :: 0 <= i < |s| ==> IsDigit(s[i])
  }

  /** The value of a string of decimal digits. */
  function DigitsValue(s: string): (n: nat)
    requires AllDigits(s)
    ensures |s| == 0 ==> n == 0
  {
    if |s| == 0 then 0
    else DigitsValue(s[..|s| - 1]) * 10 + (s[|s| - 1] as int - '0' as int)
  }

  /** `Number(v)`. Strings are read only in their plain decimal-digit form
      (the empty string is 0); other spellings give NaN. */
  function ToNumber(v: Value): Number
  {
    match v
    case Undefined => NaN
    case Null => Finite(0.0)
    case Bool(b) => if b then Finite(1.0) else Finite(0.0)
    case Num(n) => n
    case Str(s) => if AllDigits(s) then Finite(DigitsValue(s) as real) else NaN
    case Date(ms) => Finite(ms as real)
    case Composite => NaN
  }

  /** A finite number without fractional part. */
  predicate IsIntegral(r: real)
  {
    r == r.Floor as real
  }
}
