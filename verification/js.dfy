/** The slice of JavaScript's runtime that the dispersion code relies on:
    IEEE-754 doubles with their special values, the `Math` functions it calls,
    `Array(n)` length validation, `Uint8ClampedArray` stores and the two
    exceptions its grid code can raise.

    Finite values are exact reals: rounding, overflow, underflow and the sign
    of zero are not modelled. The transcendental functions are supplied as an
    `Elementary` record of real-valued functions on finite arguments; what
    they do on zero, negative and non-finite arguments is written out here,
    following the ECMAScript definitions of `Math.log`, `Math.pow`, ... */
module Js {

  /** A JavaScript number. */
  datatype Double = Finite(v: real) | PosInf | NegInf | NaN

  const Zero: Double := Finite(0.0)

  /** `Math.PI` as the double literal JavaScript stores. */
  const Pi: real := 3.141592653589793

  /** A value that makes a product vanish or blow up. */
  predicate ZeroOrNonFinite(a: Double) {
    a == Zero || !a.Finite?
  }

  function Neg(a: Double): (r: Double)
    ensures r.Finite? <==> a.Finite?
  {
    match a
    case Finite(x) => Finite(-x)
    case PosInf => NegInf
    case NegInf => PosInf
    case NaN => NaN
  }

  function Add(a: Double, b: Double): (r: Double)
    ensures r.Finite? <==> a.Finite? && b.Finite?
    ensures r.NaN? <==> a.NaN? || b.NaN? || (a == PosInf && b == NegInf) || (a == NegInf && b == PosInf)
  {
    if a.NaN? || b.NaN? then NaN
    else if a.Finite? && b.Finite? then Finite(a.v + b.v)
    else if (a == PosInf && b == NegInf) || (a == NegInf && b == PosInf) then NaN
    else if a.Finite? then b
    else a
  }

  /** `a - b`, which IEEE-754 defines as `a + (-b)`. */
  function Sub(a: Double, b: Double): (r: Double)
    ensures r.Finite? <==> a.Finite? && b.Finite?
  {
    Add(a, Neg(b))
  }

  /** Sign of a non-NaN value: -1, 0 or 1. */
  function Sign(a: Double): int
    requires !a.NaN?
  {
    match a
    case Finite(x) => if x > 0.0 then 1 else if x < 0.0 then -1 else 0
    case PosInf => 1
    case NegInf => -1
  }

  function Mul(a: Double, b: Double): (r: Double)
    ensures r.Finite? <==> a.Finite? && b.Finite?
  {
    if a.NaN? || b.NaN? then NaN
    else if a.Finite? && b.Finite? then Finite(a.v * b.v)
    else if Sign(a) == 0 || Sign(b) == 0 then NaN
    else if Sign(a) * Sign(b) > 0 then PosInf
    else NegInf
  }

  /** Division; a zero divisor is taken as +0. */
  function Div(a: Double, b: Double): (r: Double)
    ensures r.Finite? <==> a.Finite? && (b.Finite? ==> b.v != 0.0) && !b.NaN?
  {
    if a.NaN? || b.NaN? then NaN
    else if a.Finite? && b.Finite? then
      if b.v != 0.0 then Finite(a.v / b.v)
      else if a.v == 0.0 then NaN
      else if a.v > 0.0 then PosInf
      else NegInf
    else if !a.Finite? && !b.Finite? then NaN
    else if a.Finite? then Zero
    else if Sign(b) >= 0 then a
    else Neg(a)
  }

  /** Position in the order -Infinity < finite < +Infinity. */
  function Rank(a: Double): int {
    match a
    case NegInf => 0
    case Finite(_) => 1
    case PosInf => 2
    case NaN => 3
  }

  /** `a < b`; false whenever either side is NaN. */
  predicate Lt(a: Double, b: Double) {
    !a.NaN? && !b.NaN? &&
    if a.Finite? && b.Finite? then a.v < b.v else Rank(a) < Rank(b)
  }

  /** `a <= b`; false whenever either side is NaN. */
  predicate Le(a: Double, b: Double) {
    !a.NaN? && !b.NaN? &&
    if a.Finite? && b.Finite? then a.v <= b.v else Rank(a) <= Rank(b)
  }

  predicate Gt(a: Double, b: Double) { Lt(b, a) }

  predicate Ge(a: Double, b: Double) { Le(b, a) }

  /** `Math.min` of two numbers: NaN if either is NaN. */
  function Min(a: Double, b: Double): (r: Double)
    ensures !a.NaN? && !b.NaN? ==> Le(r, a) && Le(r, b) && (r == a || r == b)
    ensures a.NaN? || b.NaN? ==> r.NaN?
  {
    if a.NaN? || b.NaN? then NaN
    else if Lt(b, a) then b
    else a
  }

  /** `Math.max` of two numbers: NaN if either is NaN. */
  function Max(a: Double, b: Double): (r: Double)
    ensures !a.NaN? && !b.NaN? ==> Ge(r, a) && Ge(r, b) && (r == a || r == b)
    ensures a.NaN? || b.NaN? ==> r.NaN?
  {
    if a.NaN? || b.NaN? then NaN
    else if Gt(b, a) then b
    else a
  }

  /** The integer part of a real, rounding toward zero. */
  function TruncInt(x: real): (k: int)
    ensures x >= 0.0 ==> 0.0 <= k as real <= x && x - 1.0 < k as real
    ensures x < 0.0 ==> x <= k as real <= 0.0 && k as real < x + 1.0
  {
    if x >= 0.0 then x.Floor else -((-x).Floor)
  }

  /** `Math.trunc`. */
  function Trunc(a: Double): (r: Double)
    ensures r.Finite? <==> a.Finite?
    ensures a.Finite? ==> r == Finite(TruncInt(a.v) as real)
  {
    match a
    case Finite(x) => Finite(TruncInt(x) as real)
    case _ => a
  }

  /** The library functions on finite arguments. */
  datatype Elementary = Elementary(
    exp: real -> real,
    ln: real -> real,
    log10: real -> real,
    pow: (real, real) -> real,
    sqrt: real -> real,
    sin: real -> real,
    cos: real -> real,
    tan: real -> real)

  ghost predicate ExpNonNegative(m: Elementary) {
    forall t :: m.exp(t) >= 0.0
  }

  ghost predicate PowPositive(m: Elementary) {
    forall x, b :: 0.0 < x && 0.0 < b ==> 0.0 < m.pow(x, b)
  }

  ghost predicate PowOfOne(m: Elementary) {
    forall b :: m.pow(1.0, b) == 1.0
  }

  ghost predicate PowMonotone(m: Elementary) {
    forall x, y, b {:trigger m.pow(x, b), m.pow(y, b)} ::
      0.0 < x <= y && 0.0 < b ==> m.pow(x, b) <= m.pow(y, b)
  }

  ghost predicate SqrtPositive(m: Elementary) {
    forall t :: 0.0 < t ==> 0.0 < m.sqrt(t)
  }

  /** `Math.exp`. */
  function Exp(m: Elementary, a: Double): (r: Double)
    ensures r.Finite? <==> a.Finite? || a == NegInf
  {
    match a
    case Finite(x) => Finite(m.exp(x))
    case PosInf => PosInf
    case NegInf => Zero
    case NaN => NaN
  }

  /** A logarithm (`Math.log`, `Math.log10`) given its values on positive reals. */
  function Log(f: real -> real, a: Double): (r: Double)
    ensures r.Finite? <==> a.Finite? && a.v > 0.0
    ensures Le(a, Zero) && a != Zero ==> r.NaN?
    ensures a == Zero ==> r == NegInf
  {
    match a
    case Finite(x) => if x > 0.0 then Finite(f(x)) else if x == 0.0 then NegInf else NaN
    case PosInf => PosInf
    case NegInf => NaN
    case NaN => NaN
  }

  function Ln(m: Elementary, a: Double): Double {
    Log(m.ln, a)
  }

  function Log10(m: Elementary, a: Double): Double {
    Log(m.log10, a)
  }

  /** `Math.sqrt`. */
  function Sqrt(m: Elementary, a: Double): (r: Double)
    ensures r.Finite? <==> a.Finite? && a.v >= 0.0
  {
    match a
    case Finite(x) => if x > 0.0 then Finite(m.sqrt(x)) else if x == 0.0 then Zero else NaN
    case PosInf => PosInf
    case NegInf => NaN
    case NaN => NaN
  }

  /** `Math.tan`: finite on every finite argument. */
  function Tan(m: Elementary, a: Double): (r: Double)
    ensures r.Finite? <==> a.Finite?
    ensures !r.Finite? ==> r.NaN?
  {
    match a
    case Finite(x) => Finite(m.tan(x))
    case _ => NaN
  }

  /** A positive exponent that is not an integer: every exponent the code uses. */
  predicate FractionalExponent(b: real) {
    0.0 < b && b.Floor as real < b
  }

  /** `Math.pow(a, b)` for a fractional positive exponent `b`. */
  function Pow(m: Elementary, a: Double, b: real): (r: Double)
    requires FractionalExponent(b)
    ensures r.Finite? <==> a.Finite? && a.v >= 0.0
    ensures a.Finite? && a.v < 0.0 ==> r.NaN?
    ensures a == Zero ==> r == Zero
  {
    match a
    case Finite(x) => if x > 0.0 then Finite(m.pow(x, b)) else if x == 0.0 then Zero else NaN
    case PosInf => PosInf
    case NegInf => PosInf
    case NaN => NaN
  }

  lemma AddOfFinite(a: real, b: real)
    ensures Add(Finite(a), Finite(b)) == Finite(a + b)
  {
  }

  lemma SubOfFinite(a: real, b: real)
    ensures Sub(Finite(a), Finite(b)) == Finite(a - b)
  {
  }

  lemma MulOfFinite(a: real, b: real)
    ensures Mul(Finite(a), Finite(b)) == Finite(a * b)
  {
  }

  lemma DivOfFinite(a: real, b: real)
    requires b != 0.0
    ensures Div(Finite(a), Finite(b)) == Finite(a / b)
  {
  }

  /** A product of non-negative finite values is non-negative, and positive when both are. */
  lemma MulNonNegative(a: Double, b: Double)
    requires a.Finite? && b.Finite? && a.v >= 0.0 && b.v >= 0.0
    ensures Mul(a, b).Finite? && Mul(a, b).v >= 0.0
    ensures a.v > 0.0 && b.v > 0.0 ==> Mul(a, b).v > 0.0
  {
    assert Mul(a, b) == Finite(a.v * b.v);
  }

  /** A quotient of a non-negative by a positive finite value is non-negative, and positive when the dividend is. */
  lemma DivNonNegative(a: Double, b: Double)
    requires a.Finite? && b.Finite? && a.v >= 0.0 && b.v > 0.0
    ensures Div(a, b).Finite? && Div(a, b).v >= 0.0
    ensures a.v > 0.0 ==> Div(a, b).v > 0.0
  {
    assert Div(a, b) == Finite(a.v / b.v);
  }

  /** Under `PowPositive`, a power of a non-negative finite base is finite and non-negative. */
  lemma PowOfNonNegative(m: Elementary, a: Double, b: real)
    requires PowPositive(m) && FractionalExponent(b)
    requires a.Finite? && a.v >= 0.0
    ensures Pow(m, a, b).Finite? && Pow(m, a, b).v >= 0.0
    ensures a.v > 0.0 ==> Pow(m, a, b).v > 0.0
  {
    if a.v > 0.0 {
      assert m.pow(a.v, b) > 0.0;
    }
  }

  /** Under `SqrtPositive`, a square root of a positive finite value is positive. */
  lemma SqrtOfPositive(m: Elementary, a: Double)
    requires SqrtPositive(m)
    requires a.Finite? && a.v > 0.0
    ensures Sqrt(m, a).Finite? && Sqrt(m, a).v > 0.0
  {
    assert m.sqrt(a.v) > 0.0;
  }

  /** Whether a real is a natural number. */
  predicate IsNat(x: real) {
    0.0 <= x && x.Floor as real == x
  }

  const ArrayLengthLimit: int := 0x1_0000_0000

  /** The length `new Array(n)` accepts: an integer in [0, 2^32); anything else is a RangeError. */
  function ArrayLength(n: Double): (r: Option<nat>)
    ensures r.Some? <==> n.Finite? && IsNat(n.v) && n.v < ArrayLengthLimit as real
    ensures r.Some? ==> r.value as real == n.v
  {
    if n.Finite? && IsNat(n.v) && n.v < ArrayLengthLimit as real then Some(n.v.Floor) else None
  }

  datatype Option<+T> = None | Some(value: T)

  /** The exceptions the grid code can raise. */
  datatype JsError = RangeError | TypeError

  datatype Result<+T> = Ok(value: T) | Err(error: JsError)

  type byte = x: int | 0 <= x < 256

  /** ECMAScript ToUint8Clamp: the conversion a `Uint8ClampedArray` store applies. */
  function ToUint8Clamp(a: Double): (r: byte)
    ensures a.NaN? || Le(a, Zero) ==> r == 0
    ensures Ge(a, Finite(255.0)) ==> r == 255
    ensures a.Finite? && 0.0 <= a.v <= 255.0 ==> a.v - 0.5 <= r as real <= a.v + 0.5
  {
    match a
    case NaN => 0
    case NegInf => 0
    case PosInf => 255
    case Finite(x) =>
      if x <= 0.0 then 0
      else if x >= 255.0 then 255
      else
        var f := x.Floor;
        if f as real + 0.5 < x then f + 1
        else if x < f as real + 0.5 then f
        else if f % 2 == 0 then f
        else f + 1
  }
}
