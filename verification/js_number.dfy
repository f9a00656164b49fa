/**
 * JavaScript numbers as the recipe code meets them.  A finite number is a real (the model
 * does not reproduce binary floating-point rounding); the three non-finite values are
 * kept because division by a zero serving count and user-supplied quantities can
 * produce them.  Signed zero is not distinguished.
 */
module JsNumbers {

  datatype JsNumber = Finite(value: real) | NaN | PosInfinity | NegInfinity {

    /** `Number.isFinite`. */
    predicate IsFinite() {
      Finite?
    }
  }

  function Abs(x: real): (r: real)
    ensures r >= 0.0 && (r == x || r == -x)
  {
    if x < 0.0 then -x else x
  }

  /** The infinity with the sign of `x`, for `x != 0`. */
  function SignedInfinity(positive: bool): JsNumber {
    if positive then PosInfinity else NegInfinity
  }

  /** `a * b` under IEEE-754 rules for the special values. */
  function Mul(a: JsNumber, b: JsNumber): (r: JsNumber)
    ensures a.Finite? && b.Finite? ==> r == Finite(a.value * b.value)
    ensures a.NaN? || b.NaN? ==> r.NaN?
    ensures r.Finite? ==> a.Finite? && b.Finite?
  {
    if a.NaN? || b.NaN? then NaN
    else if a.Finite? && b.Finite? then Finite(a.value * b.value)
    else if a.Finite? then
      (if a.value == 0.0 then NaN else SignedInfinity((a.value > 0.0) == b.PosInfinity?))
    else if b.Finite? then
      (if b.value == 0.0 then NaN else SignedInfinity((b.value > 0.0) == a.PosInfinity?))
    else SignedInfinity(a.PosInfinity? == b.PosInfinity?)
  }

  /** `a / b` for two finite operands: division by zero gives an infinity, or NaN for `0 / 0`. */
  function Div(a: real, b: real): (r: JsNumber)
    ensures b != 0.0 ==> r == Finite(a / b)
    ensures b == 0.0 ==> (r.NaN? <==> a == 0.0)
    ensures b == 0.0 && a > 0.0 ==> r.PosInfinity?
  {
    if b != 0.0 then Finite(a / b)
    else if a == 0.0 then NaN
    else SignedInfinity(a > 0.0)
  }

  /** `Number.isInteger` of a finite value. */
  predicate IsIntegral(x: real) {
    x.Floor as real == x
  }

  /** `Math.round`: the nearest integer, halves rounded towards positive infinity. */
  function Round(x: real): (r: int)
    ensures x - 0.5 < r as real <= x + 0.5
  {
    (x + 0.5).Floor
  }

  /** `Math.round` picks the unique integer in the half-open window around `x`. */
  lemma RoundUnique(x: real, n: int)
    requires x - 0.5 < n as real <= x + 0.5
    ensures Round(x) == n
  {
  }

  /** `Math.round(value / step) * step`: the multiple of `step` nearest to `value`. */
  function RoundTo(value: real, step: real): (r: real)
    requires step > 0.0
    ensures Abs(r - value) <= step / 2.0
    ensures IsIntegral(r / step)
  {
    var k := Round(value / step);
    assert value / step - 0.5 < k as real <= value / step + 0.5;
    MulBounds(value / step, k as real, step);
    assert (k as real * step) / step == k as real;
    k as real * step
  }

  lemma MulBounds(q: real, k: real, step: real)
    requires step > 0.0
    requires q - 0.5 < k <= q + 0.5
    ensures Abs(k * step - q * step) <= step / 2.0
  {
    var d := k - q;
    assert k * step - q * step == d * step;
    if d >= 0.0 {
      MulNonNegative(0.5 - d, step);
      MulNonNegative(d, step);
    } else {
      MulNonNegative(d + 0.5, step);
      MulNonNegative(-d, step);
    }
  }

  lemma MulNonNegative(a: real, b: real)
    requires a >= 0.0 && b >= 0.0
    ensures a * b >= 0.0
  {
  }

  /** The text JavaScript renders for a non-finite number. */
  function NonFiniteText(n: JsNumber): (r: string)
    requires !n.Finite?
    ensures |r| > 0
  {
    match n
    case NaN => "NaN"
    case PosInfinity => "Infinity"
    case NegInfinity => "-Infinity"
  }
}
