/**
 * JavaScript numbers, as far as the pipeline's arithmetic can reach them.
 * Finite values are exact reals (rounding is not modelled); the special
 * values are the ones a division by zero or an undefined operand produces.
 */
module JsNumber {

  datatype Num = Fin(v: real) | NaN | PosInf | NegInf

  /** `a / b` for two finite operands: a zero divisor yields an infinity or NaN. */
  function Div(a: real, b: real): (r: Num)
    ensures b != 0.0 <==> r.Fin?
    ensures r.NaN? <==> a == 0.0 && b == 0.0
  {
    if b != 0.0 then Fin(a / b)
    else if a > 0.0 then PosInf
    else if a < 0.0 then NegInf
    else NaN
  }

  /** `x * d` for a finite right operand: an infinity times zero is NaN. */
  function MulFin(x: Num, d: real): (r: Num)
    ensures r.NaN? <==> x.NaN? || (d == 0.0 && !x.Fin?)
  {
    match x
    case Fin(v) => Fin(v * d)
    case NaN => NaN
    case PosInf => if d > 0.0 then PosInf else if d < 0.0 then NegInf else NaN
    case NegInf => if d > 0.0 then NegInf else if d < 0.0 then PosInf else NaN
  }

  /** `x + c` for a finite right operand: the special values absorb `c`. */
  function AddFin(x: Num, c: real): (r: Num)
    ensures r.Fin? <==> x.Fin?
    ensures !x.Fin? ==> r == x
  {
    match x
    case Fin(v) => Fin(v + c)
    case _ => x
  }

  /** `x > t`: NaN compares false, the infinities compare as the extremes. */
  predicate Greater(x: Num, t: real)
  {
    match x
    case Fin(v) => v > t
    case PosInf => true
    case NegInf => false
    case NaN => false
  }
}
