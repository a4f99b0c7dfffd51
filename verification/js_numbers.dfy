/**
 * JavaScript numbers as the workout bookkeeping sees them. A finite number is an exact
 * real (no rounding, no overflow to infinity, no signed zero); the three non-finite
 * values are kept apart so that `Number.isFinite`, `x > 0` and `/` behave as in the
 * language on them.
 */
module JsNumbers {
  datatype JsNumber = Finite(value: real) | NaN | Infinity | NegInfinity

  /** `Number.isFinite(x)`. */
  predicate IsFinite(x: JsNumber) {
    x.Finite?
  }

  /** `x > 0`: true of a positive finite number and of +Infinity, false of NaN. */
  predicate IsPositive(x: JsNumber) {
    match x
    case Finite(v) => v > 0.0
    case Infinity => true
    case _ => false
  }

  function Negate(x: JsNumber): JsNumber {
    match x
    case Finite(v) => Finite(-v)
    case NaN => NaN
    case Infinity => NegInfinity
    case NegInfinity => Infinity
  }

  /** `a / b`, with the IEEE rules for zero divisors and infinite operands (a zero is +0). */
  function Div(a: JsNumber, b: JsNumber): JsNumber {
    match (a, b)
    case (NaN, _) => NaN
    case (_, NaN) => NaN
    case (Finite(x), Finite(y)) =>
      if y != 0.0 then Finite(x / y)
      else if x > 0.0 then Infinity
      else if x < 0.0 then NegInfinity
      else NaN
    case (Finite(_), _) => Finite(0.0)
    case (_, Finite(y)) => if y >= 0.0 then a else Negate(a)
    case (_, _) => NaN
  }

  /** Dividing two positive finite numbers gives their exact positive quotient. */
  lemma DivOfPositives(a: JsNumber, b: JsNumber)
    requires IsFinite(a) && IsPositive(a) && IsFinite(b) && IsPositive(b)
    ensures Div(a, b) == Finite(a.value / b.value)
    ensures IsFinite(Div(a, b)) && IsPositive(Div(a, b))
  {
  }

  /**
   * The edge cases revival can meet on stored numbers: a positive number over zero is
   * +Infinity, zero over zero is NaN, NaN spreads, and a finite number over an infinite
   * one is zero.
   */
  lemma DivEdgeCases(x: real)
    ensures x > 0.0 ==> Div(Finite(x), Finite(0.0)) == Infinity
    ensures Div(Finite(0.0), Finite(0.0)).NaN?
    ensures Div(NaN, Finite(x)).NaN? && Div(Finite(x), NaN).NaN?
    ensures Div(Finite(x), Infinity) == Finite(0.0)
  {
  }
}
