/** Floating-point values as the tree evaluators see them: compared exactly, never rounded. */
module Floats {
  datatype Float = NaN | NegInf | Fin(r: real) | PosInf

  /** IEEE `a <= b`: false as soon as either side is not a number. */
  predicate AtMost(a: Float, b: Float) {
    match (a, b)
    case (NaN, _) => false
    case (_, NaN) => false
    case (NegInf, _) => true
    case (_, PosInf) => true
    case (Fin(x), Fin(y)) => x <= y
    case _ => false
  }

  /** 1e-35 */
  const ZERO: real := 0.00000000000000000000000000000000001

  /** `abs(v) <= ZERO` */
  predicate CountsAsZero(v: Float) {
    v.Fin? && -ZERO <= v.r <= ZERO
  }
}
