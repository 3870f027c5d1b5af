/**
 * JavaScript numbers as the core uses them. A finite number is modelled
 * exactly by a real (no rounding); the two infinities and NaN are kept apart
 * because the core's comparisons treat them differently. A numeric field that
 * is missing from the JSON (`undefined`) behaves like NaN in every comparison the
 * core makes (`Number.isFinite`, `> 0`, `< 0`, `Math.abs`).
 */
module JsNumber {

  datatype Num = Finite(value: real) | PosInf | NegInf | NaN

  /** `Number.isFinite(n)` */
  predicate IsFinite(n: Num) {
    n.Finite?
  }

  /** `n > 0` */
  predicate IsPositive(n: Num) {
    match n
    case Finite(v) => v > 0.0
    case PosInf => true
    case _ => false
  }

  /** `n < 0` */
  predicate IsNegative(n: Num) {
    match n
    case Finite(v) => v < 0.0
    case NegInf => true
    case _ => false
  }

  function RealAbs(v: real): (r: real)
    ensures r >= 0.0 && (r == v || r == -v)
  {
    if v < 0.0 then -v else v
  }

  /** `Math.abs(n)` */
  function Abs(n: Num): (r: Num)
    ensures r.NaN? <==> n.NaN?
    ensures r.Finite? <==> n.Finite?
    ensures !IsNegative(r)
    ensures IsPositive(r) <==> IsPositive(n) || IsNegative(n)
    ensures n.Finite? ==> r.value == RealAbs(n.value)
    ensures n.PosInf? || n.NegInf? ==> r.PosInf?
  {
    match n
    case Finite(v) => Finite(RealAbs(v))
    case PosInf => PosInf
    case NegInf => PosInf
    case NaN => NaN
  }

  /** `a - b` under IEEE 754 rules for the special values (finite values exactly). */
  function Sub(a: Num, b: Num): (r: Num)
    ensures a.Finite? && b.Finite? ==> r == Finite(a.value - b.value)
    ensures a == b && !a.Finite? ==> r.NaN?
    ensures a.NaN? || b.NaN? ==> r.NaN?
    ensures a.Finite? && b.PosInf? ==> r.NegInf?
    ensures a.Finite? && b.NegInf? ==> r.PosInf?
    ensures a.PosInf? && (b.Finite? || b.NegInf?) ==> r.PosInf?
    ensures a.NegInf? && (b.Finite? || b.PosInf?) ==> r.NegInf?
  {
    match (a, b)
    case (NaN, _) => NaN
    case (_, NaN) => NaN
    case (Finite(x), Finite(y)) => Finite(x - y)
    case (PosInf, PosInf) => NaN
    case (NegInf, NegInf) => NaN
    case (PosInf, _) => PosInf
    case (NegInf, _) => NegInf
    case (Finite(_), PosInf) => NegInf
    case (Finite(_), NegInf) => PosInf
  }

  /** `Math.min(a, b)` on finite values */
  function Min(a: real, b: real): (r: real)
    ensures r <= a && r <= b && (r == a || r == b)
  {
    if a <= b then a else b
  }
}
