/**
 * Division as the dashboards' dataframes perform it.
 *
 * Dividing two pandas columns never raises: a nonzero denominator gives
 * the quotient (modelled here as an exact `real`, with no rounding), and
 * a zero denominator gives +inf, -inf or NaN according to the sign of the
 * numerator. Multiplying by 100 keeps the three non-finite values.
 */
module Ratio {

  datatype Ratio = Finite(value: real) | PosInf | NegInf | NaN

  /** `a / b` on float columns. */
  function Divide(a: int, b: int): (q: Ratio)
    ensures q.Finite? <==> b != 0
    ensures q.Finite? ==> q.value * (b as real) == a as real
    ensures b == 0 ==> (q == NaN <==> a == 0) && (q == PosInf <==> a > 0) && (q == NegInf <==> a < 0)
  {
    if b != 0 then Finite((a as real) / (b as real))
    else if a > 0 then PosInf
    else if a < 0 then NegInf
    else NaN
  }

  /** `q * 100`: scales a finite ratio and leaves +inf, -inf and NaN as they are. */
  function Times100(q: Ratio): (p: Ratio)
    ensures p.Finite? <==> q.Finite?
    ensures p.Finite? ==> p.value == 100.0 * q.value
    ensures !q.Finite? ==> p == q
  {
    match q
    case Finite(v) => Finite(v * 100.0)
    case _ => q
  }

  /** `(a / b) * 100`, the unguarded percentage the dashboards compute. */
  function Percent(a: int, b: int): (p: Ratio)
    ensures p.Finite? <==> b != 0
    ensures p.Finite? ==> p.value * (b as real) == 100.0 * (a as real)
    ensures b == 0 ==> (p == NaN <==> a == 0)
  {
    Times100(Divide(a, b))
  }
}
