/** Optional configuration values: a key that is present or absent. */
module Optional {

  datatype Option<T> = None | Some(value: T) {

    /** The value when present, otherwise the given default. */
    function GetOr(default: T): T {
      if Some? then value else default
    }
  }
}

/**
 * The part of JavaScript number semantics the particle simulation relies on.
 * Finite numbers are exact reals; the infinities and NaN are kept apart
 * because the alpha computation of a particle can produce them.
 * Signed zeros are not distinguished.
 */
module JsNumber {

  datatype Number = Finite(value: real) | Infinity(negative: bool) | NaN

  /** Whether a real is an integer. */
  predicate Whole(x: real) {
    x == x.Floor as real
  }

  /** Math.round on a finite argument: the nearest integer, halves rounded up. */
  function RoundHalfUp(x: real): (r: int)
    ensures x - 0.5 < r as real <= x + 0.5
  {
    (x + 0.5).Floor
  }

  /** Math.round: infinities and NaN pass through unchanged. */
  function Round(a: Number): (r: Number)
    ensures r.Finite? <==> a.Finite?
    ensures r.NaN? <==> a.NaN?
    ensures r.Finite? ==> Whole(r.value) && a.value - 0.5 < r.value <= a.value + 0.5
    ensures r.Infinity? ==> r == a
  {
    match a
    case Finite(x) => Finite(RoundHalfUp(x) as real)
    case _ => a
  }

  /** `a * b` for a finite right operand. */
  function Times(a: Number, b: real): (m: Number)
    ensures m.Finite? <==> a.Finite?
    ensures m.NaN? <==> a.NaN? || (a.Infinity? && b == 0.0)
    ensures m.Finite? ==> m.value == a.value * b
  {
    match a
    case Finite(x) => Finite(x * b)
    case Infinity(negative) =>
      if b == 0.0 then NaN else Infinity(if b > 0.0 then negative else !negative)
    case NaN => NaN
  }

  /** `a / b` for a finite divisor: division by zero gives an infinity, or NaN for 0 / 0. */
  function Over(a: Number, b: real): (q: Number)
    ensures q.Finite? <==> a.Finite? && b != 0.0
    ensures q.NaN? <==> a.NaN? || (a == Finite(0.0) && b == 0.0)
    ensures q.Finite? ==> q.value * b == a.value
  {
    match a
    case Finite(x) =>
      if b != 0.0 then Finite(x / b)
      else if x == 0.0 then NaN
      else Infinity(x < 0.0)
    case Infinity(negative) => Infinity(if b >= 0.0 then negative else !negative)
    case NaN => NaN
  }
}
