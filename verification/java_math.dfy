/** The few pieces of Java numeric semantics the post-processing relies on,
    stated over unbounded integers and exact reals. */
module JavaMath {

  /** The `(int)` cast of a double: rounds toward zero (not toward minus
      infinity). Saturation at the int range and NaN are not modelled. */
  function Trunc(r: real): (t: int)
    ensures r >= 0.0 ==> t as real <= r < t as real + 1.0
    ensures r < 0.0 ==> t as real - 1.0 < r <= t as real
  {
    if r >= 0.0 then r.Floor else -((-r).Floor)
  }

  /** Truncation is monotone: it never reverses the order of two values. */
  lemma TruncMonotone(a: real, b: real)
    requires a <= b
    ensures Trunc(a) <= Trunc(b)
  {
  }

  /** Truncation and floor disagree on negative non-integers: the cast maps
      -0.5 to 0 where floor gives -1. */
  lemma TruncDiffersFromFloor()
    ensures Trunc(-0.5) == 0
    ensures (-0.5).Floor == -1
  {
  }

  /** `Math.pow(2, n)` for a natural exponent. */
  function Pow2(n: nat): (r: nat)
    ensures r >= 1
  {
    if n == 0 then 1 else 2 * Pow2(n - 1)
  }

  /** The result of `(double) n / d` for ints `n`, `d`: a finite quotient,
      an infinity when `d` is zero, or NaN for `0 / 0`. */
  datatype Quotient =
    | Finite(value: real)
    | PositiveInfinity
    | NegativeInfinity
    | NotANumber

  function Divide(n: int, d: int): (q: Quotient)
    ensures d != 0 ==> q.Finite? && q.value * d as real == n as real
    ensures d == 0 ==> (q.NotANumber? <==> n == 0)
    ensures d == 0 ==> (q.PositiveInfinity? <==> n > 0)
    ensures d == 0 ==> (q.NegativeInfinity? <==> n < 0)
  {
    if d != 0 then Finite(n as real / d as real)
    else if n > 0 then PositiveInfinity
    else if n < 0 then NegativeInfinity
    else NotANumber
  }

  /** The double comparison `q > t` against a finite threshold: NaN and
      negative infinity compare false, positive infinity compares true. */
  predicate Exceeds(q: Quotient, t: real) {
    match q
    case Finite(v) => v > t
    case PositiveInfinity => true
    case NegativeInfinity => false
    case NotANumber => false
  }

  /** `Math.exp` never returns a negative value (it underflows to zero). */
  ghost predicate NonNegative(exp: real -> real) {
    forall x: real :: exp(x) >= 0.0
  }

  /** `1 / (1 + Math.exp(-x))`, with the exponential passed in. */
  function Sigmoid(exp: real -> real, x: real): (r: real)
    requires NonNegative(exp)
    ensures 0.0 < r <= 1.0
    ensures r * (1.0 + exp(-x)) == 1.0
  {
    assert exp(-x) >= 0.0;
    1.0 / (1.0 + exp(-x))
  }
}
