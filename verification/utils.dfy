/** Random numbers and the `System.Math` functions the program uses.

    `Utils` in the program wraps one `System.Random`. The model never draws:
    every random number is a parameter of the operation that uses it, and
    the predicates here state the range the corresponding `Random` call
    guarantees. */
module Utils {

  /** A value `RandFloat()` (that is, `Random.NextDouble()`) can return. */
  predicate IsRandFloat(u: real) {
    0.0 <= u < 1.0
  }

  /** A value `RandInt(x, y)` (that is, `Random.Next(x, y)`) can return
      without throwing: a number in [x, y), or x itself when x == y. */
  predicate IsRandInt(n: int, x: int, y: int) {
    if x < y then x <= n < y else n == x && x == y
  }

  /** `RandomClamped()`: one `NextDouble()` draw `u`, shifted down by a half. */
  function RandomClamped(u: real): (r: real)
    requires IsRandFloat(u)
    ensures -0.5 <= r < 0.5
  {
    u - 0.5
  }

  /** The double value of `Math.PI * 2` (`Params.dTwoPi`). */
  const TwoPi: real := 6.283185307179586

  /** The transcendental functions of `System.Math` the program calls,
      left uninterpreted. */
  datatype MathFns = MathFns(
    sqrt: real -> real,
    sin: real -> real,
    cos: real -> real,
    exp: real -> real)

  /** `Math.Exp` never returns a negative number or zero. */
  ghost predicate PositiveExp(exp: real -> real) {
    forall x :: exp(x) > 0.0
  }

  /** `r` is the non-negative square root of `x`. */
  predicate IsSquareRoot(x: real, r: real) {
    r >= 0.0 && r * r == x
  }
}
