/**
  The JavaScript number operations the program relies on.  Integers are
  unbounded and reals are exact, so these describe the operations on the
  values the program actually meets (small integers, finite distances).
 */
module JsMath {

  function Abs(a: int): (r: int)
    ensures r >= 0
  {
    if a < 0 then -a else a
  }

  /** JavaScript's `%`: truncated division, so the remainder has the sign of the dividend. */
  function Rem(a: int, b: int): (r: int)
    requires b != 0
    ensures -Abs(b) < r < Abs(b)
    ensures a >= 0 ==> r >= 0
    ensures a <= 0 ==> r <= 0
    ensures a >= 0 && b > 0 ==> r == a % b
  {
    if a >= 0 then a % Abs(b) else -((-a) % Abs(b))
  }

  /** `r` is the integer nearest to `x`, halves going up: what `Math.round` returns. */
  predicate IsRounding(r: int, x: real) {
    r as real - 0.5 <= x < r as real + 0.5
  }

  /** `Math.round(x)`. */
  function Round(x: real): (r: int)
    ensures IsRounding(r, x)
    ensures x >= 0.0 ==> r >= 0
    ensures x <= 0.0 ==> r <= 0
  {
    (x + 0.5).Floor
  }
}
