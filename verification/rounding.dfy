/** Python's built-in `round(x)` on a number, which returns the nearest
    integer and breaks an exact tie towards the even neighbour
    ("banker's rounding"). Rates and ages are exact reals in this model, so
    the binary floating-point representation of the operands is not modelled.
 */
module Rounding {

  /** True when `n` is the integer Python's `round` picks for `x`: no further
      than one half away, and even whenever `x` lies exactly halfway. */
  predicate IsRoundingOf(x: real, n: int) {
    && -0.5 <= x - n as real <= 0.5
    && (x - n as real == 0.5 || n as real - x == 0.5 ==> n % 2 == 0)
  }

  /** `round(x)` with round-half-to-even. */
  function Round(x: real): (n: int)
    ensures IsRoundingOf(x, n)
  {
    var f := x.Floor;
    var d := x - f as real;
    if d < 0.5 then f
    else if d > 0.5 then f + 1
    else if f % 2 == 0 then f
    else f + 1
  }

  /** At most one integer meets the rounding specification, so `Round` is
      characterised by it. */
  lemma RoundUnique(x: real, n: int)
    requires IsRoundingOf(x, n)
    ensures n == Round(x)
  {
  }

  /** Integers round to themselves. */
  lemma RoundOfInteger(k: int)
    ensures Round(k as real) == k
  {
    RoundUnique(k as real, k);
  }

  /** Round-half-to-even is symmetric about zero. */
  lemma RoundNegate(x: real)
    ensures Round(-x) == -Round(x)
  {
    var n := Round(x);
    assert IsRoundingOf(-x, -n);
    RoundUnique(-x, -n);
  }

  /** Rounding never crosses zero: a non-negative argument rounds to a
      non-negative integer. */
  lemma RoundNonNegative(x: real)
    requires x >= 0.0
    ensures Round(x) >= 0
  {
  }

  /** Rounding is monotone. */
  lemma RoundMonotone(x: real, y: real)
    requires x <= y
    ensures Round(x) <= Round(y)
  {
  }
}
