/** Python's numeric rounding on exact reals: `round(x)` (ties to even), the
    quarter-hour rounding `round(x * 4) / 4`, and `round(x, n)`. */
module Rounding {

  /** Python 3's `round(x)` with one argument: the nearest integer, and on a
      tie the even one (`round(1.5) == 2`, `round(2.5) == 2`). */
  function RoundHalfEven(x: real): (n: int)
    ensures x - 0.5 <= n as real <= x + 0.5
    ensures (n as real - x == 0.5 || x - n as real == 0.5) ==> n % 2 == 0
  {
    var f := x.Floor;
    var d := x - f as real;
    if d < 0.5 then f
    else if d > 0.5 then f + 1
    else if f % 2 == 0 then f
    else f + 1
  }

  /** Rounding never reverses the order of two reals. */
  lemma RoundHalfEvenMonotone(x: real, y: real)
    requires x <= y
    ensures RoundHalfEven(x) <= RoundHalfEven(y)
  {
  }

  /** An integer rounds to itself. */
  lemma RoundHalfEvenOfInt(k: int)
    ensures RoundHalfEven(k as real) == k
  {
  }

  /** `x` is a whole number of quarter hours. */
  predicate IsQuarterMultiple(x: real)
  {
    (x * 4.0).Floor as real == x * 4.0
  }

  /** `round(x * 4) / 4`: `x` to the nearest quarter, ties to an even number
      of quarters. */
  function QuarterRound(x: real): (r: real)
    ensures IsQuarterMultiple(r)
    ensures -0.125 <= r - x <= 0.125
    ensures x >= 0.25 ==> r >= 0.25
    ensures -0.125 < x < 0.125 ==> r == 0.0
    ensures (r - x == 0.125 || x - r == 0.125) ==> (r * 4.0).Floor % 2 == 0
  {
    var n := RoundHalfEven(x * 4.0);
    QuarterOf(x, n);
    n as real / 4.0
  }

  /** `n / 4` for the nearest integer `n` to `4 * x` is the nearest quarter
      to `x`, and an even number of quarters on a tie. */
  lemma QuarterOf(x: real, n: int)
    requires x * 4.0 - 0.5 <= n as real <= x * 4.0 + 0.5
    requires (n as real - x * 4.0 == 0.5 || x * 4.0 - n as real == 0.5) ==> n % 2 == 0
    ensures var r := n as real / 4.0;
            && (r * 4.0).Floor == n
            && -0.125 <= r - x <= 0.125
            && ((r - x == 0.125 || x - r == 0.125) ==> (r * 4.0).Floor % 2 == 0)
  {
    var r := n as real / 4.0;
    assert r * 4.0 == n as real;
  }

  /** Ties go to an even number of quarters: `round(2.5) / 4` is 0.5 and
      `round(3.5) / 4` is 1.0. */
  lemma QuarterRoundTies()
    ensures QuarterRound(0.625) == 0.5
    ensures QuarterRound(0.875) == 1.0
  {
    assert QuarterRound(0.625) * 4.0 == 2.0 || QuarterRound(0.625) * 4.0 == 3.0;
    assert QuarterRound(0.875) * 4.0 == 3.0 || QuarterRound(0.875) * 4.0 == 4.0;
  }

  /** Quarter rounding never reverses the order of two reals. */
  lemma QuarterRoundMonotone(x: real, y: real)
    requires x <= y
    ensures QuarterRound(x) <= QuarterRound(y)
  {
    RoundHalfEvenMonotone(x * 4.0, y * 4.0);
  }

  /** Python's `round(x, n)` for `scale == 10^n`, at the two precisions
      the planner uses (`n` is 1 or 2): `x` to the nearest multiple of
      `1 / scale`, ties to an even multiple. */
  function RoundTo(x: real, scale: nat): (r: real)
    requires scale == 10 || scale == 100
    ensures scale == 10 ==> -0.05 <= r - x <= 0.05
    ensures scale == 100 ==> -0.005 <= r - x <= 0.005
  {
    if scale == 10 then RoundHalfEven(x * 10.0) as real / 10.0
    else RoundHalfEven(x * 100.0) as real / 100.0
  }

  /** Rounding to a fixed number of decimals never reverses the order of two
      reals. */
  lemma RoundToMonotone(x: real, y: real, scale: nat)
    requires scale == 10 || scale == 100
    requires x <= y
    ensures RoundTo(x, scale) <= RoundTo(y, scale)
  {
    if scale == 10 {
      RoundHalfEvenMonotone(x * 10.0, y * 10.0);
    } else {
      RoundHalfEvenMonotone(x * 100.0, y * 100.0);
    }
  }
}
