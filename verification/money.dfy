/** Exact arithmetic for amounts of money: Python's `round(x, 2)` and integer powers.

    Amounts are modelled as exact reals. `round(x, 2)` in Python rounds the exact
    value of its argument to the nearest multiple of 0.01, ties going to the even
    neighbour; `Round2` does the same on reals.
 */
module Money {

  /** `n` is the integer nearest to `y`, a tie going to the even one. */
  predicate NearestEven(n: int, y: real) {
    && -0.5 <= n as real - y <= 0.5
    && (n as real - y == 0.5 ==> n % 2 == 0)
    && (n as real - y == -0.5 ==> n % 2 == 0)
  }

  /** Python's `round` to an integer, computed from the floor. */
  function RoundHalfEven(y: real): (n: int)
    ensures NearestEven(n, y)
  {
    var f := y.Floor;
    var d := y - f as real;
    if d < 0.5 then f
    else if d > 0.5 then f + 1
    else if f % 2 == 0 then f
    else f + 1
  }

  /** There is only one nearest integer once ties go to the even one. */
  lemma NearestEvenUnique(y: real, n: int, m: int)
    requires NearestEven(n, y) && NearestEven(m, y)
    ensures n == m
  {
  }

  /** The value is a whole number of cents. */
  predicate IsCents(x: real) {
    (x * 100.0).Floor as real == x * 100.0
  }

  /** Python's `round(x, 2)`: the whole number of cents nearest to `x`, a tie
      going to the even cent. Its properties are the lemmas below. */
  function Round2(x: real): real {
    var y := x * 100.0;
    assert NearestEven(RoundHalfEven(y), y);
    assert forall n: int, m: int :: NearestEven(n, y) && NearestEven(m, y) ==> n == m by {
      forall n: int, m: int | NearestEven(n, y) && NearestEven(m, y)
        ensures n == m
      {
        NearestEvenUnique(y, n, m);
      }
    }
    var cents: int :| NearestEven(cents, y);
    cents as real * 0.01
  }

  /** `round(x, 2)` computed from the floor of `100 * x`. */
  lemma Round2Def(x: real)
    ensures Round2(x) == RoundHalfEven(x * 100.0) as real * 0.01
  {
    var y := x * 100.0;
    forall n: int | NearestEven(n, y)
      ensures n == RoundHalfEven(y)
    {
      NearestEvenUnique(y, n, RoundHalfEven(y));
    }
  }

  /** `round(x, 2)` is a whole number of cents within half a cent of `x`. */
  lemma Round2Bounds(x: real)
    ensures IsCents(Round2(x))
    ensures -0.005 <= Round2(x) - x <= 0.005
  {
    Round2Def(x);
    var n := RoundHalfEven(x * 100.0);
    RoundHalfEvenIsNearest(x * 100.0);
    CentsNear(x, n, Round2(x));
  }

  lemma RoundHalfEvenIsNearest(y: real)
    ensures NearestEven(RoundHalfEven(y), y)
  {
  }

  /** `n` cents, within half a unit of `100 * x`, lie within half a cent of `x`. */
  lemma CentsNear(x: real, n: int, r: real)
    requires r == n as real * 0.01 && -0.5 <= n as real - x * 100.0 <= 0.5
    ensures IsCents(r) && -0.005 <= r - x <= 0.005
  {
    assert r * 100.0 == n as real;
  }

  lemma RoundHalfEvenOfInt(n: int)
    ensures RoundHalfEven(n as real) == n
  {
  }

  lemma RoundHalfEvenMonotone(x: real, y: real)
    requires x <= y
    ensures RoundHalfEven(x) <= RoundHalfEven(y)
  {
    var fx, fy := x.Floor, y.Floor;
    assert fx <= fy;
    if fx < fy {
      assert RoundHalfEven(x) <= fx + 1 <= fy <= RoundHalfEven(y);
    }
  }

  /** Rounding preserves order (weakly). */
  lemma Round2Monotone(x: real, y: real)
    requires x <= y
    ensures Round2(x) <= Round2(y)
  {
    Round2Def(x);
    Round2Def(y);
    RoundHalfEvenMonotone(x * 100.0, y * 100.0);
  }

  /** A whole number of cents is left as it is. */
  lemma Round2OfCents(x: real)
    requires IsCents(x)
    ensures Round2(x) == x
  {
    Round2Def(x);
    var n := (x * 100.0).Floor;
    RoundHalfEvenOfInt(n);
  }

  /** Rounding twice is rounding once. */
  lemma Round2Idempotent(x: real)
    ensures Round2(Round2(x)) == Round2(x)
  {
    Round2Bounds(x);
    Round2OfCents(Round2(x));
  }

  /** A non-negative amount rounds to a non-negative amount. */
  lemma Round2NonNegative(x: real)
    requires 0.0 <= x
    ensures 0.0 <= Round2(x)
  {
    Round2Monotone(0.0, x);
    Round2OfCents(0.0);
  }

  /** `x ** n` for a natural exponent. */
  function Pow(x: real, n: nat): real {
    if n == 0 then 1.0 else x * Pow(x, n - 1)
  }

  lemma {:induction false} PowNonZero(x: real, n: nat)
    requires x != 0.0
    ensures Pow(x, n) != 0.0
  {
    if n > 0 {
      PowNonZero(x, n - 1);
    }
  }

  lemma {:induction false} PowAtLeastOne(x: real, n: nat)
    requires 1.0 <= x
    ensures 1.0 <= Pow(x, n)
  {
    if n > 0 {
      PowAtLeastOne(x, n - 1);
      MulAtLeast(x, Pow(x, n - 1));
    }
  }

  /** A base above one raised to a positive power stays above one. */
  lemma {:induction false} PowAboveOne(x: real, n: nat)
    requires 1.0 < x && 1 <= n
    ensures 1.0 < Pow(x, n)
  {
    PowAtLeastOne(x, n - 1);
    MulAtLeast(x, Pow(x, n - 1));
    assert x * Pow(x, n - 1) >= x;
  }

  lemma MulAtLeast(x: real, y: real)
    requires 1.0 <= x && 1.0 <= y
    ensures y <= x * y && x <= x * y
  {
    assert (x - 1.0) * y >= 0.0;
    assert (y - 1.0) * x >= 0.0;
  }
}
