/** Decimal division as the services perform it: exact, then rounded half away from zero to
    sixteen decimals. Sums, differences and products are exact. */
module Decimals {

  const GRID: real := 10000000000000000.0

  /** Half of the last decimal: the largest error of one division. */
  const HALF_STEP: real := 0.5 / GRID

  function RoundHalfAway(x: real): int {
    if x >= 0.0 then (x + 0.5).Floor else -((-x + 0.5).Floor)
  }

  function Round16(x: real): real {
    RoundHalfAway(x * GRID) as real / GRID
  }

  function Div(a: real, b: real): real
    requires b != 0.0
  {
    Round16(a / b)
  }

  /** A number with at most sixteen decimals. */
  predicate OnGrid(x: real) {
    (x * GRID).Floor as real == x * GRID
  }

  lemma RoundHalfAwayError(x: real)
    ensures -0.5 <= RoundHalfAway(x) as real - x <= 0.5
  {
  }

  lemma RoundHalfAwayMonotone(x: real, y: real)
    requires x <= y
    ensures RoundHalfAway(x) <= RoundHalfAway(y)
  {
  }

  lemma RoundHalfAwayWhole(k: int)
    ensures RoundHalfAway(k as real) == k
  {
  }

  lemma ScaleBack(k: real, x: real)
    ensures k / GRID - x == (k - x * GRID) / GRID
  {
  }

  lemma RoundError(x: real)
    ensures -HALF_STEP <= Round16(x) - x <= HALF_STEP
  {
    RoundHalfAwayError(x * GRID);
    ScaleBack(RoundHalfAway(x * GRID) as real, x);
  }

  /** A tie goes away from zero. */
  lemma TiesAway(x: real, k: nat)
    ensures x * GRID == k as real + 0.5 ==> Round16(x) * GRID == (k + 1) as real
    ensures x * GRID == -(k as real + 0.5) ==> Round16(x) * GRID == -((k + 1) as real)
  {
    assert Round16(x) * GRID == RoundHalfAway(x * GRID) as real;
  }

  lemma RoundMonotone(x: real, y: real)
    requires x <= y
    ensures Round16(x) <= Round16(y)
  {
    assert x * GRID <= y * GRID;
    RoundHalfAwayMonotone(x * GRID, y * GRID);
  }

  /** Rounding lands on the grid, and does nothing to what is on it already. */
  lemma RoundOnGrid(x: real)
    ensures OnGrid(Round16(x))
    ensures OnGrid(x) ==> Round16(x) == x
  {
    var k := RoundHalfAway(x * GRID);
    assert Round16(x) * GRID == k as real;
    if OnGrid(x) {
      RoundHalfAwayWhole((x * GRID).Floor);
    }
  }

  lemma WholeOnGrid(x: real, k: int)
    requires x * GRID == k as real
    ensures OnGrid(x)
  {
  }

  lemma GridDifference(x: real, y: real)
    requires OnGrid(x) && OnGrid(y)
    ensures OnGrid(x - y) && OnGrid(x + y)
  {
    var a, b := (x * GRID).Floor, (y * GRID).Floor;
    WholeOnGrid(x - y, a - b);
    WholeOnGrid(x + y, a + b);
  }

  /** A value between two grid points stays between them when rounded. */
  lemma RoundBetween(lo: real, x: real, hi: real)
    requires OnGrid(lo) && OnGrid(hi) && lo <= x <= hi
    ensures lo <= Round16(x) <= hi
  {
    RoundMonotone(lo, x);
    RoundMonotone(x, hi);
    RoundOnGrid(lo);
    RoundOnGrid(hi);
  }

  /** Comparing a rounded value with one is comparing the exact value with half a step less. */
  lemma RoundBelowOne(x: real)
    ensures Round16(x) < 1.0 <==> x < 1.0 - HALF_STEP
  {
    var k := RoundHalfAway(x * GRID);
    assert Round16(x) < 1.0 <==> k < 10000000000000000;
    assert x < 1.0 - HALF_STEP <==> x * GRID < GRID - 0.5;
  }
}
