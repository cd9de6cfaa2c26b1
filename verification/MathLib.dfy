/** The integer library of the AMM contracts: `min` and the Newton square root. */
module MathLib {

  /** A Solidity word: leaving the range is a compile-time error here, a revert there. */
  newtype uint256 =
    x: int | 0 <= x < 0x1_0000_0000_0000_0000_0000_0000_0000_0000_0000_0000_0000_0000_0000_0000_0000_0000

  function Min(x: nat, y: nat): (z: nat)
    ensures z <= x && z <= y && (z == x || z == y)
  {
    if x < y then x else y
  }

  predicate Above(y: int, x: int) { y < (x + 1) * (x + 1) }

  predicate AtMost(y: int, x: int) { x * x <= y }

  /** Reference definition of the integer square root, by counting up. */
  ghost function FloorSqrt(y: nat): (z: nat)
    ensures z * z <= y < (z + 1) * (z + 1)
  {
    if y == 0 then 0
    else
      var z := FloorSqrt(y - 1);
      if (z + 1) * (z + 1) <= y then z + 1 else z
  }

  lemma SquareMonotone(a: nat, b: nat)
    requires a <= b
    ensures a * a <= b * b
  {
    assert b * b - a * a == (b - a) * (b + a);
  }

  /** The two inequalities pin the root down, whatever computed it. */
  lemma RootUnique(y: nat, a: nat, b: nat)
    requires AtMost(y, a) && Above(y, a)
    requires AtMost(y, b) && Above(y, b)
    ensures a == b
  {
    if a < b {
      SquareMonotone(a + 1, b);
    } else if b < a {
      SquareMonotone(b + 1, a);
    }
  }

  /** One Newton step never undershoots the root, from any positive guess. */
  lemma NewtonStepAbove(y: nat, x: nat)
    requires x > 0
    ensures var n := (y / x + x) / 2; y < (n + 1) * (n + 1)
  {
    var q := y / x;
    var n := (q + x) / 2;
    assert y < (q + 1) * x by {
      assert y == q * x + y % x;
    }
    MeanSquare(q + 1, x, n + 1);
  }

  /** The square of a mean, rounded up, is at least the product. */
  lemma MeanSquare(a: nat, b: nat, mean: nat)
    requires 2 * mean >= a + b
    ensures a * b <= mean * mean
  {
    SquareMonotone(a + b, 2 * mean);
    SquareNonNegative(a - b);
    assert (a + b) * (a + b) - 4 * (a * b) == (a - b) * (a - b);
    assert (2 * mean) * (2 * mean) == 4 * (mean * mean);
  }

  lemma SquareNonNegative(d: int)
    ensures d * d >= 0
  {
    if d < 0 {
      assert d * d == (-d) * (-d);
    }
  }

  /** A guess that the step does not lower is at or below the root. */
  lemma NewtonStop(y: nat, z: nat)
    requires z > 0 && (y / z + z) / 2 >= z
    ensures z * z <= y
  {
    var q := y / z;
    assert q >= z;
    assert y == q * z + y % z;
    assert q * z >= z * z;
  }

  lemma TwoIfAboveThree(y: nat, x: nat)
    requires y > 3 && y < (x + 1) * (x + 1)
    ensures x >= 2
  {
    if x <= 1 {
      SquareMonotone(x + 1, 2);
    }
  }

  lemma HalfStepFits(y: nat, x: nat)
    requires x >= 2
    ensures y / x <= y / 2
  {
    var q := y / x;
    assert y == q * x + y % x;
    assert q * x >= q * 2;
  }

  lemma InitialGuessAbove(y: nat)
    ensures y < (y / 2 + 2) * (y / 2 + 2)
  {
    var h := y / 2;
    assert (h + 2) * (h + 2) == h * h + 4 * h + 4;
    SquareNonNegative(h);
  }

  lemma StepFacts(y: nat, x: nat)
    requires y > 3 && x <= y / 2 + 1 && Above(y, x)
    ensures x >= 2
    ensures y / x <= y / 2
    ensures Above(y, (y / x + x) / 2)
    ensures (y / x + x) / 2 >= x ==> AtMost(y, x)
  {
    TwoIfAboveThree(y, x);
    HalfStepFits(y, x);
    NewtonStepAbove(y, x);
    if (y / x + x) / 2 >= x {
      NewtonStop(y, x);
    }
  }

  /** The body of the loop. Its sum fits a word: the guess is at most half of `y` plus one,
      and the quotient at most half of `y`. */
  function NewtonStep(y: uint256, x: uint256): (n: uint256)
    requires 2 <= x <= y / 2 + 1
    ensures n as int == (y as int / x as int + x as int) / 2 <= y as int / 2 + 1
  {
    HalfStepFits(y as int, x as int);
    var q := y / x;
    (q + x) / 2
  }

  /** The Newton loop on machine words: it terminates, no operation leaves 256 bits,
      and the result is the floor of the square root. */
  method Sqrt(y: uint256) returns (z: uint256)
    ensures z as int == FloorSqrt(y as int)
  {
    z := 0;
    if y > 3 {
      z := y;
      var x := y / 2 + 1;
      InitialGuessAbove(y as int);
      while x < z
        invariant 0 < z
        invariant x <= y / 2 + 1
        invariant Above(y as int, x as int)
        invariant Above(y as int, z as int)
        invariant x >= z ==> AtMost(y as int, z as int)
        decreases z
      {
        StepFacts(y as int, x as int);
        z := x;
        x := NewtonStep(y, x);
      }
    } else if y != 0 {
      z := 1;
    }
    RootUnique(y as int, z as int, FloorSqrt(y as int));
  }

  /** `Sqrt` on a number known to be a word. */
  method SqrtOf(y: nat) returns (z: nat)
    requires y < 0x1_0000_0000_0000_0000_0000_0000_0000_0000_0000_0000_0000_0000_0000_0000_0000_0000
    ensures z == FloorSqrt(y)
  {
    var root := Sqrt(y as uint256);
    z := root as int;
  }
}
