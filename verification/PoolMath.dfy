/** The non-linear integer facts behind the pool, stated on bare numbers. */
module PoolMath {

  lemma ProductMonotone(a: nat, b: nat, c: nat, d: nat)
    requires a <= c && b <= d
    ensures a * b <= c * d
  {
    assert c * d - a * b == (c - a) * d + a * (d - b);
  }

  lemma SwapFactors(a: nat, b: nat, c: nat)
    ensures (a * b) * c == (a * c) * b
  {
  }

  lemma ScaledFactor(p: nat, q: nat, k: nat)
    requires p * q >= 1000 * k
    ensures p * (q * 1000) >= k * 1000000
  {
    assert p * (q * 1000) == 1000 * (p * q);
  }

  lemma SignOfFactor(d: int, f: nat)
    requires f > 0 && d * f >= 0
    ensures d >= 0
  {
  }

  lemma CancelFactor(a: nat, b: nat, f: nat)
    requires f > 0 && a * f <= b * f
    ensures a <= b
  {
    assert b * f - a * f == (b - a) * f;
    SignOfFactor(b - a, f);
  }

  function FloorDiv(n: nat, d: nat): nat
    requires d > 0
  {
    n / d
  }

  lemma FloorDivision(n: nat, d: nat)
    requires d > 0
    ensures (n / d) * d <= n < (n / d + 1) * d
  {
    assert n == (n / d) * d + n % d;
    assert (n / d + 1) * d == (n / d) * d + d;
  }

  /** If each reserve grew at least in proportion to the supply, so did their product
      against the square of the supply. */
  lemma ShareKept(r0: nat, r1: nat, supply: nat, r0': nat, r1': nat, supply': nat)
    requires r0 * supply' <= r0' * supply
    requires r1 * supply' <= r1' * supply
    ensures (r0 * r1) * (supply' * supply') <= (r0' * r1') * (supply * supply)
  {
    ProductMonotone(r0 * supply', r1 * supply', r0' * supply, r1' * supply);
    assert (r0 * supply') * (r1 * supply') == (r0 * r1) * (supply' * supply') by {
      Regroup(r0, r1, supply');
    }
    assert (r0' * supply) * (r1' * supply) == (r0' * r1') * (supply * supply) by {
      Regroup(r0', r1', supply);
    }
  }

  lemma Regroup(a: nat, b: nat, c: nat)
    ensures (a * c) * (b * c) == (a * b) * (c * c)
  {
    calc {
      (a * c) * (b * c);
      a * (c * (b * c));
      { assert c * (b * c) == b * (c * c); }
      a * (b * (c * c));
      (a * b) * (c * c);
    }
  }

  /** The relation "backed at least as well" is transitive once the middle supply is positive. */
  lemma ShareTransitive(k1: nat, q1: nat, k2: nat, q2: nat, k3: nat, q3: nat)
    requires q2 > 0
    requires k1 * q2 <= k2 * q1
    requires k2 * q3 <= k3 * q2
    ensures k1 * q3 <= k3 * q1
  {
    ProductMonotone(k1 * q2, q3, k2 * q1, q3);
    ProductMonotone(k2 * q3, q1, k3 * q2, q1);
    assert (k1 * q2) * q3 == (k1 * q3) * q2;
    assert (k2 * q1) * q3 == (k2 * q3) * q1;
    assert (k3 * q2) * q1 == (k3 * q1) * q2;
    CancelFactor(k1 * q3, k3 * q1, q2);
  }

  /** The supply stays below the geometric mean of the reserves if backing did not fall. */
  lemma SquareBoundKept(k: nat, q: nat, k': nat, q': nat)
    requires 0 < q <= k
    requires k * q' <= k' * q
    ensures q' <= k'
  {
    ProductMonotone(q, q', k, q');
    assert q * q' == q' * q;
    CancelFactor(q', k', q);
  }

  /** A deposit priced by the floor of its share keeps every old share whole. */
  lemma DepositKeepsSide(r: nat, a: nat, supply: nat, liquidity: nat)
    requires r > 0 && liquidity <= (a * supply) / r
    ensures r * (supply + liquidity) <= (r + a) * supply
  {
    FloorDivision(a * supply, r);
    ProductMonotone(liquidity, r, (a * supply) / r, r);
    assert r * (supply + liquidity) == r * supply + liquidity * r;
    assert (r + a) * supply == r * supply + a * supply;
  }

  /** A withdrawal priced by the floor of its share keeps the remaining shares whole. */
  lemma WithdrawalKeepsSide(r: nat, balance: nat, supply: nat, liquidity: nat)
    requires supply > 0 && liquidity <= supply && r <= balance
    ensures var amount := (liquidity * balance) / supply;
            amount <= balance && r * (supply - liquidity) <= (balance - amount) * supply
  {
    var amount := (liquidity * balance) / supply;
    FloorDivision(liquidity * balance, supply);
    ProductMonotone(liquidity, balance, supply, balance);
    assert amount * supply <= balance * supply;
    CancelFactor(amount, balance, supply);
    assert (balance - amount) * supply == balance * supply - amount * supply;
    assert balance * (supply - liquidity) == balance * supply - liquidity * balance;
    ProductMonotone(r, supply - liquidity, balance, supply - liquidity);
  }

  /** The fee-adjusted check implies that the product of the balances did not fall. */
  lemma AdjustedCheckKeepsK(b0: nat, b1: nat, in0: nat, in1: nat, k: nat)
    requires in0 <= b0 && in1 <= b1
    requires (b0 * 1000 - in0 * 3) * (b1 * 1000 - in1 * 3) >= k * 1000000
    ensures k <= b0 * b1
  {
    ProductMonotone(b0 * 1000 - in0 * 3, b1 * 1000 - in1 * 3, b0 * 1000, b1 * 1000);
    assert (b0 * 1000) * (b1 * 1000) == (b0 * b1) * 1000000;
  }

  lemma PositiveProduct(a: nat, b: nat)
    requires a * b > 0
    ensures a > 0 && b > 0
  {
  }
}
