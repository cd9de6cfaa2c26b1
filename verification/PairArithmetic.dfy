/** Checked arithmetic never gets in the way of a pair whose balances fit its reserves. */
module PairArithmetic {
  import opened MathLib
  import opened TokenLedger
  import opened PairSpec
  import opened PoolMath
  import PairInvariant

  lemma RootBound(x: nat, m: nat)
    requires x * x <= m * m
    ensures x <= m
  {
    assert m * m - x * x == (m - x) * (m + x);
    if m + x > 0 {
      SignOfFactor(m - x, m + x);
    }
  }

  /** Products of two 112-bit values, and the scaled products of the fee check, fit 256 bits. */
  lemma ProductsFit(a: nat, b: nat)
    requires a <= MAX_UINT112 && b <= MAX_UINT112
    ensures a * b <= MAX_UINT112 * MAX_UINT112 <= MAX_UINT256
    ensures a * b * 1000000 <= MAX_UINT256
    ensures (a * 1000) * (b * 1000) <= MAX_UINT256
  {
    ProductMonotone(a, b, MAX_UINT112, MAX_UINT112);
    assert (a * 1000) * (b * 1000) == (a * b) * 1000000;
  }

  lemma SupplyFits(s: PairState)
    requires Inv(s)
    ensures s.totalSupply <= MAX_UINT112
  {
    if Funded(s) {
      ProductsFit(s.reserve0, s.reserve1);
      RootBound(s.totalSupply, MAX_UINT112);
    }
  }

  lemma RootFits(a: nat, b: nat)
    requires a <= MAX_UINT112 && b <= MAX_UINT112
    ensures a * b <= MAX_UINT256 && FloorSqrt(a * b) <= MAX_UINT112
  {
    ProductsFit(a, b);
    RootBound(FloorSqrt(a * b), MAX_UINT112);
  }

  lemma FirstLiquidityFits(s: PairState, amount0: nat, amount1: nat)
    requires s.totalSupply == 0 && amount0 <= MAX_UINT112 && amount1 <= MAX_UINT112
    ensures LiquidityFor(s, amount0, amount1).Ok? <==> FloorSqrt(amount0 * amount1) >= MINIMUM_LIQUIDITY
    ensures LiquidityFor(s, amount0, amount1).Revert? ==> LiquidityFor(s, amount0, amount1) == Revert(Underflow)
    ensures LiquidityFor(s, amount0, amount1).Ok? ==>
              LiquidityFor(s, amount0, amount1).value + MINIMUM_LIQUIDITY <= MAX_UINT112
  {
    RootFits(amount0, amount1);
  }

  lemma LaterLiquidityFits(s: PairState, amount0: nat, amount1: nat)
    requires Inv(s) && Funded(s)
    requires s.reserve0 + amount0 <= MAX_UINT112 && s.reserve1 + amount1 <= MAX_UINT112
    ensures LiquidityFor(s, amount0, amount1).Ok?
    ensures s.totalSupply + LiquidityFor(s, amount0, amount1).value <= MAX_UINT112
  {
    SupplyFits(s);
    ProductsFit(amount0, s.totalSupply);
    ProductsFit(amount1, s.totalSupply);
    PairInvariant.LaterLiquidity(s, amount0, amount1);
    var t := s.(reserve0 := s.reserve0 + amount0, reserve1 := s.reserve1 + amount1,
                totalSupply := s.totalSupply + LiquidityFor(s, amount0, amount1).value);
    PairInvariant.ProportionalStep(s, t);
    ProductsFit(t.reserve0, t.reserve1);
    RootBound(t.totalSupply, MAX_UINT112);
  }

  /** With both balances within 112 bits, `mint` never overflows and fails for two reasons only: a
      first deposit whose root is below the locked minimum, and a deposit worth no liquidity token. */
  lemma MintOutcome(s: PairState, to: Address)
    requires Inv(s) && s.Balance0() <= MAX_UINT112 && s.Balance1() <= MAX_UINT112
    ensures var (a0, a1) := (s.Balance0() - s.reserve0, s.Balance1() - s.reserve1);
            && (Mint(s, to) == Revert(Underflow) <==>
                  s.totalSupply == 0 && FloorSqrt(a0 * a1) < MINIMUM_LIQUIDITY)
            && (Mint(s, to) == Revert(InsufficientLiquidityMinted) <==> LiquidityFor(s, a0, a1) == Ok(0))
            && (Mint(s, to).Ok? <==> LiquidityFor(s, a0, a1).Ok? && LiquidityFor(s, a0, a1).value > 0)
    ensures Mint(s, to).Revert? ==> Mint(s, to).reason in {Underflow, InsufficientLiquidityMinted}
  {
    var a0, a1 := s.Balance0() - s.reserve0, s.Balance1() - s.reserve1;
    if s.totalSupply == 0 {
      FirstLiquidityFits(s, a0, a1);
      if LiquidityFor(s, a0, a1).Ok? {
        var seeded := s.lp[0 := Bal(s.lp, 0) + MINIMUM_LIQUIDITY];
        TotalWrite(s.lp, 0, Bal(s.lp, 0) + MINIMUM_LIQUIDITY);
        TotalWrite(seeded, to, 0);
      }
    } else {
      LaterLiquidityFits(s, a0, a1);
      TotalWrite(s.lp, to, 0);
    }
  }

  /** With both balances within 112 bits, `burn` fails only when nothing was minted yet or
      when one of the two redeemed amounts rounds to zero. */
  lemma BurnOutcome(s: PairState, to: Address)
    requires Inv(s) && s.Balance0() <= MAX_UINT112 && s.Balance1() <= MAX_UINT112
    ensures Burn(s, to).Ok? <==>
              && s.totalSupply > 0
              && (Bal(s.lp, s.self) * s.Balance0()) / s.totalSupply > 0
              && (Bal(s.lp, s.self) * s.Balance1()) / s.totalSupply > 0
    ensures Burn(s, to).Revert? ==>
              Burn(s, to).reason == if s.totalSupply == 0 then DivisionByZero else InsufficientLiquidityBurned
  {
    var liquidity := Bal(s.lp, s.self);
    SupplyFits(s);
    TotalWrite(s.lp, s.self, 0);
    ProductsFit(liquidity, s.Balance0());
    ProductsFit(liquidity, s.Balance1());
    if s.totalSupply > 0 {
      WithdrawalKeepsSide(0, s.Balance0(), s.totalSupply, liquidity);
      WithdrawalKeepsSide(0, s.Balance1(), s.totalSupply, liquidity);
    }
  }

  /** On balances within 112 bits the fee check is the plain inequality: nothing overflows. */
  lemma CheckKOutcome(balance0: nat, balance1: nat, in0: nat, in1: nat, k: nat)
    requires in0 <= balance0 <= MAX_UINT112 && in1 <= balance1 <= MAX_UINT112
    requires k <= MAX_UINT112 * MAX_UINT112
    ensures CheckK(balance0, balance1, in0, in1, k) ==
            if (balance0 * 1000 - in0 * 3) * (balance1 * 1000 - in1 * 3) >= k * 1000000
            then Ok(()) else Revert(KDecreased)
  {
    ProductsFit(balance0, balance1);
    ProductsFit(MAX_UINT112, MAX_UINT112);
    ProductMonotone(balance0 * 1000 - in0 * 3, balance1 * 1000 - in1 * 3, balance0 * 1000, balance1 * 1000);
  }

  /** With both balances within 112 bits, `swap` never overflows, neither in the fee check
      nor in the reserves it writes. */
  lemma SwapNeverOverflows(s: PairState, amount0Out: nat, amount1Out: nat, to: Address)
    requires Inv(s) && s.Balance0() <= MAX_UINT112 && s.Balance1() <= MAX_UINT112
    ensures var r := Swap(s, amount0Out, amount1Out, to);
            r.Revert? ==> r.reason in {InsufficientOutput, InsufficientLiquidity, InsufficientInput, KDecreased}
  {
    if amount0Out < s.reserve0 && amount1Out < s.reserve1 {
      var b0 := if to == s.self then s.Balance0() else s.Balance0() - amount0Out;
      var b1 := if to == s.self then s.Balance1() else s.Balance1() - amount1Out;
      ProductsFit(s.reserve0, s.reserve1);
      CheckKOutcome(b0, b1, AmountIn(b0, s.reserve0, amount0Out), AmountIn(b1, s.reserve1, amount1Out), s.K());
    }
  }
}
