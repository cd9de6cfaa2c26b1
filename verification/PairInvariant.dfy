/** What no sequence of calls can break in a pair. */
module PairInvariant {
  import opened MathLib
  import opened TokenLedger
  import opened PairSpec
  import opened PoolMath

  lemma EmptyHolds(s: PairState)
    requires Empty(s)
    ensures Inv(s)
  {
  }

  // ----- one step --------------------------------------------------------------------------

  lemma LedgerStepKeepsInv(s: PairState, step: Step)
    requires Inv(s) && FromOutside(s.self, step)
    requires step.Transfer0? || step.Transfer1? || step.LpApprove?
    requires Exec(s, step).Ok?
    ensures Inv(Exec(s, step).value) && SameShares(s, Exec(s, step).value)
  {
  }

  predicate SameShares(s: PairState, t: PairState) {
    s.self == t.self && s.totalSupply == t.totalSupply && s.reserve0 == t.reserve0 && s.reserve1 == t.reserve1
    && Bal(s.lp, 0) <= Bal(t.lp, 0)
  }

  /** Address zero sends nothing, so the tokens minted to it are locked for good. */
  lemma LpMoveKeepsInv(s: PairState, from: Address, to: Address, amount: nat)
    requires Inv(s) && TransferLp(s, from, to, amount).Ok? && (from == 0 ==> amount == 0)
    ensures Inv(TransferLp(s, from, to, amount).value) && SameShares(s, TransferLp(s, from, to, amount).value)
  {
    TotalMoved(s.lp, from, to, amount);
  }

  lemma LpSpendKeepsInv(s: PairState, sender: Address, owner: Address, to: Address, amount: nat)
    requires Inv(s) && TransferFromLp(s, sender, owner, to, amount).Ok?
    ensures Inv(TransferFromLp(s, sender, owner, to, amount).value)
    ensures SameShares(s, TransferFromLp(s, sender, owner, to, amount).value)
  {
    var allowed := s.Allowance(owner, sender);
    if allowed == MAX_UINT256 {
      LpMoveKeepsInv(s, owner, to, amount);
    } else {
      var spent := s.(allowance := s.allowance[(owner, sender) := allowed - amount]);
      assert Inv(spent);
      LpMoveKeepsInv(spent, owner, to, amount);
    }
  }

  /** The fields a successful mint leaves behind. */
  lemma MintShape(s: PairState, to: Address)
    requires Mint(s, to).Ok?
    ensures var (t, liquidity) := Mint(s, to).value;
            var seeded := if s.totalSupply == 0 then s.lp[0 := Bal(s.lp, 0) + MINIMUM_LIQUIDITY] else s.lp;
            && s.reserve0 <= s.Balance0() <= MAX_UINT112 && s.reserve1 <= s.Balance1() <= MAX_UINT112
            && LiquidityFor(s, s.Balance0() - s.reserve0, s.Balance1() - s.reserve1) == Ok(liquidity)
            && t == s.(reserve0 := s.Balance0(), reserve1 := s.Balance1(),
                       totalSupply := s.totalSupply + (if s.totalSupply == 0 then MINIMUM_LIQUIDITY else 0) + liquidity,
                       lp := seeded[to := Bal(seeded, to) + liquidity])
  {
  }

  lemma FirstLiquidity(s: PairState, amount0: nat, amount1: nat)
    requires s.totalSupply == 0 && LiquidityFor(s, amount0, amount1).Ok?
    ensures var supply := LiquidityFor(s, amount0, amount1).value + MINIMUM_LIQUIDITY;
            supply * supply <= amount0 * amount1 && amount0 > 0 && amount1 > 0
  {
    var supply := FloorSqrt(amount0 * amount1);
    ProductMonotone(1, 1, supply, supply);
    PositiveProduct(amount0, amount1);
  }

  lemma LaterLiquidity(s: PairState, amount0: nat, amount1: nat)
    requires s.totalSupply > 0 && LiquidityFor(s, amount0, amount1).Ok?
    ensures var liquidity := LiquidityFor(s, amount0, amount1).value;
            && s.reserve0 > 0 && s.reserve1 > 0
            && s.reserve0 * (s.totalSupply + liquidity) <= (s.reserve0 + amount0) * s.totalSupply
            && s.reserve1 * (s.totalSupply + liquidity) <= (s.reserve1 + amount1) * s.totalSupply
  {
    var liquidity := LiquidityFor(s, amount0, amount1).value;
    DepositKeepsSide(s.reserve0, amount0, s.totalSupply, liquidity);
    DepositKeepsSide(s.reserve1, amount1, s.totalSupply, liquidity);
  }

  lemma FirstMintKeepsInv(s: PairState, t: PairState, to: Address, liquidity: nat)
    requires Inv(s) && s.totalSupply == 0
    requires s.Balance0() <= MAX_UINT112 && s.Balance1() <= MAX_UINT112
    requires LiquidityFor(s, s.Balance0(), s.Balance1()) == Ok(liquidity)
    requires var seeded := s.lp[0 := Bal(s.lp, 0) + MINIMUM_LIQUIDITY];
             t == s.(reserve0 := s.Balance0(), reserve1 := s.Balance1(), totalSupply := MINIMUM_LIQUIDITY + liquidity,
                     lp := seeded[to := Bal(seeded, to) + liquidity])
    ensures Inv(t) && Funded(t)
  {
    var seeded := s.lp[0 := Bal(s.lp, 0) + MINIMUM_LIQUIDITY];
    TotalWrite(s.lp, 0, Bal(s.lp, 0) + MINIMUM_LIQUIDITY);
    TotalWrite(seeded, to, Bal(seeded, to) + liquidity);
    FirstLiquidity(s, s.Balance0(), s.Balance1());
  }

  lemma LaterMintKeepsInv(s: PairState, t: PairState, to: Address, liquidity: nat)
    requires Inv(s) && s.totalSupply > 0
    requires s.Balance0() <= MAX_UINT112 && s.Balance1() <= MAX_UINT112
    requires LiquidityFor(s, s.Balance0() - s.reserve0, s.Balance1() - s.reserve1) == Ok(liquidity)
    requires t == s.(reserve0 := s.Balance0(), reserve1 := s.Balance1(), totalSupply := s.totalSupply + liquidity,
                     lp := s.lp[to := Bal(s.lp, to) + liquidity])
    ensures Inv(t) && Funded(t) && BackedAsWell(s, t)
  {
    TotalWrite(s.lp, to, Bal(s.lp, to) + liquidity);
    LaterLiquidity(s, s.Balance0() - s.reserve0, s.Balance1() - s.reserve1);
    ProportionalStep(s, t);
  }

  lemma MintKeepsInv(s: PairState, to: Address)
    requires Inv(s) && Mint(s, to).Ok?
    ensures var t := Mint(s, to).value.0;
            Inv(t) && Funded(t) && (s.totalSupply > 0 ==> BackedAsWell(s, t))
  {
    var (t, liquidity) := Mint(s, to).value;
    MintShape(s, to);
    if s.totalSupply == 0 {
      FirstMintKeepsInv(s, t, to, liquidity);
    } else {
      LaterMintKeepsInv(s, t, to, liquidity);
    }
  }

  /** If each reserve grows at least in proportion to the supply, backing does not fall, and
      the bound on the supply carries over. */
  lemma ProportionalStep(s: PairState, t: PairState)
    requires Funded(s)
    requires s.reserve0 * t.totalSupply <= t.reserve0 * s.totalSupply
    requires s.reserve1 * t.totalSupply <= t.reserve1 * s.totalSupply
    ensures BackedAsWell(s, t)
    ensures t.totalSupply * t.totalSupply <= t.K()
    ensures t.totalSupply > 0 ==> t.reserve0 > 0 && t.reserve1 > 0
  {
    ShareKept(s.reserve0, s.reserve1, s.totalSupply, t.reserve0, t.reserve1, t.totalSupply);
    SquareBound(s, t);
  }

  lemma SquareBound(s: PairState, t: PairState)
    requires Funded(s) && BackedAsWell(s, t)
    ensures t.totalSupply * t.totalSupply <= t.K()
    ensures t.totalSupply > 0 ==> t.reserve0 > 0 && t.reserve1 > 0
  {
    ProductMonotone(1, 1, s.totalSupply, s.totalSupply);
    SquareBoundKept(s.K(), s.totalSupply * s.totalSupply, t.K(), t.totalSupply * t.totalSupply);
    if t.totalSupply > 0 {
      ProductMonotone(1, 1, t.totalSupply, t.totalSupply);
      PositiveProduct(t.reserve0, t.reserve1);
    }
  }

  /** The fields a successful burn leaves behind; a recipient that is the pair itself gets
      nothing out of it. */
  lemma BurnShape(s: PairState, to: Address)
    requires Burn(s, to).Ok?
    ensures var liquidity := Bal(s.lp, s.self);
            var (t, amount0, amount1) := Burn(s, to).value;
            && s.totalSupply > 0 && liquidity <= s.totalSupply
            && amount0 == (liquidity * s.Balance0()) / s.totalSupply <= s.Balance0()
            && amount1 == (liquidity * s.Balance1()) / s.totalSupply <= s.Balance1()
            && t == s.(token0 := Moved(s.token0, s.self, to, amount0), token1 := Moved(s.token1, s.self, to, amount1),
                       reserve0 := if to == s.self then s.Balance0() else s.Balance0() - amount0,
                       reserve1 := if to == s.self then s.Balance1() else s.Balance1() - amount1,
                       totalSupply := s.totalSupply - liquidity, lp := s.lp[s.self := 0])
            && t.reserve0 == t.Balance0() <= MAX_UINT112 && t.reserve1 == t.Balance1() <= MAX_UINT112
  {
  }

  lemma BurnKeepsInv(s: PairState, to: Address)
    requires Inv(s) && Burn(s, to).Ok?
    ensures var t := Burn(s, to).value.0; Inv(t) && Funded(t) && BackedAsWell(s, t)
  {
    var liquidity := Bal(s.lp, s.self);
    var (t, amount0, amount1) := Burn(s, to).value;
    BurnShape(s, to);
    TotalWrite(s.lp, s.self, 0);
    TwoHolders(s.lp, s.self, 0);
    WithdrawalKeepsSide(s.reserve0, s.Balance0(), s.totalSupply, liquidity);
    WithdrawalKeepsSide(s.reserve1, s.Balance1(), s.totalSupply, liquidity);
    ProductMonotone(s.Balance0() - amount0, s.totalSupply, t.reserve0, s.totalSupply);
    ProductMonotone(s.Balance1() - amount1, s.totalSupply, t.reserve1, s.totalSupply);
    ProportionalStep(s, t);
  }

  /** The fields a successful swap leaves behind, and the checks it passed. */
  lemma SwapShape(s: PairState, amount0Out: nat, amount1Out: nat, to: Address)
    requires Swap(s, amount0Out, amount1Out, to).Ok?
    ensures var t := Swap(s, amount0Out, amount1Out, to).value;
            && amount0Out < s.reserve0 && amount1Out < s.reserve1
            && t == s.(token0 := t.token0, token1 := t.token1, reserve0 := t.Balance0(), reserve1 := t.Balance1())
            && t.reserve0 <= MAX_UINT112 && t.reserve1 <= MAX_UINT112
            && CheckK(t.reserve0, t.reserve1, AmountIn(t.reserve0, s.reserve0, amount0Out),
                      AmountIn(t.reserve1, s.reserve1, amount1Out), s.K()).Ok?
  {
  }

  lemma SwapKeepsInv(s: PairState, amount0Out: nat, amount1Out: nat, to: Address)
    requires Inv(s) && Swap(s, amount0Out, amount1Out, to).Ok?
    ensures var t := Swap(s, amount0Out, amount1Out, to).value;
            Inv(t) && Funded(t) && BackedAsWell(s, t) && s.K() <= t.K() && t.lp == s.lp
  {
    var t := Swap(s, amount0Out, amount1Out, to).value;
    SwapShape(s, amount0Out, amount1Out, to);
    var in0 := AmountIn(t.reserve0, s.reserve0, amount0Out);
    var in1 := AmountIn(t.reserve1, s.reserve1, amount1Out);
    AdjustedCheckKeepsK(t.reserve0, t.reserve1, in0, in1, s.K());
    ProductMonotone(s.K(), s.totalSupply * s.totalSupply, t.K(), s.totalSupply * s.totalSupply);
    SquareBound(s, t);
  }

  lemma StepKeepsInv(s: PairState, step: Step)
    requires Inv(s) && FromOutside(s.self, step)
    ensures Inv(Next(s, step)) && Next(s, step).self == s.self
    ensures Funded(s) ==> Funded(Next(s, step)) && BackedAsWell(s, Next(s, step))
  {
    if Exec(s, step).Ok? {
      match step
      case LpTransfer(sender, to, amount) => LpMoveKeepsInv(s, sender, to, amount);
      case LpTransferFrom(sender, owner, to, amount) => LpSpendKeepsInv(s, sender, owner, to, amount);
      case DoMint(to) => MintStep(s, to);
      case DoBurn(to) => BurnStep(s, to);
      case DoSwap(amount0Out, amount1Out, to) => SwapKeepsInv(s, amount0Out, amount1Out, to);
      case _ => LedgerStepKeepsInv(s, step);
    }
  }

  lemma MintStep(s: PairState, to: Address)
    requires Inv(s) && Exec(s, DoMint(to)).Ok?
    ensures var t := Exec(s, DoMint(to)).value;
            t.self == s.self && Inv(t) && Funded(t) && (Funded(s) ==> BackedAsWell(s, t))
  {
    MintKeepsInv(s, to);
    MintShape(s, to);
  }

  lemma BurnStep(s: PairState, to: Address)
    requires Inv(s) && Exec(s, DoBurn(to)).Ok?
    ensures var t := Exec(s, DoBurn(to)).value;
            t.self == s.self && Inv(t) && Funded(t) && BackedAsWell(s, t)
  {
    BurnKeepsInv(s, to);
    BurnShape(s, to);
  }

  // ----- every run -------------------------------------------------------------------------

  /** Every state reachable from an empty pair by any calls, reverted ones included, satisfies
      the invariant; once liquidity exists it never disappears, and the reserves behind each
      liquidity token never fall. */
  lemma {:induction false} RunKeepsInv(s: PairState, steps: seq<Step>)
    requires Inv(s)
    requires forall step :: step in steps ==> FromOutside(s.self, step)
    ensures Inv(Run(s, steps)) && Run(s, steps).self == s.self
    ensures Funded(s) ==> Funded(Run(s, steps)) && BackedAsWell(s, Run(s, steps))
    decreases |steps|
  {
    if steps != [] {
      StepKeepsInv(s, steps[0]);
      var t := Next(s, steps[0]);
      RunKeepsInv(t, steps[1..]);
      if Funded(s) {
        BackingTransitive(s, t, Run(t, steps[1..]));
      }
    }
  }

  lemma BackingTransitive(s: PairState, t: PairState, u: PairState)
    requires Funded(t) && BackedAsWell(s, t) && BackedAsWell(t, u)
    ensures BackedAsWell(s, u)
  {
    ProductMonotone(1, 1, t.totalSupply, t.totalSupply);
    ShareTransitive(s.K(), s.totalSupply * s.totalSupply, t.K(), t.totalSupply * t.totalSupply,
                    u.K(), u.totalSupply * u.totalSupply);
  }

  lemma ReachableFromEmpty(s: PairState, steps: seq<Step>)
    requires Empty(s)
    requires forall step :: step in steps ==> FromOutside(s.self, step)
    ensures var t := Run(s, steps);
            && t.reserve0 <= t.Balance0() && t.reserve1 <= t.Balance1()
            && Total(t.lp) == t.totalSupply
            && (t.totalSupply == 0 || t.totalSupply >= MINIMUM_LIQUIDITY)
            && t.totalSupply * t.totalSupply <= t.reserve0 * t.reserve1
            && (t.reserve0 == 0 <==> t.reserve1 == 0)
            && (t.reserve0 == 0 <==> t.totalSupply == 0)
  {
    EmptyHolds(s);
    RunKeepsInv(s, steps);
  }
}
