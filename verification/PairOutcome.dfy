/** When exactly each call of a pair goes through and what it pays, on bare balances. */
module PairOutcome {
  import opened MathLib
  import opened PairArithmetic
  import opened PairSpec
  import opened PoolMath
  import opened TokenLedger
  import PairInvariant

  // ----- minting -------------------------------------------------------------------------------

  /** `liquidity` is what a deposit of `a0` and `a1` is worth: for a first deposit the root of their
      product, rounded down, less the thousand that stay locked; later the smaller of the two
      shares of the supply, rounded down. */
  predicate Owed(supply: nat, r0: nat, r1: nat, a0: nat, a1: nat, liquidity: nat) {
    if supply == 0 then (liquidity + 1000) * (liquidity + 1000) <= a0 * a1 < (liquidity + 1001) * (liquidity + 1001)
    else
      && liquidity * r0 <= a0 * supply && liquidity * r1 <= a1 * supply
      && ((liquidity + 1) * r0 > a0 * supply || (liquidity + 1) * r1 > a1 * supply)
  }

  lemma LiquidityIsOwed(s: PairState, a0: nat, a1: nat)
    requires LiquidityFor(s, a0, a1).Ok?
    ensures Owed(s.totalSupply, s.reserve0, s.reserve1, a0, a1, LiquidityFor(s, a0, a1).value)
  {
    if s.totalSupply == 0 {
      RootIsOwed(a0, a1, FloorSqrt(a0 * a1), LiquidityFor(s, a0, a1).value);
    } else {
      FloorDivision(a0 * s.totalSupply, s.reserve0);
      FloorDivision(a1 * s.totalSupply, s.reserve1);
      ShareIsOwed(s.totalSupply, s.reserve0, s.reserve1, a0, a1, (a0 * s.totalSupply) / s.reserve0,
                  (a1 * s.totalSupply) / s.reserve1, LiquidityFor(s, a0, a1).value);
    }
  }

  lemma RootIsOwed(a0: nat, a1: nat, root: nat, liquidity: nat)
    requires root * root <= a0 * a1 < (root + 1) * (root + 1) && root == liquidity + 1000
    ensures (liquidity + 1000) * (liquidity + 1000) <= a0 * a1 < (liquidity + 1001) * (liquidity + 1001)
  {
  }

  lemma ShareIsOwed(supply: nat, r0: nat, r1: nat, a0: nat, a1: nat, share0: nat, share1: nat, liquidity: nat)
    requires supply > 0 && share0 * r0 <= a0 * supply < (share0 + 1) * r0
    requires share1 * r1 <= a1 * supply < (share1 + 1) * r1
    requires liquidity == if share0 < share1 then share0 else share1
    ensures Owed(supply, r0, r1, a0, a1, liquidity)
  {
    ProductMonotone(liquidity, r0, share0, r0);
    ProductMonotone(liquidity, r1, share1, r1);
  }

  /** A mint credits exactly what the deposit is worth, to the recipient alone; with the first one
      a thousand tokens come to be locked at address zero. */
  lemma MintPays(s: PairState, to: Address)
    requires Mint(s, to).Ok?
    ensures var (t, liquidity) := Mint(s, to).value;
            var locked := if s.totalSupply == 0 then 1000 else 0;
            && liquidity > 0 && s.reserve0 <= s.Balance0() && s.reserve1 <= s.Balance1()
            && Owed(s.totalSupply, s.reserve0, s.reserve1, s.Balance0() - s.reserve0, s.Balance1() - s.reserve1,
                    liquidity)
            && t.totalSupply == s.totalSupply + locked + liquidity
            && (forall h :: Bal(t.lp, h) ==
                            Bal(s.lp, h) + (if h == to then liquidity else 0) + (if h == 0 then locked else 0))
            && t.token0 == s.token0 && t.token1 == s.token1
            && t.reserve0 == s.Balance0() && t.reserve1 == s.Balance1()
  {
    PairInvariant.MintShape(s, to);
    LiquidityIsOwed(s, s.Balance0() - s.reserve0, s.Balance1() - s.reserve1);
  }

  /** A first deposit's product is at least the square of 1001, and each side of a later one is worth
      a whole liquidity token. */
  predicate WorthMinting(supply: nat, r0: nat, r1: nat, a0: nat, a1: nat) {
    if supply == 0 then a0 * a1 >= 1001 * 1001 else a0 * supply >= r0 && a1 * supply >= r1
  }

  /** A first deposit is minted for if and only if its product is at least the square of 1001, a
      later one if and only if each side is worth a whole liquidity token. */
  lemma MintsExactly(s: PairState, to: Address)
    requires Inv(s) && s.Balance0() <= MAX_UINT112 && s.Balance1() <= MAX_UINT112
    ensures var a0, a1 := s.Balance0() - s.reserve0, s.Balance1() - s.reserve1;
            Mint(s, to).Ok? <==> WorthMinting(s.totalSupply, s.reserve0, s.reserve1, a0, a1)
  {
    var a0, a1 := s.Balance0() - s.reserve0, s.Balance1() - s.reserve1;
    MintOutcome(s, to);
    if s.totalSupply == 0 {
      FirstLiquidityFits(s, a0, a1);
      RootAtLeast(a0 * a1, 1001);
    } else {
      LaterLiquidityFits(s, a0, a1);
      QuotientPositive(a0 * s.totalSupply, s.reserve0);
      QuotientPositive(a1 * s.totalSupply, s.reserve1);
    }
  }

  lemma OwedCommutes(supply: nat, r0: nat, r1: nat, a0: nat, a1: nat, liquidity: nat)
    ensures Owed(supply, r0, r1, a0, a1, liquidity) <==> Owed(supply, r1, r0, a1, a0, liquidity)
  {
    assert a0 * a1 == a1 * a0;
  }

  lemma WorthCommutes(supply: nat, r0: nat, r1: nat, a0: nat, a1: nat)
    ensures WorthMinting(supply, r0, r1, a0, a1) <==> WorthMinting(supply, r1, r0, a1, a0)
  {
    assert a0 * a1 == a1 * a0;
  }

  /** What a mint depends on and what it yields, for deposits named in either order. */
  lemma MintEitherWay(s: PairState, to: Address, flip: bool, rA: nat, rB: nat, x: nat, y: nat)
    requires Inv(s) && s.Balance0() <= MAX_UINT112 && s.Balance1() <= MAX_UINT112
    requires (s.reserve0, s.reserve1) == if flip then (rB, rA) else (rA, rB)
    requires (s.Balance0() - s.reserve0, s.Balance1() - s.reserve1) == if flip then (y, x) else (x, y)
    ensures Mint(s, to).Ok? <==> WorthMinting(s.totalSupply, rA, rB, x, y)
    ensures Mint(s, to).Ok? ==> Owed(s.totalSupply, rA, rB, x, y, Mint(s, to).value.1)
  {
    MintsExactly(s, to);
    WorthCommutes(s.totalSupply, rA, rB, x, y);
    if Mint(s, to).Ok? {
      MintPays(s, to);
      OwedCommutes(s.totalSupply, rA, rB, x, y, Mint(s, to).value.1);
    }
  }

  lemma RootAtLeast(y: nat, z: nat)
    ensures FloorSqrt(y) >= z <==> y >= z * z
  {
    var root := FloorSqrt(y);
    if root >= z {
      SquareMonotone(z, root);
    } else {
      SquareMonotone(root + 1, z);
    }
  }

  lemma QuotientPositive(n: nat, d: nat)
    requires d > 0
    ensures n / d > 0 <==> n >= d
  {
    FloorDivision(n, d);
    if n / d == 0 {
      assert (n / d + 1) * d == d;
    } else {
      ProductMonotone(1, d, n / d, d);
    }
  }

  // ----- swapping --------------------------------------------------------------------------------

  /** The check on balances `b0` and `b1` after the payouts: something came in, and with three
      thousandths of the inputs set aside the product did not fall. */
  predicate FeePaid(r0: nat, r1: nat, b0: nat, b1: nat, in0: nat, in1: nat) {
    && (in0 > 0 || in1 > 0)
    && (b0 * 1000 - in0 * 3) * (b1 * 1000 - in1 * 3) >= r0 * r1 * 1000000
  }

  /** A swap goes through if and only if it asks for something, leaves a reserve on both sides, and
      what came in pays for it; then the recipient gets what was asked for, and nobody else gains
      or loses. */
  lemma SwapsExactly(s: PairState, out0: nat, out1: nat, to: Address)
    requires Inv(s) && s.Balance0() <= MAX_UINT112 && s.Balance1() <= MAX_UINT112
    ensures var r := Swap(s, out0, out1, to);
            && (r.Ok? <==>
                  && (out0 > 0 || out1 > 0) && out0 < s.reserve0 && out1 < s.reserve1
                  && var b0 := if to == s.self then s.Balance0() else s.Balance0() - out0;
                  && var b1 := if to == s.self then s.Balance1() else s.Balance1() - out1;
                  && FeePaid(s.reserve0, s.reserve1, b0, b1, b0 - (s.reserve0 - out0), b1 - (s.reserve1 - out1)))
            && (r.Ok? ==> PaidOut(s, r.value, out0, out1, to))
  {
    SwapAccepts(s, out0, out1, to);
    if Swap(s, out0, out1, to).Ok? {
      SwapPays(s, out0, out1, to);
    }
  }

  lemma SwapAccepts(s: PairState, out0: nat, out1: nat, to: Address)
    requires Inv(s) && s.Balance0() <= MAX_UINT112 && s.Balance1() <= MAX_UINT112
    ensures Swap(s, out0, out1, to).Ok? <==>
              && (out0 > 0 || out1 > 0) && out0 < s.reserve0 && out1 < s.reserve1
              && var b0 := if to == s.self then s.Balance0() else s.Balance0() - out0;
              && var b1 := if to == s.self then s.Balance1() else s.Balance1() - out1;
              && FeePaid(s.reserve0, s.reserve1, b0, b1, b0 - (s.reserve0 - out0), b1 - (s.reserve1 - out1))
  {
    if (out0 > 0 || out1 > 0) && out0 < s.reserve0 && out1 < s.reserve1 {
      var b0 := if to == s.self then s.Balance0() else s.Balance0() - out0;
      var b1 := if to == s.self then s.Balance1() else s.Balance1() - out1;
      SwapIsCheck(s, out0, out1, to, b0, b1);
      CheckIsFee(s.reserve0, s.reserve1, b0, b1, b0 - (s.reserve0 - out0), b1 - (s.reserve1 - out1));
    }
  }

  /** Once its outputs are in order a swap is the fee check and the width of the new reserves. */
  lemma SwapIsCheck(s: PairState, out0: nat, out1: nat, to: Address, b0: nat, b1: nat)
    requires s.reserve0 <= s.Balance0() && s.reserve1 <= s.Balance1()
    requires (out0 > 0 || out1 > 0) && out0 < s.reserve0 && out1 < s.reserve1
    requires b0 == if to == s.self then s.Balance0() else s.Balance0() - out0
    requires b1 == if to == s.self then s.Balance1() else s.Balance1() - out1
    ensures var in0, in1 := b0 - (s.reserve0 - out0), b1 - (s.reserve1 - out1);
            Swap(s, out0, out1, to).Ok? <==>
              && (in0 > 0 || in1 > 0) && CheckK(b0, b1, in0, in1, s.reserve0 * s.reserve1).Ok?
              && b0 <= MAX_UINT112 && b1 <= MAX_UINT112
  {
  }

  lemma CheckIsFee(r0: nat, r1: nat, b0: nat, b1: nat, in0: nat, in1: nat)
    requires r0 <= MAX_UINT112 && r1 <= MAX_UINT112
    requires in0 <= b0 <= MAX_UINT112 && in1 <= b1 <= MAX_UINT112
    ensures (in0 > 0 || in1 > 0) && CheckK(b0, b1, in0, in1, r0 * r1).Ok? <==> FeePaid(r0, r1, b0, b1, in0, in1)
  {
    ProductsFit(r0, r1);
    CheckKOutcome(b0, b1, in0, in1, r0 * r1);
  }

  lemma SwapPays(s: PairState, out0: nat, out1: nat, to: Address)
    requires Swap(s, out0, out1, to).Ok?
    ensures PaidOut(s, Swap(s, out0, out1, to).value, out0, out1, to)
  {
    SwapLedgers(s, out0, out1, to);
  }

  lemma SwapLedgers(s: PairState, out0: nat, out1: nat, to: Address)
    requires Swap(s, out0, out1, to).Ok?
    ensures out0 <= s.Balance0() && out1 <= s.Balance1()
    ensures var t := Swap(s, out0, out1, to).value;
            && t.token0 == (if out0 > 0 then Moved(s.token0, s.self, to, out0) else s.token0)
            && t.token1 == (if out1 > 0 then Moved(s.token1, s.self, to, out1) else s.token1)
            && t == s.(token0 := t.token0, token1 := t.token1, reserve0 := t.Balance0(), reserve1 := t.Balance1())
  {
  }

  /** Both payouts left the pair for `to`, and the reserves are what the pair then held. */
  ghost predicate PaidOut(s: PairState, t: PairState, out0: nat, out1: nat, to: Address) {
    && t == s.(token0 := t.token0, token1 := t.token1, reserve0 := t.Balance0(), reserve1 := t.Balance1())
    && (forall h :: Bal(t.token0, h) + (if h == s.self then out0 else 0) ==
                    Bal(s.token0, h) + (if h == to then out0 else 0))
    && (forall h :: Bal(t.token1, h) + (if h == s.self then out1 else 0) ==
                    Bal(s.token1, h) + (if h == to then out1 else 0))
  }

  // ----- the liquidity token -----------------------------------------------------------------------

  /** A transfer needs nothing but the balance. */
  lemma TransfersExactly(s: PairState, from: Address, to: Address, value: nat)
    requires Inv(s)
    ensures var r := TransferLp(s, from, to, value);
            && (r.Ok? <==> value <= Bal(s.lp, from))
            && (r.Ok? ==> r.value == s.(lp := r.value.lp) && LpMoved(s, r.value, from, to, value))
  {
    SupplyFits(s);
    if value <= Bal(s.lp, from) {
      TotalMoved(s.lp, from, to, value);
      TotalWrite(Moved(s.lp, from, to, value), to, 0);
    }
  }

  ghost predicate LpMoved(s: PairState, t: PairState, from: Address, to: Address, value: nat) {
    forall h :: Bal(t.lp, h) + (if h == from then value else 0) == Bal(s.lp, h) + (if h == to then value else 0)
  }

  /** Spending an allowance needs the allowance as well, which falls by the value moved unless it is
      2^256 - 1, and then stays; nobody else's allowance changes. */
  lemma SpendsExactly(s: PairState, sender: Address, from: Address, to: Address, value: nat)
    requires Inv(s)
    ensures var r, allowed := TransferFromLp(s, sender, from, to, value), s.Allowance(from, sender);
            && (r.Ok? <==> value <= Bal(s.lp, from) && (allowed == MAX_UINT256 || value <= allowed))
            && (r.Ok? ==>
                  && r.value == s.(lp := r.value.lp, allowance := r.value.allowance)
                  && LpMoved(s, r.value, from, to, value)
                  && r.value.Allowance(from, sender) == (if allowed == MAX_UINT256 then allowed else allowed - value)
                  && forall owner: Address, spender: Address :: (owner, spender) != (from, sender) ==>
                       r.value.Allowance(owner, spender) == s.Allowance(owner, spender))
  {
    var allowed := s.Allowance(from, sender);
    var spent := if allowed == MAX_UINT256 || value > allowed then s
                 else s.(allowance := s.allowance[(from, sender) := allowed - value]);
    TransfersExactly(s, from, to, value);
    AllowanceIgnored(s, spent.allowance, from, to, value);
  }

  /** An approval sets one allowance, whatever it was, and does nothing else. */
  lemma ApprovesExactly(s: PairState, owner: Address, spender: Address, value: nat)
    ensures var r := ApproveLp(s, owner, spender, value);
            && r.Ok? && r.value == s.(allowance := r.value.allowance) && r.value.Allowance(owner, spender) == value
            && forall o: Address, p: Address :: (o, p) != (owner, spender) ==>
                 r.value.Allowance(o, p) == s.Allowance(o, p)
  {
  }

  lemma AllowanceIgnored(
    s: PairState, allowance: map<(Address, Address), nat>, from: Address, to: Address, value: nat)
    ensures var r, q := TransferLp(s, from, to, value), TransferLp(s.(allowance := allowance), from, to, value);
            (r.Ok? <==> q.Ok?) && (r.Ok? ==> q.value == r.value.(allowance := allowance))
  {
  }
}
