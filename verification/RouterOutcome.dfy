/** When exactly the factory's and the router's calls go through, on bare reserves and balances. */
module RouterOutcome {
  import opened LiquidityProof
  import opened PairOutcome
  import opened PairSpec
  import opened PoolMath
  import opened Quotes
  import opened RouterProof
  import opened RouterSpec
  import opened TokenLedger
  import PairArithmetic
  import PairInvariant

  // ----- creating a pair -------------------------------------------------------------------------

  /** A pair can be created for two different tokens, neither of them address zero, that have none
      yet; it starts empty, with the smaller address as its first token. */
  lemma CreatesExactly(c: Chain, a: Token, b: Token, deployed: Address)
    requires Registry(c)
    ensures var r := CreatePair(c, a, b, deployed);
            && (r.Ok? <==> a != b && a != 0 && b != 0 && (a, b) !in c.getPair)
            && (r.Ok? ==>
                  r.value == c.(pools := c.pools[deployed := Pool(if a < b then a else b, if a < b then b else a, 0, 0,
                                                                  map[], map[], 0)],
                                getPair := c.getPair[(a, b) := deployed][(b, a) := deployed]))
  {
    var r := CreatePair(c, a, b, deployed);
    if (a, b) in c.getPair {
      assert (b, a) in c.getPair;
    }
    if (b, a) in c.getPair {
      assert (a, b) in c.getPair;
    }
    if r.Ok? {
      assert c.getPair[(a, b) := deployed][(b, a) := deployed] == c.getPair[(b, a) := deployed][(a, b) := deployed];
    }
  }

  // ----- quoting a path --------------------------------------------------------------------------

  /** `y` is what the pair of `a` and `b` hands out for `x`: the reserve bought, times the input less
      three thousandths, over the reserve sold plus that input, rounded down; no product leaves 256
      bits. */
  predicate HopQuoted(c: Chain, a: Token, b: Token, x: nat, y: nat) {
    && (a, b) in c.getPair && c.getPair[(a, b)] != 0 && c.getPair[(a, b)] in c.pools
    && var pool := c.pools[c.getPair[(a, b)]];
    && var sold := if a <= b then pool.reserve0 else pool.reserve1;
    && var bought := if a <= b then pool.reserve1 else pool.reserve0;
    && x > 0 && sold > 0 && bought > 0
    && x * 997 * bought <= MAX_UINT256 && sold * 1000 + x * 997 <= MAX_UINT256
    && y * (sold * 1000 + x * 997) <= x * 997 * bought < (y + 1) * (sold * 1000 + x * 997)
  }

  lemma FloorIs(n: nat, d: nat, y: nat)
    requires d > 0
    ensures n / d == y <==> y * d <= n < (y + 1) * d
  {
    FloorDivision(n, d);
    if y * d <= n < (y + 1) * d {
      if n / d < y {
        ProductMonotone(n / d + 1, d, y, d);
      } else if y < n / d {
        ProductMonotone(y + 1, d, n / d, d);
      }
    }
  }

  lemma AmountOutIs(x: nat, sold: nat, bought: nat, y: nat)
    ensures GetAmountOut(x, sold, bought) == Ok(y) <==>
              && x > 0 && sold > 0 && bought > 0
              && x * 997 * bought <= MAX_UINT256 && sold * 1000 + x * 997 <= MAX_UINT256
              && y * (sold * 1000 + x * 997) <= x * 997 * bought < (y + 1) * (sold * 1000 + x * 997)
  {
    if x > 0 && sold > 0 && bought > 0 {
      FloorIs(x * 997 * bought, sold * 1000 + x * 997, y);
      ProductMonotone(x * 997, 1, x * 997, bought);
    }
  }

  lemma HopIsQuoted(c: Chain, a: Token, b: Token, x: nat, y: nat)
    ensures NextAmount(c, x, a, b) == Ok(y) <==> HopQuoted(c, a, b, x, y)
  {
    var reserves := GetReserves(c, a, b);
    if reserves.Ok? {
      AmountOutIs(x, reserves.value.0, reserves.value.1, y);
    }
  }

  predicate PathQuoted(c: Chain, amounts: seq<nat>, path: seq<Token>)
    requires |amounts| == |path|
  {
    forall i :: 0 <= i < |path| - 1 ==> HopQuoted(c, path[i], path[i + 1], amounts[i], amounts[i + 1])
  }

  lemma {:induction false} AmountsAreQuoted(c: Chain, x: nat, path: seq<Token>, amounts: seq<nat>)
    requires path != []
    ensures AmountsFrom(c, x, path) == Ok(amounts) <==>
              |amounts| == |path| && amounts[0] == x && PathQuoted(c, amounts, path)
    decreases |path|
  {
    if |path| > 1 {
      if AmountsFrom(c, x, path) == Ok(amounts) {
        var y := NextAmount(c, x, path[0], path[1]).value;
        HopIsQuoted(c, path[0], path[1], x, y);
        assert amounts[1..] == AmountsFrom(c, y, path[1..]).value;
        AmountsAreQuoted(c, y, path[1..], amounts[1..]);
        QuotedCons(c, amounts, path);
      }
      if |amounts| == |path| && amounts[0] == x && PathQuoted(c, amounts, path) {
        QuotedCons(c, amounts, path);
        HopIsQuoted(c, path[0], path[1], x, amounts[1]);
        AmountsAreQuoted(c, amounts[1], path[1..], amounts[1..]);
        assert amounts == [x] + amounts[1..];
      }
    } else if |amounts| == 1 {
      assert amounts == [amounts[0]];
    }
  }

  lemma QuotedCons(c: Chain, amounts: seq<nat>, path: seq<Token>)
    requires |amounts| == |path| > 1
    ensures PathQuoted(c, amounts, path) <==>
              HopQuoted(c, path[0], path[1], amounts[0], amounts[1]) && PathQuoted(c, amounts[1..], path[1..])
  {
    var a, p := amounts[1..], path[1..];
    assert forall i :: 0 <= i < |p| ==> a[i] == amounts[i + 1] && p[i] == path[i + 1];
    if HopQuoted(c, path[0], path[1], amounts[0], amounts[1]) && PathQuoted(c, a, p) {
      forall i | 0 <= i < |path| - 1
        ensures HopQuoted(c, path[i], path[i + 1], amounts[i], amounts[i + 1])
      {
        if i > 0 {
          assert HopQuoted(c, p[i - 1], p[i], a[i - 1], a[i]);
        }
      }
    }
    if PathQuoted(c, amounts, path) {
      forall i | 0 <= i < |p| - 1
        ensures HopQuoted(c, p[i], p[i + 1], a[i], a[i + 1])
      {
        assert HopQuoted(c, path[i + 1], path[i + 2], amounts[i + 1], amounts[i + 2]);
      }
    }
  }

  /** The amounts quoted for a path: the input, then at every pair what it hands out for the amount
      before; and a path is refused only if it is too short or a pair on it cannot answer. */
  lemma QuotesExactly(c: Chain, amountIn: nat, path: seq<Token>, amounts: seq<nat>)
    ensures GetAmountsOut(c, amountIn, path) == Ok(amounts) <==>
              |path| >= 2 && |amounts| == |path| && amounts[0] == amountIn && PathQuoted(c, amounts, path)
  {
    if |path| >= 2 {
      AmountsAreQuoted(c, amountIn, path, amounts);
    }
  }

  // ----- amounts to deposit ------------------------------------------------------------------------

  lemma PriceIs(x: nat, rx: nat, ry: nat, y: nat)
    ensures Quote(x, rx, ry) == Ok(y) <==> x > 0 && rx > 0 && ry > 0 && x * ry <= MAX_UINT256 && AtPrice(x, y, rx, ry)
  {
    if rx > 0 {
      FloorIs(x * ry, rx, y);
    }
  }

  /** Into an empty pool goes what is desired. Otherwise all of the first token goes in if the second
      suffices for it, else all of the second; and the side that is reduced must meet its minimum. */
  lemma OptimalExactly(rA: nat, rB: nat, dA: nat, dB: nat, minA: nat, minB: nat, x: nat, y: nat)
    requires rA <= MAX_UINT112 && rB <= MAX_UINT112 && dA <= MAX_UINT112 && dB <= MAX_UINT112
    requires rA == 0 <==> rB == 0
    ensures OptimalAmounts(rA, rB, dA, dB, minA, minB) == Ok((x, y)) <==>
              if rA == 0 then x == dA && y == dB
              else
                || (x == dA && dA > 0 && AtPrice(dA, y, rA, rB) && minB <= y <= dB)
                || (y == dB && dA > 0 && dB > 0 && dA * rB >= (dB + 1) * rA && AtPrice(dB, x, rB, rA) && minA <= x)
  {
    if rA > 0 {
      PairArithmetic.ProductsFit(dA, rB);
      PairArithmetic.ProductsFit(dB, rA);
      PriceIs(dA, rA, rB, y);
      PriceIs(dB, rB, rA, x);
      if dA > 0 {
        var optimalB := Quote(dA, rA, rB).value;
        PriceIs(dA, rA, rB, optimalB);
        AboveDesired(optimalB, dA * rB, rA, dB);
        if optimalB > dB && dB > 0 {
          OtherSideFits(dA, dB, rA, rB);
        }
      }
    }
  }

  lemma AboveDesired(optimal: nat, n: nat, r: nat, desired: nat)
    requires r > 0 && optimal * r <= n < (optimal + 1) * r
    ensures optimal > desired <==> n >= (desired + 1) * r
  {
    if optimal > desired {
      ProductMonotone(desired + 1, r, optimal, r);
    } else {
      ProductMonotone(optimal + 1, r, desired + 1, r);
    }
  }

  // ----- the pair to deposit into --------------------------------------------------------------------

  /** The pair that is registered for the two tokens, or else a new one, which is empty; without
      either nothing is deposited. */
  lemma TargetExactly(c: Chain, a: Token, b: Token, deployed: Address)
    requires Registry(c) && deployed != 0 && deployed !in c.pools
    ensures (a, b) in c.getPair ==>
              Target(c, a, b, deployed, c, c.getPair[(a, b)]) && Trades(c, c.getPair[(a, b)], a, b)
    ensures (a, b) !in c.getPair && a != b && a != 0 && b != 0 ==>
              && CreatePair(c, a, b, deployed).Ok?
              && var ready := CreatePair(c, a, b, deployed).value;
              && Target(c, a, b, deployed, ready, deployed) && Trades(ready, deployed, a, b)
              && Empty(PairAt(ready, deployed)) && Inv(PairAt(ready, deployed))
              && ready.ledgers == c.ledgers
    ensures (a, b) !in c.getPair && (a == b || a == 0 || b == 0) ==> WithPair(c, a, b, deployed).Revert?
  {
    CreatesExactly(c, a, b, deployed);
    if CreatePair(c, a, b, deployed).Ok? {
      CreatePairKeepsRegistry(c, a, b, deployed);
      PairInvariant.EmptyHolds(PairAt(CreatePair(c, a, b, deployed).value, deployed));
    }
  }

  // ----- adding liquidity --------------------------------------------------------------------------

  lemma MintAtIsMint(c: Chain, p: Address, to: Address)
    requires p in c.pools
    ensures MintAt(c, p, to).Ok? <==> Mint(PairAt(c, p), to).Ok?
    ensures MintAt(c, p, to).Ok? ==> MintAt(c, p, to).value.1 == Mint(PairAt(c, p), to).value.1
  {
  }

  /** Once both payments are in, the mint depends on `inA` and `inB`, what the pool then holds beyond
      its reserves `rA` and `rB`. */
  lemma MintAfterPayment(
    c: Chain, p: Address, a: Token, b: Token, payer: Address, to: Address, x: nat, y: nat, paid: Chain, rA: nat,
    rB: nat, inA: nat, inB: nat)
    requires Trades(c, p, a, b) && Inv(PairAt(c, p)) && payer != p && PaidIn(c, p, a, b, payer, x, y) == Ok(paid)
    requires BalanceOf(c, a, p) + x <= MAX_UINT112 && BalanceOf(c, b, p) + y <= MAX_UINT112
    requires rA == ReserveOf(c, p, a) <= BalanceOf(c, a, p) && inA == x + Surplus(c, p, a)
    requires rB == ReserveOf(c, p, b) <= BalanceOf(c, b, p) && inB == y + Surplus(c, p, b)
    ensures MintAt(paid, p, to).Ok? <==> WorthMinting(c.pools[p].totalSupply, rA, rB, inA, inB)
    ensures MintAt(paid, p, to).Ok? ==>
              Owed(c.pools[p].totalSupply, rA, rB, inA, inB, MintAt(paid, p, to).value.1)
  {
    PaidSides(c, p, a, b, payer, x, y, paid, rA, rB, inA, inB);
    MintAtIsMint(paid, p, to);
    MintEitherWay(PairAt(paid, p), to, a != c.pools[p].token0, rA, rB, inA, inB);
  }

  lemma PaidSides(
    c: Chain, p: Address, a: Token, b: Token, payer: Address, x: nat, y: nat, paid: Chain, rA: nat, rB: nat, inA: nat,
    inB: nat)
    requires Trades(c, p, a, b) && Inv(PairAt(c, p)) && payer != p && PaidIn(c, p, a, b, payer, x, y) == Ok(paid)
    requires BalanceOf(c, a, p) + x <= MAX_UINT112 && BalanceOf(c, b, p) + y <= MAX_UINT112
    requires rA == ReserveOf(c, p, a) <= BalanceOf(c, a, p) && inA == x + Surplus(c, p, a)
    requires rB == ReserveOf(c, p, b) <= BalanceOf(c, b, p) && inB == y + Surplus(c, p, b)
    ensures p in paid.pools && Inv(PairAt(paid, p)) && PairAt(paid, p).totalSupply == c.pools[p].totalSupply
    ensures var s, flip := PairAt(paid, p), a != c.pools[p].token0;
            && s.Balance0() <= MAX_UINT112 && s.Balance1() <= MAX_UINT112
            && (s.reserve0, s.reserve1) == (if flip then (rB, rA) else (rA, rB))
            && (s.Balance0() - s.reserve0, s.Balance1() - s.reserve1) == if flip then (inB, inA) else (inA, inB)
  {
    PaidKeepsInv(c, p, a, b, payer, x, y);
    PaidFits(c, p, a, b, payer, x, y);
  }

  lemma PaidFits(c: Chain, p: Address, a: Token, b: Token, payer: Address, x: nat, y: nat)
    requires Trades(c, p, a, b) && payer != p && PaidIn(c, p, a, b, payer, x, y).Ok?
    requires BalanceOf(c, a, p) + x <= MAX_UINT112 && BalanceOf(c, b, p) + y <= MAX_UINT112
    ensures var s := PairAt(PaidIn(c, p, a, b, payer, x, y).value, p);
            && s.Balance0() <= MAX_UINT112 && s.Balance1() <= MAX_UINT112
            && s.totalSupply == c.pools[p].totalSupply
            && (s.reserve0, s.reserve1) == InOrder(c, p, a, ReserveOf(c, p, a), ReserveOf(c, p, b))
  {
    PaidPair(c, p, a, b, payer, x, y);
  }

  /** A deposit into the pool at `p`, whose amounts are to be `x` and `y` and whose balances stay
      within 112 bits, goes through if and only if the payer holds both and they are worth minting
      for, together with what the pool held beyond its reserves; the liquidity is what they are worth. */
  lemma AddsExactly(
    c: Chain, a: Token, b: Token, desiredA: nat, desiredB: nat, minA: nat, minB: nat, payer: Address, to: Address,
    deployed: Address, ready: Chain, p: Address, rA: nat, rB: nat, x: nat, y: nat, inA: nat, inB: nat)
    requires Target(c, a, b, deployed, ready, p) && Trades(ready, p, a, b) && Inv(PairAt(ready, p)) && payer != p
    requires rA == ReserveOf(ready, p, a) <= BalanceOf(ready, a, p) && inA == x + Surplus(ready, p, a)
    requires rB == ReserveOf(ready, p, b) <= BalanceOf(ready, b, p) && inB == y + Surplus(ready, p, b)
    requires OptimalAmounts(rA, rB, desiredA, desiredB, minA, minB) == Ok((x, y))
    requires BalanceOf(ready, a, p) + x <= MAX_UINT112 && BalanceOf(ready, b, p) + y <= MAX_UINT112
    ensures var r := AddLiquidity(c, a, b, desiredA, desiredB, minA, minB, payer, to, deployed);
            && (r.Ok? <==>
                  && x <= BalanceOf(ready, a, payer) && y <= BalanceOf(ready, b, payer)
                  && WorthMinting(ready.pools[p].totalSupply, rA, rB, inA, inB))
            && (r.Ok? ==>
                  && r.value.amountA == x && r.value.amountB == y
                  && Owed(ready.pools[p].totalSupply, rA, rB, inA, inB, r.value.liquidity))
  {
    AddIsPayAndMint(c, a, b, desiredA, desiredB, minA, minB, payer, to, deployed, ready, p);
    PayableExactly(ready, p, a, b, payer, x, y);
    if PaidIn(ready, p, a, b, payer, x, y).Ok? {
      MintAfterPayment(ready, p, a, b, payer, to, x, y, PaidIn(ready, p, a, b, payer, x, y).value, rA, rB, inA, inB);
    }
  }

  lemma PayableExactly(c: Chain, p: Address, a: Token, b: Token, payer: Address, x: nat, y: nat)
    requires a != b
    ensures PaidIn(c, p, a, b, payer, x, y).Ok? <==> x <= BalanceOf(c, a, payer) && y <= BalanceOf(c, b, payer)
  {
  }

  /** The call is the choice of amounts, the two payments and the mint. */
  lemma AddIsPayAndMint(
    c: Chain, a: Token, b: Token, desiredA: nat, desiredB: nat, minA: nat, minB: nat, payer: Address, to: Address,
    deployed: Address, ready: Chain, p: Address)
    requires Target(c, a, b, deployed, ready, p) && Trades(ready, p, a, b)
    ensures var rA, rB := ReserveOf(ready, p, a), ReserveOf(ready, p, b);
            var amounts := OptimalAmounts(rA, rB, desiredA, desiredB, minA, minB);
            var r := AddLiquidity(c, a, b, desiredA, desiredB, minA, minB, payer, to, deployed);
            if amounts.Revert? then r.Revert?
            else
              var paid := PaidIn(ready, p, a, b, payer, amounts.value.0, amounts.value.1);
              if paid.Revert? then r.Revert?
              else
                var m := MintAt(paid.value, p, to);
                && (r.Ok? <==> m.Ok?)
                && (r.Ok? ==> r.value == Deposit(m.value.0, amounts.value.0, amounts.value.1, m.value.1))
  {
  }

  // ----- removing liquidity ------------------------------------------------------------------------

  /** The share of a balance that `held` of `supply` liquidity tokens redeem, rounded down. */
  function Share(held: nat, balance: nat, supply: nat): nat
    requires supply > 0
  {
    (held * balance) / supply
  }

  /** A removal burns what it moves together with what the pair held of its own liquidity token. It
      goes through if and only if the payer has the tokens, the router the allowance, both shares
      are positive and at least their minima; it pays exactly those shares. */
  lemma RemovesExactly(
    c: Chain, p: Address, a: Token, b: Token, liquidity: nat, minA: nat, minB: nat, router: Address, payer: Address,
    to: Address, held: nat, balanceA: nat, balanceB: nat)
    requires Trades(c, p, a, b) && Inv(PairAt(c, p)) && payer != p && held == Bal(c.pools[p].lp, p) + liquidity
    requires balanceA == BalanceOf(c, a, p) <= MAX_UINT112 && balanceB == BalanceOf(c, b, p) <= MAX_UINT112
    ensures var r, supply := RemoveLiquidity(c, a, b, liquidity, minA, minB, router, payer, to), c.pools[p].totalSupply;
            var allowed := PairAt(c, p).Allowance(payer, router);
            && (r.Ok? <==>
                  && liquidity <= Bal(c.pools[p].lp, payer) && (allowed == MAX_UINT256 || liquidity <= allowed)
                  && supply > 0
                  && Share(held, balanceA, supply) > 0 && Share(held, balanceA, supply) >= minA
                  && Share(held, balanceB, supply) > 0 && Share(held, balanceB, supply) >= minB)
            && (r.Ok? ==>
                  && r.value.1 == Share(held, balanceA, supply) && r.value.2 == Share(held, balanceB, supply)
                  && Removed(c, r.value.0, p, a, b, liquidity, payer, to, r.value.1, r.value.2))
  {
    var s := PairAt(c, p);
    SpendsExactly(s, router, payer, p, liquidity);
    var moved := TransferFromLp(s, router, payer, p, liquidity);
    if moved.Ok? {
      BurnsMoved(c, p, a, b, liquidity, router, payer, to, moved.value, held, balanceA, balanceB);
      if Burn(moved.value, to).Ok? {
        RemoveIsBurn(c, p, a, b, liquidity, minA, minB, router, payer, to);
      }
    }
  }

  /** The payouts left the pool for `to`, the liquidity is gone, and other pools are untouched. */
  ghost predicate Removed(
    c: Chain, d: Chain, p: Address, a: Token, b: Token, liquidity: nat, payer: Address, to: Address, x: nat, y: nat)
    requires p in c.pools
  {
    && p in d.pools
    && (to != p ==>
          && BalanceOf(d, a, to) == BalanceOf(c, a, to) + x && BalanceOf(d, b, to) == BalanceOf(c, b, to) + y
          && BalanceOf(d, a, p) == BalanceOf(c, a, p) - x && BalanceOf(d, b, p) == BalanceOf(c, b, p) - y)
    && Synced(d, p)
    && Bal(d.pools[p].lp, payer) == Bal(c.pools[p].lp, payer) - liquidity && Bal(d.pools[p].lp, p) == 0
    && d.pools[p].totalSupply == c.pools[p].totalSupply - Bal(c.pools[p].lp, p) - liquidity
    && forall q :: q in c.pools && q != p ==> q in d.pools && d.pools[q] == c.pools[q]
  }

  /** The burn after the transfer, in the caller's order of the tokens. */
  lemma BurnsMoved(
    c: Chain, p: Address, a: Token, b: Token, liquidity: nat, router: Address, payer: Address, to: Address,
    moved: PairState, held: nat, balanceA: nat, balanceB: nat)
    requires Trades(c, p, a, b) && Inv(PairAt(c, p)) && payer != p && held == Bal(c.pools[p].lp, p) + liquidity
    requires balanceA == BalanceOf(c, a, p) <= MAX_UINT112 && balanceB == BalanceOf(c, b, p) <= MAX_UINT112
    requires TransferFromLp(PairAt(c, p), router, payer, p, liquidity) == Ok(moved)
    ensures var r, supply := Burn(moved, to), c.pools[p].totalSupply;
            && (r.Ok? <==> supply > 0 && Share(held, balanceA, supply) > 0 && Share(held, balanceB, supply) > 0)
            && (r.Ok? ==>
                  var (x, y) := if a < b then (r.value.1, r.value.2) else (r.value.2, r.value.1);
                  && x == Share(held, balanceA, supply) && y == Share(held, balanceB, supply)
                  && Removed(c, PutPair(c, p, r.value.0), p, a, b, liquidity, payer, to, x, y))
  {
    var s := PairAt(c, p);
    SpendsExactly(s, router, payer, p, liquidity);
    PairInvariant.LpSpendKeepsInv(s, router, payer, p, liquidity);
    assert Bal(moved.lp, p) == held && moved == s.(lp := moved.lp, allowance := moved.allowance);
    PairArithmetic.BurnOutcome(moved, to);
    if Burn(moved, to).Ok? {
      PairInvariant.BurnShape(moved, to);
      BurnIsRemoved(c, p, a, b, liquidity, payer, to, moved, held);
    }
  }

  lemma BurnIsRemoved(
    c: Chain, p: Address, a: Token, b: Token, liquidity: nat, payer: Address, to: Address, moved: PairState, held: nat)
    requires Trades(c, p, a, b) && payer != p && held == Bal(c.pools[p].lp, p) + liquidity
    requires moved == PairAt(c, p).(lp := moved.lp, allowance := moved.allowance) && Bal(moved.lp, p) == held
    requires liquidity <= Bal(c.pools[p].lp, payer) && Bal(moved.lp, payer) == Bal(c.pools[p].lp, payer) - liquidity
    requires Burn(moved, to).Ok?
    ensures var burned := Burn(moved, to).value;
            var (x, y) := if a < b then (burned.1, burned.2) else (burned.2, burned.1);
            Removed(c, PutPair(c, p, burned.0), p, a, b, liquidity, payer, to, x, y)
  {
    PairInvariant.BurnShape(moved, to);
  }

  /** The call is the transfer, the burn and the two minima. */
  lemma RemoveIsBurn(
    c: Chain, p: Address, a: Token, b: Token, liquidity: nat, minA: nat, minB: nat, router: Address, payer: Address,
    to: Address)
    requires Trades(c, p, a, b) && TransferFromLp(PairAt(c, p), router, payer, p, liquidity).Ok?
    requires Burn(TransferFromLp(PairAt(c, p), router, payer, p, liquidity).value, to).Ok?
    ensures var burned := Burn(TransferFromLp(PairAt(c, p), router, payer, p, liquidity).value, to).value;
            var (x, y) := if a < b then (burned.1, burned.2) else (burned.2, burned.1);
            RemoveLiquidity(c, a, b, liquidity, minA, minB, router, payer, to) ==
            if x >= minA && y >= minB then Ok((PutPair(c, p, burned.0), x, y)) else Revert(InsufficientAmounts)
  {
  }
}
