/** Adding and removing liquidity through the router. */
module LiquidityProof {
  import opened PairSpec
  import opened PoolMath
  import opened Quotes
  import opened RouterProof
  import opened RouterSpec
  import opened TokenLedger
  import PairInvariant

  // ----- the amounts -------------------------------------------------------------------------

  /** `y` for `x` is at the pool's price, rounded down. */
  predicate AtPrice(x: nat, y: nat, reserveX: nat, reserveY: nat) {
    y * reserveX <= x * reserveY < (y + 1) * reserveX
  }

  lemma QuoteAtPrice(x: nat, reserveX: nat, reserveY: nat)
    requires Quote(x, reserveX, reserveY).Ok?
    ensures AtPrice(x, Quote(x, reserveX, reserveY).value, reserveX, reserveY)
  {
    FloorDivision(x * reserveY, reserveX);
  }

  /** If `b` is too little for `a` at the pool's price, then `a` is enough for `b`. */
  lemma OtherSideFits(a: nat, b: nat, reserveA: nat, reserveB: nat)
    requires Quote(a, reserveA, reserveB).Ok? && Quote(b, reserveB, reserveA).Ok?
    requires Quote(a, reserveA, reserveB).value > b
    ensures Quote(b, reserveB, reserveA).value <= a
  {
    QuoteAtPrice(a, reserveA, reserveB);
    QuoteAtPrice(b, reserveB, reserveA);
    ProductMonotone(b, reserveA, Quote(a, reserveA, reserveB).value, reserveA);
    CancelFactor(Quote(b, reserveB, reserveA).value, a, reserveB);
  }

  /** Into a pool with reserves go at most the desired amounts, one of them in full, the other at
      the pool's price rounded down; so the first half of the second guard never fails, and the
      only way to be refused for an amount is a minimum. */
  lemma OptimalIsProportional(reserveA: nat, reserveB: nat, desiredA: nat, desiredB: nat, minA: nat, minB: nat)
    requires reserveA > 0 && reserveB > 0
    ensures var r := OptimalAmounts(reserveA, reserveB, desiredA, desiredB, minA, minB);
            && (r.Ok? ==>
                  && r.value.0 <= desiredA && r.value.1 <= desiredB
                  && ((r.value.0 == desiredA && AtPrice(r.value.0, r.value.1, reserveA, reserveB))
                      || (r.value.1 == desiredB && AtPrice(r.value.1, r.value.0, reserveB, reserveA))))
            && (r == Revert(InsufficientAAmount) ==> Quote(desiredB, reserveB, reserveA).value < minA)
            && (r == Revert(InsufficientBAmount) ==> Quote(desiredA, reserveA, reserveB).value < minB)
  {
    var optimalB := Quote(desiredA, reserveA, reserveB);
    var optimalA := Quote(desiredB, reserveB, reserveA);
    if optimalB.Ok? {
      QuoteAtPrice(desiredA, reserveA, reserveB);
      if optimalA.Ok? {
        QuoteAtPrice(desiredB, reserveB, reserveA);
        if optimalB.value > desiredB {
          OtherSideFits(desiredA, desiredB, reserveA, reserveB);
        }
      }
    }
  }

  /** The minima are kept exactly when they do not exceed the desired amounts: the side that is
      deposited in full is not compared with its minimum. */
  lemma MinimaKeptExactly(reserveA: nat, reserveB: nat, desiredA: nat, desiredB: nat, minA: nat, minB: nat)
    requires OptimalAmounts(reserveA, reserveB, desiredA, desiredB, minA, minB).Ok?
    requires (reserveA == 0) == (reserveB == 0)
    ensures var (x, y) := OptimalAmounts(reserveA, reserveB, desiredA, desiredB, minA, minB).value;
            x >= minA && y >= minB <==> minA <= desiredA && minB <= desiredB
  {
    if reserveA > 0 && reserveB > 0 {
      OptimalIsProportional(reserveA, reserveB, desiredA, desiredB, minA, minB);
    }
  }

  // ----- the deposit -------------------------------------------------------------------------

  /** The deposits seen from the pair's own token order. */
  function InOrder(c: Chain, p: Address, a: Token, x: nat, y: nat): (nat, nat)
    requires p in c.pools
  {
    if a == c.pools[p].token0 then (x, y) else (y, x)
  }

  function PaidIn(c: Chain, p: Address, a: Token, b: Token, payer: Address, x: nat, y: nat): Outcome<Chain> {
    var paidA :- TransferToken(c, a, payer, p, x);
    TransferToken(paidA, b, payer, p, y)
  }

  lemma PaidPair(c: Chain, p: Address, a: Token, b: Token, payer: Address, x: nat, y: nat)
    requires Trades(c, p, a, b) && payer != p && PaidIn(c, p, a, b, payer, x, y).Ok?
    ensures var d := PaidIn(c, p, a, b, payer, x, y).value;
            var (x0, x1) := InOrder(c, p, a, x, y);
            && d.pools == c.pools && d.getPair == c.getPair
            && PairAt(d, p).Balance0() == PairAt(c, p).Balance0() + x0
            && PairAt(d, p).Balance1() == PairAt(c, p).Balance1() + x1
            && BalanceOf(d, a, payer) == BalanceOf(c, a, payer) - x
            && BalanceOf(d, b, payer) == BalanceOf(c, b, payer) - y
  {
  }

  lemma PutThenAt(c: Chain, p: Address, s: PairState)
    requires p in c.pools && c.pools[p].token0 != c.pools[p].token1 && s.self == p
    ensures PairAt(PutPair(c, p, s), p) == s
  {
  }

  /** Which chain, pair and payment a successful deposit went through. */
  lemma AddUnfolds(
    c: Chain, a: Token, b: Token, desiredA: nat, desiredB: nat, minA: nat, minB: nat, payer: Address, to: Address,
    deployed: Address)
    requires AddLiquidity(c, a, b, desiredA, desiredB, minA, minB, payer, to, deployed).Ok?
    ensures var r := AddLiquidity(c, a, b, desiredA, desiredB, minA, minB, payer, to, deployed).value;
            && WithPair(c, a, b, deployed).Ok?
            && var ready := WithPair(c, a, b, deployed).value;
            && PairFor(ready, a, b).Ok?
            && var p := PairFor(ready, a, b).value;
            && PaidIn(ready, p, a, b, payer, r.amountA, r.amountB).Ok?
            && MintAt(PaidIn(ready, p, a, b, payer, r.amountA, r.amountB).value, p, to) == Ok((r.chain, r.liquidity))
  {
  }

  /** The pair the router deposits into, as it is before the payments. */
  predicate Target(c: Chain, a: Token, b: Token, deployed: Address, ready: Chain, p: Address) {
    WithPair(c, a, b, deployed) == Ok(ready) && PairFor(ready, a, b) == Ok(p)
  }

  /** What a deposit credits to `to` beside `liquidity`: the locked minimum, if `to` is address zero
      and the pool had no liquidity yet. */
  function AlsoLocked(pool: Pool, to: Address): nat {
    if to == 0 && pool.totalSupply == 0 then MINIMUM_LIQUIDITY else 0
  }

  /** `x` and `y` moved from the payer into the pool at `p`, whose reserves are now all it holds,
      `liquidity` was credited to `to`, and every other pool is untouched. */
  ghost predicate Deposited(
    c: Chain, d: Chain, p: Address, a: Token, b: Token, payer: Address, to: Address, x: nat, y: nat, liquidity: nat)
    requires p in c.pools
  {
    && p in d.pools && Synced(d, p)
    && ReserveOf(d, p, a) == BalanceOf(c, a, p) + x && ReserveOf(d, p, b) == BalanceOf(c, b, p) + y
    && BalanceOf(d, a, payer) == BalanceOf(c, a, payer) - x && BalanceOf(d, b, payer) == BalanceOf(c, b, payer) - y
    && Bal(d.pools[p].lp, to) == Bal(c.pools[p].lp, to) + liquidity + AlsoLocked(c.pools[p], to)
    && forall q :: q in c.pools && q != p ==> q in d.pools && d.pools[q] == c.pools[q]
  }

  lemma PaidThenMinted(c: Chain, p: Address, a: Token, b: Token, payer: Address, to: Address, x: nat, y: nat)
    requires Trades(c, p, a, b) && payer != p && PaidIn(c, p, a, b, payer, x, y).Ok?
    requires MintAt(PaidIn(c, p, a, b, payer, x, y).value, p, to).Ok?
    ensures var (d, liquidity) := MintAt(PaidIn(c, p, a, b, payer, x, y).value, p, to).value;
            Deposited(c, d, p, a, b, payer, to, x, y, liquidity)
  {
    var paid := PaidIn(c, p, a, b, payer, x, y).value;
    PaidPair(c, p, a, b, payer, x, y);
    PairInvariant.MintShape(PairAt(paid, p), to);
    PutThenAt(paid, p, Mint(PairAt(paid, p), to).value.0);
  }

  /** A deposit moves exactly the amounts it reports from the payer into one pool, takes what the
      pool then holds as its reserves, and credits exactly the liquidity it reports; every other
      pool is untouched. */
  lemma AddLiquidityDeposits(
    c: Chain, a: Token, b: Token, desiredA: nat, desiredB: nat, minA: nat, minB: nat, payer: Address, to: Address,
    deployed: Address, ready: Chain, p: Address)
    requires AddLiquidity(c, a, b, desiredA, desiredB, minA, minB, payer, to, deployed).Ok?
    requires Target(c, a, b, deployed, ready, p) && Trades(ready, p, a, b) && payer != p
    ensures var r := AddLiquidity(c, a, b, desiredA, desiredB, minA, minB, payer, to, deployed).value;
            Deposited(ready, r.chain, p, a, b, payer, to, r.amountA, r.amountB, r.liquidity)
  {
    AddUnfolds(c, a, b, desiredA, desiredB, minA, minB, payer, to, deployed);
    var r := AddLiquidity(c, a, b, desiredA, desiredB, minA, minB, payer, to, deployed).value;
    PaidThenMinted(ready, p, a, b, payer, to, r.amountA, r.amountB);
  }

  // ----- in and out ----------------------------------------------------------------------------

  /** The chain after the owner approves whomever it likes. */
  function Approved(c: Chain, p: Address, allowance: map<(Address, Address), nat>): Chain
    requires p in c.pools
  {
    c.(pools := c.pools[p := c.pools[p].(allowance := allowance)])
  }

  /** Approvals do not change what a burn pays, */
  lemma BurnIgnoresAllowance(s: PairState, allowance: map<(Address, Address), nat>, back: Address)
    requires Burn(s.(allowance := allowance), back).Ok?
    ensures var plain, other := Burn(s, back), Burn(s.(allowance := allowance), back).value;
            plain.Ok? && plain.value.1 == other.1 && plain.value.2 == other.2
  {
  }

  /** nor what a transfer moves. */
  lemma TransferIgnoresAllowance(
    s: PairState, allowance: map<(Address, Address), nat>, router: Address, owner: Address, to: Address, liquidity: nat)
    requires TransferFromLp(s.(allowance := allowance), router, owner, to, liquidity).Ok?
    ensures TransferLp(s, owner, to, liquidity).Ok?
    ensures var spent := TransferFromLp(s.(allowance := allowance), router, owner, to, liquidity).value;
            spent == TransferLp(s, owner, to, liquidity).value.(allowance := spent.allowance)
  {
  }

  /** Mint, approve, transfer back and burn at one pair. */
  lemma RoundTripAtPair(
    s: PairState, to: Address, allowance: map<(Address, Address), nat>, router: Address, back: Address)
    requires Inv(s) && Bal(s.lp, s.self) == 0 && to != s.self && Mint(s, to).Ok?
    requires var (minted, liquidity) := Mint(s, to).value;
             var moved := TransferFromLp(minted.(allowance := allowance), router, to, s.self, liquidity);
             moved.Ok? && Burn(moved.value, back).Ok?
    ensures var (minted, liquidity) := Mint(s, to).value;
            var moved := TransferFromLp(minted.(allowance := allowance), router, to, s.self, liquidity).value;
            var (_, amount0, amount1) := Burn(moved, back).value;
            amount0 <= s.Balance0() - s.reserve0 && amount1 <= s.Balance1() - s.reserve1
  {
    var (minted, liquidity) := Mint(s, to).value;
    TransferIgnoresAllowance(minted, allowance, router, to, s.self, liquidity);
    var moved := TransferFromLp(minted.(allowance := allowance), router, to, s.self, liquidity).value;
    BurnIgnoresAllowance(TransferLp(minted, to, s.self, liquidity).value, moved.allowance, back);
    MintThenBurnNeverGains(s, to, back);
  }

  lemma RemoveUnfolds(
    c: Chain, p: Address, a: Token, b: Token, liquidity: nat, minA: nat, minB: nat, router: Address, payer: Address,
    to: Address)
    requires Trades(c, p, a, b) && RemoveLiquidity(c, a, b, liquidity, minA, minB, router, payer, to).Ok?
    ensures var r := RemoveLiquidity(c, a, b, liquidity, minA, minB, router, payer, to).value;
            var moved := TransferFromLp(PairAt(c, p), router, payer, p, liquidity);
            && moved.Ok? && Burn(moved.value, to).Ok?
            && (Burn(moved.value, to).value.1, Burn(moved.value, to).value.2) == InOrder(c, p, a, r.1, r.2)
  {
  }

  lemma ApprovedPair(c: Chain, p: Address, a: Token, b: Token, allowance: map<(Address, Address), nat>)
    requires Trades(c, p, a, b)
    ensures Trades(Approved(c, p, allowance), p, a, b)
    ensures PairAt(Approved(c, p, allowance), p) == PairAt(c, p).(allowance := allowance)
    ensures Approved(c, p, allowance).pools[p].token0 == c.pools[p].token0
  {
  }

  /** What a pool holds beyond its reserves: tokens sent to it outside any call. */
  function Surplus(c: Chain, p: Address, t: Token): nat
    requires p in c.pools && ReserveOf(c, p, t) <= BalanceOf(c, t, p)
  {
    BalanceOf(c, t, p) - ReserveOf(c, p, t)
  }

  lemma PaidKeepsInv(c: Chain, p: Address, a: Token, b: Token, payer: Address, x: nat, y: nat)
    requires Trades(c, p, a, b) && payer != p && PaidIn(c, p, a, b, payer, x, y).Ok?
    requires Inv(PairAt(c, p))
    ensures var d := PaidIn(c, p, a, b, payer, x, y).value;
            && Trades(d, p, a, b)
            && var s := PairAt(d, p);
            && Inv(s) && s.lp == c.pools[p].lp && s.self == p
            && (s.Balance0() - s.reserve0, s.Balance1() - s.reserve1) ==
               InOrder(c, p, a, x + Surplus(c, p, a), y + Surplus(c, p, b))
  {
    PaidPair(c, p, a, b, payer, x, y);
  }

  lemma MintAtPair(c: Chain, p: Address, a: Token, b: Token, to: Address)
    requires Trades(c, p, a, b) && MintAt(c, p, to).Ok?
    ensures Mint(PairAt(c, p), to).Ok?
    ensures var r, m := MintAt(c, p, to).value, Mint(PairAt(c, p), to).value;
            && r.1 == m.1 && Trades(r.0, p, a, b) && PairAt(r.0, p) == m.0
            && r.0.pools[p].token0 == c.pools[p].token0
  {
    PairInvariant.MintShape(PairAt(c, p), to);
    PutThenAt(c, p, Mint(PairAt(c, p), to).value.0);
  }

  /** Removing at once what was added never returns more of either token than was deposited and
      what the pool held beyond its reserves. */
  lemma AddThenRemoveNeverGains(
    c: Chain, a: Token, b: Token, desiredA: nat, desiredB: nat, minA: nat, minB: nat, payer: Address, to: Address,
    deployed: Address, ready: Chain, p: Address, allowance: map<(Address, Address), nat>, outA: nat, outB: nat,
    router: Address, back: Address)
    requires AddLiquidity(c, a, b, desiredA, desiredB, minA, minB, payer, to, deployed).Ok?
    requires Target(c, a, b, deployed, ready, p) && Trades(ready, p, a, b)
    requires Inv(PairAt(ready, p)) && Bal(ready.pools[p].lp, p) == 0 && payer != p && to != p
    requires var d := AddLiquidity(c, a, b, desiredA, desiredB, minA, minB, payer, to, deployed).value;
             p in d.chain.pools
             && RemoveLiquidity(Approved(d.chain, p, allowance), a, b, d.liquidity, outA, outB, router, to, back).Ok?
    ensures var d := AddLiquidity(c, a, b, desiredA, desiredB, minA, minB, payer, to, deployed).value;
            var r := RemoveLiquidity(Approved(d.chain, p, allowance), a, b, d.liquidity, outA, outB, router, to,
                                     back).value;
            r.1 <= d.amountA + Surplus(ready, p, a) && r.2 <= d.amountB + Surplus(ready, p, b)
  {
    AddUnfolds(c, a, b, desiredA, desiredB, minA, minB, payer, to, deployed);
    var d := AddLiquidity(c, a, b, desiredA, desiredB, minA, minB, payer, to, deployed).value;
    var paid := PaidIn(ready, p, a, b, payer, d.amountA, d.amountB).value;
    PaidKeepsInv(ready, p, a, b, payer, d.amountA, d.amountB);
    MintAtPair(paid, p, a, b, to);
    var s, e := PairAt(paid, p), Approved(d.chain, p, allowance);
    ApprovedPair(d.chain, p, a, b, allowance);
    RemoveUnfolds(e, p, a, b, d.liquidity, outA, outB, router, to, back);
    RoundTripAtPair(s, to, allowance, router, back);
  }

  // ----- an example --------------------------------------------------------------------------

  /** A pool of 1000 of each token, and account 7 with 100 of each. */
  function ExampleChain(): Chain {
    Chain(map[1 := map[10 := 1000, 7 := 100], 2 := map[10 := 1000, 7 := 100]],
          map[10 := Pool(1, 2, 1000, 1000, map[0 := 1000], map[], 1000)], map[(1, 2) := 10, (2, 1) := 10])
  }

  function ExamplePaid(): Chain {
    ExampleChain().(ledgers := map[1 := map[10 := 1010, 7 := 90], 2 := map[10 := 1010, 7 := 90]])
  }

  /** Asked for at least 15 of the first token but desiring only 10, the router accepts a deposit
      of 10. */
  lemma MinimumIgnored()
    ensures var r := AddLiquidity(ExampleChain(), 1, 2, 10, 20, 15, 0, 7, 7, 11);
            r.Ok? && r.value.amountA == 10 && r.value.amountB == 10 && r.value.liquidity == 10
  {
    assert Quote(10, 1000, 1000) == Ok(10);
    ExamplePays();
    ExampleMints();
  }

  lemma ExamplePays()
    ensures PaidIn(ExampleChain(), 10, 1, 2, 7, 10, 10) == Ok(ExamplePaid())
  {
    assert Moved(map[10 := 1000, 7 := 100], 7, 10, 10) == map[10 := 1010, 7 := 90];
    var c := ExampleChain();
    var paid := TransferToken(c, 1, 7, 10, 10).value;
    assert paid.ledgers == map[1 := map[10 := 1010, 7 := 90], 2 := map[10 := 1000, 7 := 100]];
    assert TransferToken(paid, 2, 7, 10, 10).value.ledgers == ExamplePaid().ledgers;
  }

  lemma ExampleMints()
    ensures var r := MintAt(ExamplePaid(), 10, 7); r.Ok? && r.value.1 == 10
  {
    var s := PairAt(ExamplePaid(), 10);
    assert s.Balance0() == 1010 && s.Balance1() == 1010;
    assert LiquidityFor(s, 10, 10) == Ok(10);
  }
}
