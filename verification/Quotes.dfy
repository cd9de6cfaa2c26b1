/** The router's price arithmetic, and how it answers to the pair's own check. */
module Quotes {
  import opened TokenLedger
  import opened PairSpec
  import opened PoolMath
  import opened PairArithmetic
  import PairInvariant

  function GetAmountOut(amountIn: nat, reserveIn: nat, reserveOut: nat): Outcome<nat> {
    var _ :- Require(amountIn > 0 && reserveIn > 0 && reserveOut > 0, ZeroInput);
    var withFee :- Checked(amountIn * 997);
    var numerator :- Checked(withFee * reserveOut);
    var scaled :- Checked(reserveIn * 1000);
    var denominator :- Checked(scaled + withFee);
    Ok(FloorDiv(numerator, denominator))
  }

  function Quote(amountA: nat, reserveA: nat, reserveB: nat): Outcome<nat> {
    var _ :- Require(amountA > 0, ZeroInput);
    if reserveA == 0 || reserveB == 0 then Revert(InsufficientLiquidity)
    else
      var scaled :- Checked(amountA * reserveB);
      Ok(scaled / reserveA)
  }

  /** The quote without the word-size checks. */
  function OutFor(amountIn: nat, reserveIn: nat, reserveOut: nat): nat
    requires reserveIn > 0
  {
    var withFee: nat := amountIn * 997;
    FloorDiv(withFee * reserveOut, reserveIn * 1000 + withFee)
  }

  /** On 112-bit amounts the checks never fire. */
  lemma QuoteFits(amountIn: nat, reserveIn: nat, reserveOut: nat)
    requires 0 < amountIn <= MAX_UINT112 && 0 < reserveIn <= MAX_UINT112 && 0 < reserveOut <= MAX_UINT112
    ensures GetAmountOut(amountIn, reserveIn, reserveOut) == Ok(OutFor(amountIn, reserveIn, reserveOut))
  {
    ProductsFit(amountIn, reserveOut);
    assert (amountIn * 997) * reserveOut == (amountIn * reserveOut) * 997;
  }

  // ----- the quote is the K check, solved ----------------------------------------------------

  /** `out` is at most the quote exactly when paying it keeps the fee-adjusted product. */
  lemma QuoteSolvesCheck(x: nat, y: nat, a: nat, out: nat)
    requires x > 0 && out <= y
    ensures out <= OutFor(a, x, y) <==> (1000 * x + 997 * a) * (y - out) >= 1000 * (x * y)
  {
    var d := x * 1000 + a * 997;
    var n := (a * 997) * y;
    FloorDivision(n, d);
    assert d * (y - out) == d * y - out * d;
    assert d * y == 1000 * (x * y) + n by {
      assert (x * 1000) * y == 1000 * (x * y);
    }
    if out <= n / d {
      ProductMonotone(out, d, n / d, d);
    } else {
      ProductMonotone(n / d + 1, d, out, d);
    }
  }

  lemma QuoteBelowReserve(a: nat, x: nat, y: nat)
    requires x > 0 && y > 0
    ensures OutFor(a, x, y) < y
  {
    var d := x * 1000 + a * 997;
    var n := (a * 997) * y;
    FloorDivision(n, d);
    assert y * d - n == (x * 1000) * y;
    ProductMonotone(1, 1, x * 1000, y);
    if n / d >= y {
      ProductMonotone(y, d, n / d, d);
    }
  }

  /** A holder sent `amountIn` of the input token to a pair that was in balance with its reserves. */
  predicate Paid(s: PairState, zeroForOne: bool, amountIn: nat) {
    && s.reserve0 > 0 && s.reserve1 > 0
    && s.Balance0() == s.reserve0 + (if zeroForOne then amountIn else 0)
    && s.Balance1() == s.reserve1 + (if zeroForOne then 0 else amountIn)
    && s.Balance0() <= MAX_UINT112 && s.Balance1() <= MAX_UINT112
  }

  function SwapOneWay(s: PairState, zeroForOne: bool, out: nat, to: Address): Outcome<PairState> {
    if zeroForOne then Swap(s, 0, out, to) else Swap(s, out, 0, to)
  }

  function ReserveIn(s: PairState, zeroForOne: bool): nat { if zeroForOne then s.reserve0 else s.reserve1 }
  function ReserveOut(s: PairState, zeroForOne: bool): nat { if zeroForOne then s.reserve1 else s.reserve0 }

  /** The pair's fee check when `out` is paid on one side. */
  function FeeCheck(s: PairState, zeroForOne: bool, out: nat): Outcome<()>
    requires s.reserve0 <= s.Balance0() && s.reserve1 <= s.Balance1() && out <= ReserveOut(s, zeroForOne)
  {
    var out0, out1 := if zeroForOne then 0 else out, if zeroForOne then out else 0;
    CheckK(s.Balance0() - out0, s.Balance1() - out1, s.Balance0() - s.reserve0, s.Balance1() - s.reserve1, s.K())
  }

  /** A one-sided payout from a backed pool, up to its fee check. */
  lemma SwapUnfolds(s: PairState, zeroForOne: bool, amountOut: nat, to: Address)
    requires to != s.self && 0 < amountOut < ReserveOut(s, zeroForOne)
    requires s.reserve0 <= s.Balance0() && s.reserve1 <= s.Balance1()
    requires s.reserve0 < s.Balance0() || s.reserve1 < s.Balance1()
    requires s.reserve0 > 0 && s.reserve1 > 0
    ensures var out0, out1 := if zeroForOne then 0 else amountOut, if zeroForOne then amountOut else 0;
            var sent := if zeroForOne then s.(token1 := Moved(s.token1, s.self, to, amountOut))
                        else s.(token0 := Moved(s.token0, s.self, to, amountOut));
            && sent.Balance0() == s.Balance0() - out0 && sent.Balance1() == s.Balance1() - out1
            && SwapOneWay(s, zeroForOne, amountOut, to) ==
               match FeeCheck(s, zeroForOne, amountOut)
               case Revert(reason) => Revert(reason)
               case Ok(_) => Update(sent)
  {
  }

  /** The router quotes exactly what the pair grants: of all positive outputs, `swap` accepts
      those up to `getAmountOut` and no other. */
  lemma QuoteIsExact(s: PairState, zeroForOne: bool, amountIn: nat, out: nat, to: Address)
    requires amountIn > 0 && out > 0 && to != s.self
    requires Paid(s, zeroForOne, amountIn)
    ensures GetAmountOut(amountIn, ReserveIn(s, zeroForOne), ReserveOut(s, zeroForOne)).Ok?
    ensures SwapOneWay(s, zeroForOne, out, to).Ok? <==>
              out <= GetAmountOut(amountIn, ReserveIn(s, zeroForOne), ReserveOut(s, zeroForOne)).value
  {
    var x, y := ReserveIn(s, zeroForOne), ReserveOut(s, zeroForOne);
    QuoteFits(amountIn, x, y);
    QuoteBelowReserve(amountIn, x, y);
    if out < y {
      SwapUnfolds(s, zeroForOne, out, to);
      OneWayCheck(x, y, amountIn, out);
    }
  }

  /** The pair's check on a one-sided input accepts exactly the outputs up to the quote. */
  lemma OneWayCheck(x: nat, y: nat, a: nat, out: nat)
    requires 0 < x && x + a <= MAX_UINT112 && out <= y <= MAX_UINT112
    ensures CheckK(x + a, y - out, a, 0, x * y).Ok? <==> out <= OutFor(a, x, y)
    ensures CheckK(y - out, x + a, 0, a, y * x).Ok? <==> out <= OutFor(a, x, y)
  {
    QuoteSolvesCheck(x, y, a, out);
    FeeCheckOneWay(x, y, a, out);
    ProductsFit(x, y);
    CheckKOutcome(x + a, y - out, a, 0, x * y);
    CheckKOutcome(y - out, x + a, 0, a, y * x);
  }

  /** The pair's check with one-sided input, in the form the quote solves. */
  lemma FeeCheckOneWay(x: nat, y: nat, a: nat, out: nat)
    requires out <= y
    ensures ((x + a) * 1000 - a * 3) * ((y - out) * 1000) >= (x * y) * 1000000 <==>
              (1000 * x + 997 * a) * (y - out) >= 1000 * (x * y)
    ensures ((y - out) * 1000) * ((x + a) * 1000 - a * 3) == ((x + a) * 1000 - a * 3) * ((y - out) * 1000)
    ensures x * y == y * x
  {
    assert ((x + a) * 1000 - a * 3) * ((y - out) * 1000) == 1000 * ((1000 * x + 997 * a) * (y - out));
  }

  // ----- consequences for traders ------------------------------------------------------------

  /** Splitting a trade in two never yields more than doing it at once, floors included. */
  lemma SplittingNeverGains(x: nat, y: nat, a: nat, b: nat)
    requires x > 0 && y > 0
    ensures var first := OutFor(a, x, y);
            first < y && first + OutFor(b, x + a, y - first) <= OutFor(a + b, x, y)
  {
    var first := OutFor(a, x, y);
    QuoteBelowReserve(a, x, y);
    var y1 := y - first;
    var second := OutFor(b, x + a, y1);
    QuoteBelowReserve(b, x + a, y1);
    var y2 := y1 - second;
    QuoteSolvesCheck(x, y, a, first);
    QuoteSolvesCheck(x + a, y1, b, second);
    SplitArithmetic(1000 * x + 997 * a, 1000 * x + 1000 * a, 997 * b, y1, y2, 1000 * (x * y)) by {
      assert 1000 * ((x + a) * y1) == (1000 * x + 1000 * a) * y1;
      assert 1000 * (x + a) + 997 * b == 1000 * x + 1000 * a + 997 * b;
    }
    assert 1000 * x + 997 * (a + b) == 1000 * x + 997 * a + 997 * b;
    QuoteSolvesCheck(x, y, a + b, first + second);
  }

  /** From u*y1 >= k and (v+w)*y2 >= v*y1 with u <= v it follows that (u+w)*y2 >= k. */
  lemma SplitArithmetic(u: nat, v: nat, w: nat, y1: nat, y2: nat, k: nat)
    requires 0 < u <= v
    requires u * y1 >= k
    requires (v + w) * y2 >= v * y1
    ensures (u + w) * y2 >= k
  {
    var long, short := (u + w) * v, u * (v + w);
    assert long == short + w * (v - u);
    ProductMonotone(short, y2, long, y2);
    SwapFactors(u + w, v, y2);
    assert short * y2 == u * ((v + w) * y2);
    ProductMonotone(u, v * y1, u, (v + w) * y2);
    assert u * (v * y1) == (u * y1) * v;
    ProductMonotone(k, v, u * y1, v);
    CancelFactor(k, (u + w) * y2, v);
  }

  lemma OutputNeedsInput(x: nat, y: nat, a: nat)
    requires x > 0 && OutFor(a, x, y) > 0
    ensures a > 0
  {
    var d := x * 1000 + a * 997;
    FloorDivision(a * 997 * y, d);
    ProductMonotone(1, 1, OutFor(a, x, y), d);
    PositiveProduct(a * 997, y);
  }

  /** Swapping there and back at quoted prices loses something, always. */
  lemma SwapAndBackLoses(x: nat, y: nat, a: nat)
    requires x > 0 && y > 0 && OutFor(a, x, y) > 0
    ensures var got := OutFor(a, x, y);
            got < y && OutFor(got, y - got, x + a) < a
  {
    var got := OutFor(a, x, y);
    QuoteBelowReserve(a, x, y);
    QuoteSolvesCheck(x, y, a, got);
    OutputNeedsInput(x, y, a);
    QuoteSolvesCheck(y - got, x + a, got, a);
    BackArithmetic(x, y - got, a, got);
  }

  /** If the first swap kept the product, asking the whole input back breaks it. */
  lemma BackArithmetic(x: nat, y1: nat, a: nat, got: nat)
    requires x > 0 && y1 > 0 && a > 0 && got > 0
    requires (1000 * x + 997 * a) * y1 >= 1000 * (x * (y1 + got))
    ensures (1000 * y1 + 997 * got) * x < 1000 * (y1 * (x + a))
  {
    assert (1000 * x + 997 * a) * y1 == 1000 * (x * y1) + 997 * (a * y1);
    assert 1000 * (x * (y1 + got)) == 1000 * (x * y1) + 1000 * (x * got);
    assert (1000 * y1 + 997 * got) * x == 1000 * (x * y1) + 997 * (x * got);
    assert 1000 * (y1 * (x + a)) == 1000 * (x * y1) + 1000 * (a * y1);
    ProductMonotone(1, 1, a, y1);
  }

  /** What a fresh holder can redeem at once is at most the deposit, in each token: mint into
      a pair in balance that holds none of its own liquidity tokens, then burn what was minted. */
  lemma MintThenBurnNeverGains(s: PairState, to: Address, back: Address)
    requires Inv(s) && Bal(s.lp, s.self) == 0 && to != s.self
    requires Mint(s, to).Ok?
    requires var (minted, liquidity) := Mint(s, to).value;
             && TransferLp(minted, to, s.self, liquidity).Ok?
             && Burn(TransferLp(minted, to, s.self, liquidity).value, back).Ok?
    ensures var (minted, liquidity) := Mint(s, to).value;
            var (_, amount0, amount1) := Burn(TransferLp(minted, to, s.self, liquidity).value, back).value;
            && amount0 <= s.Balance0() - s.reserve0
            && amount1 <= s.Balance1() - s.reserve1
  {
    var (minted, liquidity) := Mint(s, to).value;
    PairInvariant.MintShape(s, to);
    var moved := TransferLp(minted, to, s.self, liquidity).value;
    PairInvariant.BurnShape(moved, back);
    assert Bal(moved.lp, s.self) == liquidity;
    var a0, a1 := s.Balance0() - s.reserve0, s.Balance1() - s.reserve1;
    if s.totalSupply == 0 {
      RedeemAtMost(liquidity, a0, minted.totalSupply, a0);
      RedeemAtMost(liquidity, a1, minted.totalSupply, a1);
    } else {
      RedeemLater(s, a0, a1, liquidity);
    }
  }

  lemma RedeemLater(s: PairState, a0: nat, a1: nat, liquidity: nat)
    requires s.totalSupply > 0 && LiquidityFor(s, a0, a1) == Ok(liquidity)
    ensures (liquidity * (s.reserve0 + a0)) / (s.totalSupply + liquidity) <= a0
    ensures (liquidity * (s.reserve1 + a1)) / (s.totalSupply + liquidity) <= a1
  {
    PairInvariant.LaterLiquidity(s, a0, a1);
    RedeemSide(s.reserve0, a0, s.totalSupply, liquidity);
    RedeemSide(s.reserve1, a1, s.totalSupply, liquidity);
  }

  lemma RedeemAtMost(liquidity: nat, balance: nat, supply: nat, bound: nat)
    requires supply > 0 && liquidity <= supply && balance <= bound
    ensures (liquidity * balance) / supply <= bound
  {
    ProductMonotone(liquidity, balance, supply, bound);
    FloorAtMost(liquidity * balance, supply, bound);
  }

  lemma FloorAtMost(n: nat, d: nat, bound: nat)
    requires d > 0 && n <= d * bound
    ensures n / d <= bound
  {
    var q := n / d;
    assert n == q * d + n % d;
    QuotientAtMost(q, n, d, bound);
  }

  lemma QuotientAtMost(q: nat, n: nat, d: nat, bound: nat)
    requires d > 0 && q * d <= n <= d * bound
    ensures q <= bound
  {
    CancelFactor(q, bound, d);
  }

  lemma RedeemSide(r: nat, a: nat, supply: nat, liquidity: nat)
    requires supply > 0
    requires r * (supply + liquidity) <= (r + a) * supply
    ensures (liquidity * (r + a)) / (supply + liquidity) <= a
  {
    RedeemTotal(r, a, supply, liquidity, supply + liquidity, (liquidity * (r + a)) / (supply + liquidity));
  }

  lemma RedeemTotal(r: nat, a: nat, supply: nat, liquidity: nat, total: nat, q: nat)
    requires 0 < supply && total == supply + liquidity
    requires r * total <= (r + a) * supply
    requires q == (liquidity * (r + a)) / total
    ensures q <= a
  {
    FloorDivision(liquidity * (r + a), total);
    assert liquidity * (r + a) + (r + a) * supply == (r + a) * total;
    assert (r + a) * total == r * total + a * total;
    CancelFactor(q, a, total);
  }
}
