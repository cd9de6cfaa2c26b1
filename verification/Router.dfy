/** The factory and the router over the storage they share. */
module Router {
  import opened TokenLedger
  import opened PairSpec
  import opened RouterSpec
  import Pair
  import Quotes

  /** Amounts already computed, followed by the rest of a quote. */
  function Prefixed(front: seq<nat>, rest: Outcome<seq<nat>>): Outcome<seq<nat>> {
    match rest
    case Ok(amounts) => Ok(front + amounts)
    case Revert(reason) => Revert(reason)
  }

  class Exchange {
    var ledgers: map<Token, Balances>
    var pools: map<Address, Pool>
    var getPair: map<(Token, Token), Address>

    function State(): Chain
      reads this
    {
      Chain(ledgers, pools, getPair)
    }

    constructor (ledgers: map<Token, Balances>)
      ensures State() == Chain(ledgers, map[], map[])
      ensures Registry(State())
    {
      this.ledgers, pools, getPair := ledgers, map[], map[];
    }

    /** `deployed` is the address the new pair contract gets. */
    method CreatePair(a: Token, b: Token, deployed: Address) returns (r: Outcome<Address>)
      modifies this
      ensures match RouterSpec.CreatePair(old(State()), a, b, deployed)
              case Ok(c) => r == Ok(deployed) && State() == c
              case Revert(reason) => r == Revert(reason) && State() == old(State())
    {
      if a == b {
        return Revert(IdenticalTokens);
      }
      var (token0, token1) := SortTokens(a, b);
      if token0 == 0 {
        return Revert(ZeroAddress);
      }
      if Registered(State(), token0, token1) != 0 {
        return Revert(PairExists);
      }
      pools := pools[deployed := Pool(token0, token1, 0, 0, map[], map[], 0)];
      getPair := getPair[(token0, token1) := deployed];
      getPair := getPair[(token1, token0) := deployed];
      return Ok(deployed);
    }

    method GetAmountsOut(amountIn: nat, path: seq<Token>) returns (r: Outcome<seq<nat>>)
      ensures r == RouterSpec.GetAmountsOut(State(), amountIn, path)
    {
      if |path| < 2 {
        return Revert(InvalidPath);
      }
      var amounts := new nat[|path|];
      amounts[0] := amountIn;
      ghost var c := State();
      var i := 0;
      assert path[0..] == path;
      PrefixedNothing(AmountsFrom(c, amountIn, path));
      while i < |path| - 1
        invariant 0 <= i < |path| && State() == c
        invariant Prefixed(amounts[..i], AmountsFrom(c, amounts[i], path[i..])) == AmountsFrom(c, amountIn, path)
      {
        AmountsUnfold(c, amounts[i], path[i..]);
        assert path[i..][1..] == path[i + 1..];
        var next := NextAmount(State(), amounts[i], path[i], path[i + 1]);
        if next.Revert? {
          return Revert(next.reason);
        }
        ghost var front, here := amounts[..i], amounts[i];
        amounts[i + 1] := next.value;
        i := i + 1;
        assert amounts[..i] == front + [here];
        Regroup(front, here, AmountsFrom(c, next.value, path[i..]));
      }
      assert amounts[..] == amounts[..i] + [amounts[i]];
      return Ok(amounts[..]);
    }

    /** Call `swap` on the pair at `p` and keep what it leaves. */
    method SwapAt(p: Address, amount0Out: nat, amount1Out: nat, to: Address) returns (r: Outcome<()>)
      modifies this`ledgers, this`pools
      ensures match RouterSpec.SwapAt(old(State()), p, amount0Out, amount1Out, to)
              case Ok(c) => r == Ok(()) && State() == c
              case Revert(reason) => r == Revert(reason) && State() == old(State())
    {
      if p !in pools {
        return Revert(PairNotFound);
      }
      var pair := new Pair.UniswapV2Pair.Deployed(PairAt(State(), p));
      r := pair.Swap(amount0Out, amount1Out, to);
      if r.Ok? {
        KeepPair(p, pair);
      }
    }

    /** Write the storage of the pair contract and of its two tokens back. */
    method KeepPair(p: Address, pair: Pair.UniswapV2Pair)
      requires p in pools
      modifies this`ledgers, this`pools
      ensures State() == PutPair(old(State()), p, pair.State())
    {
      var pool := pools[p];
      ledgers := ledgers[pool.token0 := pair.token0.balances];
      ledgers := ledgers[pool.token1 := pair.token1.balances];
      pools := pools[p := pool.(reserve0 := pair.reserve0, reserve1 := pair.reserve1, lp := pair.lp,
                                allowance := pair.allowance, totalSupply := pair.totalSupply)];
    }

    /** Swap `input` for `output` at their pair. */
    method SwapTokens(input: Token, output: Token, amountOut: nat, to: Address) returns (r: Outcome<()>)
      modifies this`ledgers, this`pools
      ensures match Hop(old(State()), input, output, amountOut, to)
              case Ok(c) => r == Ok(()) && State() == c
              case Revert(reason) => r == Revert(reason) && State() == old(State())
    {
      var p := PairFor(State(), input, output);
      if p.Revert? {
        return Revert(p.reason);
      }
      if input == SortTokens(input, output).0 {
        r := SwapAt(p.value, 0, amountOut, to);
      } else {
        r := SwapAt(p.value, amountOut, 0, to);
      }
    }

    /** Hop after hop; on a revert the whole call is undone. */
    method SwapHops(amounts: seq<nat>, path: seq<Token>, to: Address) returns (r: Outcome<()>)
      requires |amounts| == |path| > 0
      modifies this`ledgers, this`pools
      ensures match SwapPath(old(State()), amounts, path, to)
              case Ok(c) => r == Ok(()) && State() == c
              case Revert(reason) => r == Revert(reason) && State() == old(State())
    {
      var savedLedgers, savedPools := ledgers, pools;
      var i := 0;
      while i < |path| - 1
        invariant 0 <= i < |path|
        invariant SwapPath(State(), amounts[i..], path[i..], to) == SwapPath(old(State()), amounts, path, to)
      {
        SwapUnfold(State(), amounts[i..], path[i..], to);
        assert path[i..][1..] == path[i + 1..] && amounts[i..][1..] == amounts[i + 1..];
        var payee := if i < |path| - 2 then PairFor(State(), path[i + 1], path[i + 2]) else Ok(to);
        r := Revert(PairNotFound);
        if payee.Ok? {
          r := SwapTokens(path[i], path[i + 1], amounts[i + 1], payee.value);
        }
        if r.Revert? {
          ledgers, pools := savedLedgers, savedPools;
          return;
        }
        i := i + 1;
      }
      return Ok(());
    }

    method SwapExactTokensForTokens(
      amountIn: nat, amountOutMin: nat, path: seq<Token>, payer: Address, to: Address)
      returns (r: Outcome<seq<nat>>)
      modifies this
      ensures match SwapExact(old(State()), amountIn, amountOutMin, path, payer, to)
              case Ok(result) => r == Ok(result.1) && State() == result.0
              case Revert(reason) => r == Revert(reason) && State() == old(State())
    {
      r := GetAmountsOut(amountIn, path);
      if r.Revert? {
        return;
      }
      var amounts := r.value;
      if amounts[|amounts| - 1] < amountOutMin {
        return Revert(InsufficientOutput);
      }
      var first := PairFor(State(), path[0], path[1]);
      var paid := if first.Ok? then TransferToken(State(), path[0], payer, first.value, amounts[0])
                  else Revert(PairNotFound);
      if paid.Revert? {
        return Revert(paid.reason);
      }
      var savedLedgers := ledgers;
      ledgers := paid.value.ledgers;
      var done := SwapHops(amounts, path, to);
      if done.Revert? {
        ledgers := savedLedgers;
        return Revert(done.reason);
      }
    }

    /** The amounts the router deposits, from the reserves it reads. */
    method OptimalAmounts(reserveA: nat, reserveB: nat, desiredA: nat, desiredB: nat, minA: nat, minB: nat)
      returns (r: Outcome<(nat, nat)>)
      ensures r == RouterSpec.OptimalAmounts(reserveA, reserveB, desiredA, desiredB, minA, minB)
    {
      if reserveA == 0 && reserveB == 0 {
        return Ok((desiredA, desiredB));
      }
      var optimalB := Quotes.Quote(desiredA, reserveA, reserveB);
      if optimalB.Revert? {
        return Revert(optimalB.reason);
      }
      if optimalB.value <= desiredB {
        return if optimalB.value < minB then Revert(InsufficientBAmount) else Ok((desiredA, optimalB.value));
      }
      var optimalA := Quotes.Quote(desiredB, reserveB, reserveA);
      if optimalA.Revert? {
        return Revert(optimalA.reason);
      }
      if optimalA.value > desiredA || optimalA.value < minA {
        return Revert(InsufficientAAmount);
      }
      return Ok((optimalA.value, desiredB));
    }

    /** Call `mint` on the pair at `p` and keep what it leaves. */
    method MintAt(p: Address, to: Address) returns (r: Outcome<nat>)
      modifies this`ledgers, this`pools
      ensures match RouterSpec.MintAt(old(State()), p, to)
              case Ok(result) => r == Ok(result.1) && State() == result.0
              case Revert(reason) => r == Revert(reason) && State() == old(State())
    {
      if p !in pools {
        return Revert(PairNotFound);
      }
      var pair := new Pair.UniswapV2Pair.Deployed(PairAt(State(), p));
      r := pair.Mint(to);
      if r.Ok? {
        KeepPair(p, pair);
      }
    }

    method TransferFrom(t: Token, from: Address, to: Address, amount: nat) returns (ok: bool)
      modifies this`ledgers
      ensures ok == TransferToken(old(State()), t, from, to, amount).Ok?
      ensures State() == if ok then TransferToken(old(State()), t, from, to, amount).value else old(State())
    {
      ok := amount <= BalanceOf(State(), t, from);
      if ok {
        ledgers := ledgers[t := Moved(LedgerOf(State(), t), from, to, amount)];
      }
    }

    /** Deploy the pair if needed, pick the amounts, pay both tokens in, mint. */
    method AddLiquidity(
      a: Token, b: Token, desiredA: nat, desiredB: nat, minA: nat, minB: nat, payer: Address, to: Address,
      deployed: Address)
      returns (r: Outcome<(nat, nat, nat)>)
      modifies this
      ensures match RouterSpec.AddLiquidity(old(State()), a, b, desiredA, desiredB, minA, minB, payer, to, deployed)
              case Ok(d) => r == Ok((d.amountA, d.amountB, d.liquidity)) && State() == d.chain
              case Revert(reason) => r == Revert(reason) && State() == old(State())
    {
      var savedLedgers, savedPools, savedPairs := ledgers, pools, getPair;
      r := DepositInto(a, b, desiredA, desiredB, minA, minB, payer, to, deployed);
      if r.Revert? {
        ledgers, pools, getPair := savedLedgers, savedPools, savedPairs;
      }
    }

    method DepositInto(
      a: Token, b: Token, desiredA: nat, desiredB: nat, minA: nat, minB: nat, payer: Address, to: Address,
      deployed: Address)
      returns (r: Outcome<(nat, nat, nat)>)
      modifies this
      ensures match RouterSpec.AddLiquidity(old(State()), a, b, desiredA, desiredB, minA, minB, payer, to, deployed)
              case Ok(d) => r == Ok((d.amountA, d.amountB, d.liquidity)) && State() == d.chain
              case Revert(reason) => r == Revert(reason)
    {
      if Registered(State(), a, b) == 0 {
        var created := CreatePair(a, b, deployed);
        if created.Revert? {
          return Revert(created.reason);
        }
      }
      var reserves := GetReserves(State(), a, b);
      if reserves.Revert? {
        return Revert(reserves.reason);
      }
      var amounts := OptimalAmounts(reserves.value.0, reserves.value.1, desiredA, desiredB, minA, minB);
      if amounts.Revert? {
        return Revert(amounts.reason);
      }
      var p := PairFor(State(), a, b);
      var paid := TransferFrom(a, payer, p.value, amounts.value.0);
      if paid {
        paid := TransferFrom(b, payer, p.value, amounts.value.1);
      }
      if !paid {
        return Revert(InsufficientBalance);
      }
      var minted := MintAt(p.value, to);
      if minted.Revert? {
        return Revert(minted.reason);
      }
      return Ok((amounts.value.0, amounts.value.1, minted.value));
    }

    method RemoveLiquidity(
      a: Token, b: Token, liquidity: nat, minA: nat, minB: nat, router: Address, payer: Address, to: Address)
      returns (r: Outcome<(nat, nat)>)
      modifies this`ledgers, this`pools
      ensures match RouterSpec.RemoveLiquidity(old(State()), a, b, liquidity, minA, minB, router, payer, to)
              case Ok(result) => r == Ok((result.1, result.2)) && State() == result.0
              case Revert(reason) => r == Revert(reason) && State() == old(State())
    {
      var p := PairFor(State(), a, b);
      if p.Revert? {
        return Revert(p.reason);
      }
      if p.value !in pools {
        return Revert(PairNotFound);
      }
      var pair := new Pair.UniswapV2Pair.Deployed(PairAt(State(), p.value));
      var moved := pair.TransferFrom(router, payer, p.value, liquidity);
      if moved.Revert? {
        return Revert(moved.reason);
      }
      var burned := pair.Burn(to);
      if burned.Revert? {
        return Revert(burned.reason);
      }
      var (amountA, amountB) := if a == SortTokens(a, b).0 then burned.value else (burned.value.1, burned.value.0);
      if amountA < minA || amountB < minB {
        return Revert(InsufficientAmounts);
      }
      KeepPair(p.value, pair);
      return Ok((amountA, amountB));
    }
  }

  lemma PrefixedNothing(r: Outcome<seq<nat>>)
    ensures Prefixed([], r) == r
  {
    if r.Ok? {
      assert [] + r.value == r.value;
    }
  }

  lemma AmountsUnfold(c: Chain, amount: nat, path: seq<Token>)
    requires |path| > 1
    ensures var next := NextAmount(c, amount, path[0], path[1]);
            AmountsFrom(c, amount, path) ==
            if next.Revert? then Revert(next.reason) else Prefixed([amount], AmountsFrom(c, next.value, path[1..]))
  {
  }

  lemma SwapUnfold(c: Chain, amounts: seq<nat>, path: seq<Token>, to: Address)
    requires |amounts| == |path| > 1
    ensures var payee := if |path| > 2 then PairFor(c, path[1], path[2]) else Ok(to);
            SwapPath(c, amounts, path, to) ==
            if payee.Revert? then Revert(payee.reason)
            else
              var next := Hop(c, path[0], path[1], amounts[1], payee.value);
              if next.Revert? then Revert(next.reason) else SwapPath(next.value, amounts[1..], path[1..], to)
  {
  }

  lemma Regroup(front: seq<nat>, here: nat, rest: Outcome<seq<nat>>)
    ensures Prefixed(front + [here], rest) == Prefixed(front, Prefixed([here], rest))
  {
    if rest.Ok? {
      assert front + [here] + rest.value == front + ([here] + rest.value);
    }
  }
}
