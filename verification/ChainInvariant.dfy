/** Every pool of every chain that the factory, the router and direct calls can produce. */
module ChainInvariant {
  import opened LiquidityProof
  import opened PairSpec
  import opened RouterProof
  import opened RouterSpec
  import opened TokenLedger
  import PairInvariant

  /** The registry is in order and every deployed pair satisfies the pair invariant. */
  ghost predicate ChainInv(c: Chain) {
    Registry(c) && forall p :: p in c.pools ==> PoolInv(c, p)
  }

  ghost predicate PoolInv(c: Chain, p: Address)
    requires p in c.pools
  {
    Inv(PairAt(c, p))
  }

  // ----- calls ---------------------------------------------------------------------------------

  /** Calls from accounts that are not pairs: token transfers, direct calls of a pair, and the
      factory's and router's entry points. */
  datatype Call =
    | Create(a: Token, b: Token, deployed: Address)
    | Transfer(t: Token, from: Address, to: Address, amount: nat)
    | OnPair(p: Address, step: Step)
    | SwapTokens(amountIn: nat, amountOutMin: nat, path: seq<Token>, payer: Address, to: Address)
    | Add(a: Token, b: Token, desiredA: nat, desiredB: nat, minA: nat, minB: nat, payer: Address, to: Address,
          deployed: Address)
    | Remove(a: Token, b: Token, liquidity: nat, minA: nat, minB: nat, router: Address, payer: Address, to: Address)

  predicate IsPairCall(step: Step) { !step.Transfer0? && !step.Transfer1? }

  predicate NewAddress(c: Chain, deployed: Address) { deployed != 0 && deployed !in c.pools }

  /** Nobody signs for a pair or for address zero, and new contracts get unused addresses. */
  predicate Legal(c: Chain, call: Call) {
    match call
    case Create(_, _, deployed) => NewAddress(c, deployed)
    case Transfer(_, from, _, _) => from !in c.pools
    case OnPair(p, step) => IsPairCall(step) && FromOutside(p, step)
    case SwapTokens(_, _, _, payer, _) => payer !in c.pools
    case Add(_, _, _, _, _, _, payer, _, deployed) => NewAddress(c, deployed) && payer !in c.pools && payer != deployed
    case Remove(_, _, _, _, _, _, _, _) => true
  }

  ghost function Perform(c: Chain, call: Call): Outcome<Chain> {
    match call
    case Create(a, b, deployed) => CreatePair(c, a, b, deployed)
    case Transfer(t, from, to, amount) => TransferToken(c, t, from, to, amount)
    case OnPair(p, step) =>
      if p !in c.pools then Revert(PairNotFound)
      else
        var s :- Exec(PairAt(c, p), step);
        Ok(PutPair(c, p, s))
    case SwapTokens(amountIn, amountOutMin, path, payer, to) =>
      var r :- SwapExact(c, amountIn, amountOutMin, path, payer, to);
      Ok(r.0)
    case Add(a, b, desiredA, desiredB, minA, minB, payer, to, deployed) =>
      var r :- AddLiquidity(c, a, b, desiredA, desiredB, minA, minB, payer, to, deployed);
      Ok(r.chain)
    case Remove(a, b, liquidity, minA, minB, router, payer, to) =>
      var r :- RemoveLiquidity(c, a, b, liquidity, minA, minB, router, payer, to);
      Ok(r.0)
  }

  /** A reverted call leaves no trace. */
  ghost function AfterCall(c: Chain, call: Call): Chain {
    var r := Perform(c, call);
    if r.Ok? then r.value else c
  }

  ghost function RunCalls(c: Chain, calls: seq<Call>): Chain
    decreases |calls|
  {
    if calls == [] then c else RunCalls(AfterCall(c, calls[0]), calls[1..])
  }

  ghost predicate AllLegal(c: Chain, calls: seq<Call>)
    decreases |calls|
  {
    calls == [] || (Legal(c, calls[0]) && AllLegal(AfterCall(c, calls[0]), calls[1..]))
  }

  // ----- what a pool may see of its neighbours ---------------------------------------------------

  /** More tokens in the pair never break its invariant. */
  lemma RicherKeepsInv(s: PairState, t: PairState)
    requires Inv(s) && t == s.(token0 := t.token0, token1 := t.token1)
    requires s.Balance0() <= t.Balance0() && s.Balance1() <= t.Balance1()
    ensures Inv(t)
  {
  }

  lemma NeighbourKept(c: Chain, d: Chain, q: Address)
    requires q in c.pools && q in d.pools && d.pools[q] == c.pools[q] && PoolInv(c, q)
    requires forall t :: BalanceOf(c, t, q) <= BalanceOf(d, t, q)
    ensures PoolInv(d, q)
  {
    var pool := c.pools[q];
    assert BalanceOf(c, pool.token0, q) <= BalanceOf(d, pool.token0, q);
    assert BalanceOf(c, pool.token1, q) <= BalanceOf(d, pool.token1, q);
    RicherKeepsInv(PairAt(c, q), PairAt(d, q));
  }

  /** The registry looks at nothing but the pairs' tokens. */
  lemma RegistryKept(c: Chain, d: Chain)
    requires Registry(c) && d.getPair == c.getPair && d.pools.Keys == c.pools.Keys
    requires forall p :: p in c.pools ==>
             d.pools[p].token0 == c.pools[p].token0 && d.pools[p].token1 == c.pools[p].token1
    ensures Registry(d)
  {
  }

  lemma TransferKeepsChain(c: Chain, t: Token, from: Address, to: Address, amount: nat)
    requires ChainInv(c) && from !in c.pools && TransferToken(c, t, from, to, amount).Ok?
    ensures var d := TransferToken(c, t, from, to, amount).value;
            ChainInv(d) && d.pools == c.pools && d.getPair == c.getPair
  {
    var d := TransferToken(c, t, from, to, amount).value;
    forall q | q in d.pools
      ensures PoolInv(d, q)
    {
      NeighbourKept(c, d, q);
    }
    RegistryKept(c, d);
  }

  /** Whatever a pair call does to the two ledgers, it takes from the pair alone. */
  ghost predicate TakesFromPairOnly(s: PairState, t: PairState) {
    t.self == s.self
    && forall h :: h != s.self ==> Bal(s.token0, h) <= Bal(t.token0, h) && Bal(s.token1, h) <= Bal(t.token1, h)
  }

  lemma TokensApart(c: Chain, p: Address)
    requires Registry(c) && p in c.pools
    ensures c.pools[p].token0 != c.pools[p].token1
  {
    assert (c.pools[p].token0, c.pools[p].token1) in c.getPair;
  }

  lemma PutBalances(c: Chain, p: Address, t: PairState, q: Address, token: Token)
    requires p in c.pools && q != p && TakesFromPairOnly(PairAt(c, p), t)
    ensures BalanceOf(c, token, q) <= BalanceOf(PutPair(c, p, t), token, q)
  {
    var pool := c.pools[p];
    assert Bal(LedgerOf(c, pool.token0), q) <= Bal(t.token0, q);
    assert Bal(LedgerOf(c, pool.token1), q) <= Bal(t.token1, q);
  }

  lemma PutNeighbour(c: Chain, p: Address, t: PairState, q: Address)
    requires p in c.pools && q in c.pools && q != p && PoolInv(c, q) && TakesFromPairOnly(PairAt(c, p), t)
    ensures PoolInv(PutPair(c, p, t), q)
  {
    forall token
      ensures BalanceOf(c, token, q) <= BalanceOf(PutPair(c, p, t), token, q)
    {
      PutBalances(c, p, t, q, token);
    }
    NeighbourKept(c, PutPair(c, p, t), q);
  }

  lemma PutSelf(c: Chain, p: Address, t: PairState)
    requires Registry(c) && p in c.pools && t.self == p && Inv(t)
    ensures PoolInv(PutPair(c, p, t), p)
  {
    TokensApart(c, p);
    PutThenAt(c, p, t);
  }

  /** Writing one pair back keeps all others. */
  lemma PutKeepsChain(c: Chain, p: Address, t: PairState)
    requires ChainInv(c) && p in c.pools && Inv(t) && TakesFromPairOnly(PairAt(c, p), t)
    ensures ChainInv(PutPair(c, p, t)) && PutPair(c, p, t).pools.Keys == c.pools.Keys
  {
    var d := PutPair(c, p, t);
    forall q | q in d.pools
      ensures PoolInv(d, q)
    {
      if q == p {
        PutSelf(c, p, t);
      } else {
        PutNeighbour(c, p, t, q);
      }
    }
    PutRegistry(c, p, t);
  }

  lemma PutRegistry(c: Chain, p: Address, t: PairState)
    requires Registry(c) && p in c.pools
    ensures Registry(PutPair(c, p, t)) && PutPair(c, p, t).pools.Keys == c.pools.Keys
  {
    assert PutPair(c, p, t).pools.Keys == c.pools.Keys;
    RegistryKept(c, PutPair(c, p, t));
  }

  // ----- one pair call -----------------------------------------------------------------------------

  lemma BurnTakes(s: PairState, to: Address)
    requires Burn(s, to).Ok?
    ensures TakesFromPairOnly(s, Burn(s, to).value.0)
  {
  }

  lemma SwapTakes(s: PairState, amount0Out: nat, amount1Out: nat, to: Address)
    requires Swap(s, amount0Out, amount1Out, to).Ok?
    ensures TakesFromPairOnly(s, Swap(s, amount0Out, amount1Out, to).value)
  {
  }

  lemma MintTakes(s: PairState, to: Address)
    requires Mint(s, to).Ok?
    ensures TakesFromPairOnly(s, Mint(s, to).value.0)
  {
    PairInvariant.MintShape(s, to);
  }

  lemma PairCallTakes(s: PairState, step: Step)
    requires IsPairCall(step) && Exec(s, step).Ok?
    ensures TakesFromPairOnly(s, Exec(s, step).value)
  {
    match step
    case DoMint(to) => MintTakes(s, to);
    case DoBurn(to) => BurnTakes(s, to);
    case DoSwap(amount0Out, amount1Out, to) => SwapTakes(s, amount0Out, amount1Out, to);
    case LpTransfer(_, _, _) =>
    case LpApprove(_, _, _) =>
    case LpTransferFrom(_, _, _, _) =>
  }

  lemma PairCallKeepsChain(c: Chain, p: Address, step: Step)
    requires ChainInv(c) && p in c.pools && IsPairCall(step) && FromOutside(p, step)
    requires Exec(PairAt(c, p), step).Ok?
    ensures var d := PutPair(c, p, Exec(PairAt(c, p), step).value);
            ChainInv(d) && d.pools.Keys == c.pools.Keys
  {
    assert PoolInv(c, p);
    PairInvariant.StepKeepsInv(PairAt(c, p), step);
    PairCallTakes(PairAt(c, p), step);
    PutKeepsChain(c, p, Exec(PairAt(c, p), step).value);
  }

  // ----- the factory and the router ------------------------------------------------------------------

  lemma CreateKeepsChain(c: Chain, a: Token, b: Token, deployed: Address)
    requires ChainInv(c) && NewAddress(c, deployed) && CreatePair(c, a, b, deployed).Ok?
    ensures var d := CreatePair(c, a, b, deployed).value;
            ChainInv(d) && d.pools.Keys == c.pools.Keys + {deployed}
  {
    CreatePairKeepsRegistry(c, a, b, deployed);
    var d := CreatePair(c, a, b, deployed).value;
    forall q | q in d.pools
      ensures PoolInv(d, q)
    {
      CreateKeepsPool(c, a, b, deployed, q);
    }
  }

  lemma CreateKeepsPool(c: Chain, a: Token, b: Token, deployed: Address, q: Address)
    requires NewAddress(c, deployed) && CreatePair(c, a, b, deployed).Ok?
             && q in CreatePair(c, a, b, deployed).value.pools
    requires q != deployed ==> q in c.pools && PoolInv(c, q)
    ensures PoolInv(CreatePair(c, a, b, deployed).value, q)
  {
    var d := CreatePair(c, a, b, deployed).value;
    if q == deployed {
      PairInvariant.EmptyHolds(PairAt(d, q));
    } else {
      NeighbourKept(c, d, q);
    }
  }

  lemma HopKeepsChain(c: Chain, input: Token, output: Token, amountOut: nat, to: Address)
    requires ChainInv(c) && Hop(c, input, output, amountOut, to).Ok?
    ensures ChainInv(Hop(c, input, output, amountOut, to).value)
  {
    var p := PairFor(c, input, output).value;
    var step := if input == SortTokens(input, output).0 then DoSwap(0, amountOut, to) else DoSwap(amountOut, 0, to);
    PairCallKeepsChain(c, p, step);
  }

  lemma {:induction false} PathKeepsChain(c: Chain, amounts: seq<nat>, path: seq<Token>, to: Address)
    requires ChainInv(c) && |amounts| == |path| > 0 && SwapPath(c, amounts, path, to).Ok?
    ensures ChainInv(SwapPath(c, amounts, path, to).value)
    decreases |path|
  {
    if |path| > 1 {
      var payee := if |path| > 2 then PairFor(c, path[1], path[2]).value else to;
      HopKeepsChain(c, path[0], path[1], amounts[1], payee);
      PathKeepsChain(Hop(c, path[0], path[1], amounts[1], payee).value, amounts[1..], path[1..], to);
    }
  }

  lemma SwapExactKeepsChain(c: Chain, amountIn: nat, amountOutMin: nat, path: seq<Token>, payer: Address, to: Address)
    requires ChainInv(c) && payer !in c.pools && SwapExact(c, amountIn, amountOutMin, path, payer, to).Ok?
    ensures ChainInv(SwapExact(c, amountIn, amountOutMin, path, payer, to).value.0)
  {
    var amounts := GetAmountsOut(c, amountIn, path).value;
    var first := PairFor(c, path[0], path[1]).value;
    TransferKeepsChain(c, path[0], payer, first, amounts[0]);
    PathKeepsChain(TransferToken(c, path[0], payer, first, amounts[0]).value, amounts, path, to);
  }

  lemma AddKeepsChain(
    c: Chain, a: Token, b: Token, desiredA: nat, desiredB: nat, minA: nat, minB: nat, payer: Address, to: Address,
    deployed: Address)
    requires ChainInv(c) && NewAddress(c, deployed) && payer !in c.pools && payer != deployed
    requires AddLiquidity(c, a, b, desiredA, desiredB, minA, minB, payer, to, deployed).Ok?
    ensures ChainInv(AddLiquidity(c, a, b, desiredA, desiredB, minA, minB, payer, to, deployed).value.chain)
  {
    AddUnfolds(c, a, b, desiredA, desiredB, minA, minB, payer, to, deployed);
    var r := AddLiquidity(c, a, b, desiredA, desiredB, minA, minB, payer, to, deployed).value;
    var ready := WithPair(c, a, b, deployed).value;
    WithPairKeepsChain(c, a, b, deployed, payer);
    var p := PairFor(ready, a, b).value;
    PaidInKeepsChain(ready, p, a, b, payer, r.amountA, r.amountB);
    MintAtKeepsChain(PaidIn(ready, p, a, b, payer, r.amountA, r.amountB).value, p, to);
  }

  lemma WithPairKeepsChain(c: Chain, a: Token, b: Token, deployed: Address, payer: Address)
    requires ChainInv(c) && NewAddress(c, deployed) && payer !in c.pools && payer != deployed
    requires WithPair(c, a, b, deployed).Ok?
    ensures var ready := WithPair(c, a, b, deployed).value; ChainInv(ready) && payer !in ready.pools
  {
    if Registered(c, a, b) == 0 {
      CreateKeepsChain(c, a, b, deployed);
      assert payer !in CreatePair(c, a, b, deployed).value.pools.Keys;
    }
  }

  lemma PaidInKeepsChain(c: Chain, p: Address, a: Token, b: Token, payer: Address, x: nat, y: nat)
    requires ChainInv(c) && payer !in c.pools && PaidIn(c, p, a, b, payer, x, y).Ok?
    ensures ChainInv(PaidIn(c, p, a, b, payer, x, y).value)
  {
    TransferKeepsChain(c, a, payer, p, x);
    TransferKeepsChain(TransferToken(c, a, payer, p, x).value, b, payer, p, y);
  }

  lemma MintAtKeepsChain(c: Chain, p: Address, to: Address)
    requires ChainInv(c) && MintAt(c, p, to).Ok?
    ensures ChainInv(MintAt(c, p, to).value.0)
  {
    PairCallKeepsChain(c, p, DoMint(to));
  }

  lemma RemoveKeepsChain(
    c: Chain, a: Token, b: Token, liquidity: nat, minA: nat, minB: nat, router: Address, payer: Address, to: Address)
    requires ChainInv(c) && RemoveLiquidity(c, a, b, liquidity, minA, minB, router, payer, to).Ok?
    ensures ChainInv(RemoveLiquidity(c, a, b, liquidity, minA, minB, router, payer, to).value.0)
  {
    var p := PairFor(c, a, b).value;
    assert PoolInv(c, p);
    RemoveAtPair(PairAt(c, p), liquidity, router, payer, to);
    PutKeepsChain(c, p, Burn(TransferFromLp(PairAt(c, p), router, payer, p, liquidity).value, to).value.0);
  }

  lemma RemoveAtPair(s: PairState, liquidity: nat, router: Address, payer: Address, to: Address)
    requires Inv(s) && TransferFromLp(s, router, payer, s.self, liquidity).Ok?
    requires Burn(TransferFromLp(s, router, payer, s.self, liquidity).value, to).Ok?
    ensures var t := Burn(TransferFromLp(s, router, payer, s.self, liquidity).value, to).value.0;
            Inv(t) && TakesFromPairOnly(s, t)
  {
    PairInvariant.LpSpendKeepsInv(s, router, payer, s.self, liquidity);
    var moved := TransferFromLp(s, router, payer, s.self, liquidity).value;
    SpendTakes(s, router, payer, s.self, liquidity);
    PairInvariant.BurnStep(moved, to);
    BurnTakes(moved, to);
  }

  lemma SpendTakes(s: PairState, sender: Address, owner: Address, to: Address, value: nat)
    requires TransferFromLp(s, sender, owner, to, value).Ok?
    ensures var t := TransferFromLp(s, sender, owner, to, value).value;
            t.self == s.self && t.token0 == s.token0 && t.token1 == s.token1
  {
  }

  // ----- every run -----------------------------------------------------------------------------------

  lemma CallKeepsChain(c: Chain, call: Call)
    requires ChainInv(c) && Legal(c, call)
    ensures ChainInv(AfterCall(c, call))
  {
    if Perform(c, call).Ok? {
      match call
      case Create(a, b, deployed) => CreateKeepsChain(c, a, b, deployed);
      case Transfer(t, from, to, amount) => TransferKeepsChain(c, t, from, to, amount);
      case OnPair(p, step) => PairCallKeepsChain(c, p, step);
      case SwapTokens(amountIn, amountOutMin, path, payer, to) =>
        SwapExactKeepsChain(c, amountIn, amountOutMin, path, payer, to);
      case Add(a, b, desiredA, desiredB, minA, minB, payer, to, deployed) =>
        AddKeepsChain(c, a, b, desiredA, desiredB, minA, minB, payer, to, deployed);
      case Remove(a, b, liquidity, minA, minB, router, payer, to) =>
        RemoveKeepsChain(c, a, b, liquidity, minA, minB, router, payer, to);
    }
  }

  lemma {:induction false} CallsKeepChain(c: Chain, calls: seq<Call>)
    requires ChainInv(c) && AllLegal(c, calls)
    ensures ChainInv(RunCalls(c, calls))
    decreases |calls|
  {
    if calls != [] {
      CallKeepsChain(c, calls[0]);
      CallsKeepChain(AfterCall(c, calls[0]), calls[1..]);
    }
  }

  /** From a chain without pairs, whatever its token balances, every sequence of calls leaves an
      orderly registry and pools that satisfy the pair invariant and back their reserves: what the
      path and liquidity theorems ask for. */
  lemma ReachableChain(ledgers: map<Token, Balances>, calls: seq<Call>)
    requires AllLegal(Chain(ledgers, map[], map[]), calls)
    ensures var c := RunCalls(Chain(ledgers, map[], map[]), calls);
            ChainInv(c) && Registry(c) && Backed(c)
  {
    CallsKeepChain(Chain(ledgers, map[], map[]), calls);
  }
}
