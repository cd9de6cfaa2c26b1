/** The factory's registry and the router's multi-hop swap, over a chain of pools that share
    their token ledgers. */
module RouterSpec {
  import opened TokenLedger
  import opened PairSpec
  import opened Quotes

  /** A token is named by its contract address; 0 is no token. */
  type Token = Address

  datatype Pool = Pool(
    token0: Token,
    token1: Token,
    reserve0: nat,
    reserve1: nat,
    lp: Balances,
    allowance: map<(Address, Address), nat>,
    totalSupply: nat)

  datatype Chain = Chain(
    ledgers: map<Token, Balances>,
    pools: map<Address, Pool>,
    getPair: map<(Token, Token), Address>)

  function LedgerOf(c: Chain, t: Token): Balances {
    if t in c.ledgers then c.ledgers[t] else map[]
  }

  function BalanceOf(c: Chain, t: Token, holder: Address): nat {
    Bal(LedgerOf(c, t), holder)
  }

  /** The pair at `p` together with the two ledgers it trades. */
  function PairAt(c: Chain, p: Address): PairState
    requires p in c.pools
  {
    var pool := c.pools[p];
    PairState(p, LedgerOf(c, pool.token0), LedgerOf(c, pool.token1),
              pool.reserve0, pool.reserve1, pool.lp, pool.allowance, pool.totalSupply)
  }

  function PutPair(c: Chain, p: Address, s: PairState): Chain
    requires p in c.pools
  {
    var pool := c.pools[p];
    c.(ledgers := c.ledgers[pool.token0 := s.token0][pool.token1 := s.token1],
       pools := c.pools[p := pool.(reserve0 := s.reserve0, reserve1 := s.reserve1,
                                   lp := s.lp, allowance := s.allowance, totalSupply := s.totalSupply)])
  }

  // ----- the factory -----------------------------------------------------------------------

  function SortTokens(a: Token, b: Token): (Token, Token) {
    if a < b then (a, b) else (b, a)
  }

  function Registered(c: Chain, a: Token, b: Token): Address {
    if (a, b) in c.getPair then c.getPair[(a, b)] else 0
  }

  /** Every registered pair is found under both orders of its tokens, is deployed, and trades
      exactly those two tokens in sorted order; no two token pairs share a pair contract. */
  ghost predicate Registry(c: Chain) {
    && (forall key :: key in c.getPair ==>
          var p := c.getPair[key];
          && p != 0 && p in c.pools && key.0 != key.1
          && (c.pools[p].token0, c.pools[p].token1) == SortTokens(key.0, key.1)
          && (key.1, key.0) in c.getPair && c.getPair[(key.1, key.0)] == p)
    && (forall p :: p in c.pools ==>
          (c.pools[p].token0, c.pools[p].token1) in c.getPair
          && c.getPair[(c.pools[p].token0, c.pools[p].token1)] == p)
  }

  /** Deploying at the unused address `deployed`. */
  function CreatePair(c: Chain, a: Token, b: Token, deployed: Address): Outcome<Chain> {
    var (token0, token1) := SortTokens(a, b);
    if a == b then Revert(IdenticalTokens)
    else if token0 == 0 then Revert(ZeroAddress)
    else if Registered(c, token0, token1) != 0 then Revert(PairExists)
    else
      Ok(c.(pools := c.pools[deployed := Pool(token0, token1, 0, 0, map[], map[], 0)],
            getPair := c.getPair[(token0, token1) := deployed][(token1, token0) := deployed]))
  }

  function PairFor(c: Chain, a: Token, b: Token): Outcome<Address> {
    if Registered(c, a, b) == 0 then Revert(PairNotFound) else Ok(Registered(c, a, b))
  }

  /** Reserves in the order the caller named the tokens. */
  function GetReserves(c: Chain, a: Token, b: Token): Outcome<(nat, nat)> {
    var p :- PairFor(c, a, b);
    if p !in c.pools then Revert(PairNotFound)
    else if a == SortTokens(a, b).0 then Ok((c.pools[p].reserve0, c.pools[p].reserve1))
    else Ok((c.pools[p].reserve1, c.pools[p].reserve0))
  }

  // ----- the router ------------------------------------------------------------------------

  function NextAmount(c: Chain, amount: nat, input: Token, output: Token): Outcome<nat> {
    var reserves :- GetReserves(c, input, output);
    GetAmountOut(amount, reserves.0, reserves.1)
  }

  function AmountsFrom(c: Chain, amount: nat, path: seq<Token>): (r: Outcome<seq<nat>>)
    requires path != []
    ensures r.Ok? ==> |r.value| == |path|
    decreases |path|
  {
    if |path| == 1 then Ok([amount])
    else
      var next :- NextAmount(c, amount, path[0], path[1]);
      var rest :- AmountsFrom(c, next, path[1..]);
      Ok([amount] + rest)
  }

  function GetAmountsOut(c: Chain, amountIn: nat, path: seq<Token>): (r: Outcome<seq<nat>>)
    ensures r.Ok? ==> |r.value| == |path| >= 2
  {
    if |path| < 2 then Revert(InvalidPath) else AmountsFrom(c, amountIn, path)
  }

  function SwapAt(c: Chain, p: Address, amount0Out: nat, amount1Out: nat, to: Address): Outcome<Chain> {
    if p !in c.pools then Revert(PairNotFound)
    else
      var s :- Swap(PairAt(c, p), amount0Out, amount1Out, to);
      Ok(PutPair(c, p, s))
  }

  /** One turn of the router's loop: swap `input` for `output` and pay `to`. */
  function Hop(c: Chain, input: Token, output: Token, amountOut: nat, to: Address): Outcome<Chain> {
    var p :- PairFor(c, input, output);
    if input == SortTokens(input, output).0 then SwapAt(c, p, 0, amountOut, to)
    else SwapAt(c, p, amountOut, 0, to)
  }

  /** Hop after hop; each pays the pair of the next hop, the last pays `to`. */
  function SwapPath(c: Chain, amounts: seq<nat>, path: seq<Token>, to: Address): Outcome<Chain>
    requires |amounts| == |path| > 0
    decreases |path|
  {
    if |path| == 1 then Ok(c)
    else
      var payee :- if |path| > 2 then PairFor(c, path[1], path[2]) else Ok(to);
      var next :- Hop(c, path[0], path[1], amounts[1], payee);
      SwapPath(next, amounts[1..], path[1..], to)
  }

  function TransferToken(c: Chain, t: Token, from: Address, to: Address, amount: nat): Outcome<Chain> {
    if amount <= BalanceOf(c, t, from)
    then Ok(c.(ledgers := c.ledgers[t := Moved(LedgerOf(c, t), from, to, amount)]))
    else Revert(InsufficientBalance)
  }

  function SwapExact(c: Chain, amountIn: nat, amountOutMin: nat, path: seq<Token>, payer: Address, to: Address)
    : Outcome<(Chain, seq<nat>)>
  {
    var amounts :- GetAmountsOut(c, amountIn, path);
    var _ :- Require(amounts[|amounts| - 1] >= amountOutMin, InsufficientOutput);
    var first :- PairFor(c, path[0], path[1]);
    var paid :- TransferToken(c, path[0], payer, first, amounts[0]);
    var done :- SwapPath(paid, amounts, path, to);
    Ok((done, amounts))
  }

  // ----- liquidity through the router --------------------------------------------------------

  /** What is deposited for what is desired: all of it into an empty pool, else one side in full
      and the other at the pool's price. */
  function OptimalAmounts(reserveA: nat, reserveB: nat, desiredA: nat, desiredB: nat, minA: nat, minB: nat)
    : Outcome<(nat, nat)>
  {
    if reserveA == 0 && reserveB == 0 then Ok((desiredA, desiredB))
    else
      var optimalB :- Quote(desiredA, reserveA, reserveB);
      if optimalB <= desiredB then
        var _ :- Require(optimalB >= minB, InsufficientBAmount);
        Ok((desiredA, optimalB))
      else
        var optimalA :- Quote(desiredB, reserveB, reserveA);
        var _ :- Require(optimalA <= desiredA && optimalA >= minA, InsufficientAAmount);
        Ok((optimalA, desiredB))
  }

  /** The pair for two tokens, deployed at `deployed` if there is none yet. */
  function WithPair(c: Chain, a: Token, b: Token, deployed: Address): Outcome<Chain> {
    if Registered(c, a, b) == 0 then CreatePair(c, a, b, deployed) else Ok(c)
  }

  ghost function MintAt(c: Chain, p: Address, to: Address): Outcome<(Chain, nat)> {
    if p !in c.pools then Revert(PairNotFound)
    else
      var minted :- Mint(PairAt(c, p), to);
      Ok((PutPair(c, p, minted.0), minted.1))
  }

  datatype Deposit = Deposit(chain: Chain, amountA: nat, amountB: nat, liquidity: nat)

  ghost function AddLiquidity(
    c: Chain, a: Token, b: Token, desiredA: nat, desiredB: nat, minA: nat, minB: nat, payer: Address, to: Address,
    deployed: Address): Outcome<Deposit>
  {
    var ready :- WithPair(c, a, b, deployed);
    var reserves :- GetReserves(ready, a, b);
    var amounts :- OptimalAmounts(reserves.0, reserves.1, desiredA, desiredB, minA, minB);
    var p :- PairFor(ready, a, b);
    var paidA :- TransferToken(ready, a, payer, p, amounts.0);
    var paidB :- TransferToken(paidA, b, payer, p, amounts.1);
    var minted :- MintAt(paidB, p, to);
    Ok(Deposit(minted.0, amounts.0, amounts.1, minted.1))
  }

  /** `router` spends the payer's liquidity tokens; the outputs come in the order of the names. */
  function RemoveLiquidity(
    c: Chain, a: Token, b: Token, liquidity: nat, minA: nat, minB: nat, router: Address, payer: Address, to: Address)
    : Outcome<(Chain, nat, nat)>
  {
    var p :- PairFor(c, a, b);
    if p !in c.pools then Revert(PairNotFound)
    else
      var moved :- TransferFromLp(PairAt(c, p), router, payer, p, liquidity);
      var burned :- Burn(moved, to);
      var (amountA, amountB) := if a == SortTokens(a, b).0 then (burned.1, burned.2) else (burned.2, burned.1);
      var _ :- Require(amountA >= minA && amountB >= minB, InsufficientAmounts);
      Ok((PutPair(c, p, burned.0), amountA, amountB))
  }
}
