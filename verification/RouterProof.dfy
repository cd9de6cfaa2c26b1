/** A quoted path executes: the router's prices and the pairs' checks fit together across hops. */
module RouterProof {
  import opened TokenLedger
  import opened PairSpec
  import opened PoolMath
  import opened PairArithmetic
  import opened Quotes
  import opened RouterSpec

  // ----- the registry ----------------------------------------------------------------------

  lemma CreatePairKeepsRegistry(c: Chain, a: Token, b: Token, deployed: Address)
    requires Registry(c) && deployed != 0 && deployed !in c.pools
    requires CreatePair(c, a, b, deployed).Ok?
    ensures Registry(CreatePair(c, a, b, deployed).value)
    ensures var d := CreatePair(c, a, b, deployed).value;
            && PairFor(d, a, b) == PairFor(d, b, a) == Ok(deployed)
            && CreatePair(d, a, b, deployed + 1) == CreatePair(d, b, a, deployed + 1) == Revert(PairExists)
  {
    NewPairFound(c, a, b, deployed);
  }

  lemma NewPairFound(c: Chain, a: Token, b: Token, deployed: Address)
    requires deployed != 0 && CreatePair(c, a, b, deployed).Ok?
    ensures var d := CreatePair(c, a, b, deployed).value;
            && PairFor(d, a, b) == PairFor(d, b, a) == Ok(deployed)
            && CreatePair(d, a, b, deployed + 1) == CreatePair(d, b, a, deployed + 1) == Revert(PairExists)
  {
  }

  // ----- one hop ---------------------------------------------------------------------------

  /** The side of pool `p` that holds token `t`. */
  function ReserveOf(c: Chain, p: Address, t: Token): nat
    requires p in c.pools
  {
    if t == c.pools[p].token0 then c.pools[p].reserve0 else c.pools[p].reserve1
  }

  ghost predicate Trades(c: Chain, p: Address, a: Token, b: Token) {
    a != b && p in c.pools && PairFor(c, a, b) == Ok(p)
    && (c.pools[p].token0, c.pools[p].token1) == SortTokens(a, b)
  }

  /** The pool is backed on both sides, its input side already holding `amountIn` on top. */
  ghost predicate PaidPool(c: Chain, p: Address, a: Token, b: Token, amountIn: nat) {
    && Trades(c, p, a, b)
    && 0 < ReserveOf(c, p, a) <= MAX_UINT112 && 0 < ReserveOf(c, p, b) <= MAX_UINT112
    && ReserveOf(c, p, a) + amountIn <= BalanceOf(c, a, p)
    && ReserveOf(c, p, b) <= BalanceOf(c, b, p)
  }

  /** The pool after it swapped: reserves are balances, `amountOut` went to `to`. */
  function AfterHop(c: Chain, p: Address, a: Token, b: Token, amountOut: nat, to: Address): Chain
    requires p in c.pools && amountOut <= BalanceOf(c, b, p)
  {
    var inBalance, outBalance := BalanceOf(c, a, p), BalanceOf(c, b, p) - amountOut;
    var pool := c.pools[p];
    c.(ledgers := c.ledgers[a := LedgerOf(c, a)][b := Moved(LedgerOf(c, b), p, to, amountOut)],
       pools := c.pools[p := if a == pool.token0 then pool.(reserve0 := inBalance, reserve1 := outBalance)
                             else pool.(reserve0 := outBalance, reserve1 := inBalance)])
  }

  /** Paying the quoted output keeps the fee-adjusted product, also when the pool holds more
      than its reserves on either side. */
  lemma QuoteKeepsCheck(x: nat, y: nat, a: nat, out: nat, bx: nat, by': nat)
    requires x > 0 && x + a <= bx && out <= y <= by'
    requires out <= OutFor(a, x, y)
    ensures (bx * 1000 - (bx - x) * 3) * ((by' - out) * 1000 - (by' - y) * 3) >= (x * y) * 1000000
  {
    QuoteSolvesCheck(x, y, a, out);
    ScaledFactor(1000 * x + 997 * a, y - out, x * y);
    ProductMonotone(1000 * x + 997 * a, (y - out) * 1000, bx * 1000 - (bx - x) * 3,
                    (by' - out) * 1000 - (by' - y) * 3);
  }

  /** The fee check in terms of input side `x` and output side `y`, which may be either token. */
  function SideCheck(x: nat, y: nat, bx: nat, by': nat, zeroForOne: bool, amountOut: nat): Outcome<()>
    requires x <= bx && amountOut <= y <= by'
  {
    if zeroForOne then CheckK(bx, by' - amountOut, bx - x, by' - y, x * y)
    else CheckK(by' - amountOut, bx, by' - y, bx - x, y * x)
  }

  /** The quoted output passes the check, whichever side pays. */
  lemma CheckPasses(x: nat, y: nat, bx: nat, by': nat, zeroForOne: bool, amountIn: nat, amountOut: nat)
    requires 0 < x && x + amountIn <= bx <= MAX_UINT112 && x <= MAX_UINT112
    requires amountOut <= y <= by' && y <= MAX_UINT112 && by' - amountOut <= MAX_UINT112
    requires amountOut <= OutFor(amountIn, x, y)
    ensures SideCheck(x, y, bx, by', zeroForOne, amountOut) == Ok(())
  {
    ProductsFit(x, y);
    QuoteKeepsCheck(x, y, amountIn, amountOut, bx, by');
    Commute(bx * 1000 - (bx - x) * 3, (by' - amountOut) * 1000 - (by' - y) * 3);
    Commute(x, y);
    CheckKOutcome(bx, by' - amountOut, bx - x, by' - y, x * y);
    CheckKOutcome(by' - amountOut, bx, by' - y, bx - x, y * x);
  }

  lemma KeepsProduct(x: nat, y: nat, a: nat, out: nat, bx: nat, by': nat)
    requires x > 0 && y > 0 && x + a <= bx && y <= by' && out == OutFor(a, x, y)
    ensures out < y && x * y <= bx * (by' - out)
  {
    QuoteBelowReserve(a, x, y);
    QuoteKeepsCheck(x, y, a, out, bx, by');
    AdjustedCheckKeepsK(bx, by' - out, bx - x, by' - y, x * y);
  }

  /** A hop is the fee check and the width of the new reserves, nothing else. */
  lemma HopUnfolds(c: Chain, p: Address, a: Token, b: Token, amountOut: nat, to: Address)
    requires Trades(c, p, a, b) && to != p && 0 < amountOut < ReserveOf(c, p, b) <= BalanceOf(c, b, p)
    requires 0 < ReserveOf(c, p, a) < BalanceOf(c, a, p)
    ensures Hop(c, a, b, amountOut, to).Ok? <==>
              && FeeCheck(PairAt(c, p), a == SortTokens(a, b).0, amountOut).Ok?
              && BalanceOf(c, a, p) <= MAX_UINT112 && BalanceOf(c, b, p) - amountOut <= MAX_UINT112
    ensures Hop(c, a, b, amountOut, to).Ok? ==> Hop(c, a, b, amountOut, to).value == AfterHop(c, p, a, b, amountOut, to)
  {
    SwapUnfolds(PairAt(c, p), a == SortTokens(a, b).0, amountOut, to);
  }

  /** The fee check of a hop in terms of its input and output side. */
  lemma FeeCheckSides(c: Chain, p: Address, a: Token, b: Token, amountOut: nat)
    requires Trades(c, p, a, b) && amountOut <= ReserveOf(c, p, b) <= BalanceOf(c, b, p)
    requires ReserveOf(c, p, a) <= BalanceOf(c, a, p)
    ensures FeeCheck(PairAt(c, p), a == SortTokens(a, b).0, amountOut) ==
            SideCheck(ReserveOf(c, p, a), ReserveOf(c, p, b), BalanceOf(c, a, p), BalanceOf(c, b, p),
                      a == SortTokens(a, b).0, amountOut)
  {
  }

  lemma Commute(a: nat, b: nat)
    ensures a * b == b * a
  {
  }

  // ----- every hop of a path ---------------------------------------------------------------

  ghost function PairsOf(c: Chain, path: seq<Token>): (r: seq<Address>)
    ensures |path| > 0 ==> |r| == |path| - 1
    decreases |path|
  {
    if |path| <= 1 then [] else [Registered(c, path[0], path[1])] + PairsOf(c, path[1..])
  }

  ghost predicate Distinct(pairs: seq<Address>) {
    forall i, j :: 0 <= i < j < |pairs| ==> pairs[i] != pairs[j]
  }

  /** `amounts` are the quotes along `path`; the first pool already holds `received` of its
      input token beyond its reserve. */
  ghost predicate Ready(c: Chain, amounts: seq<nat>, path: seq<Token>, received: nat)
    decreases |path|
  {
    && |amounts| == |path| >= 1
    && (|path| > 1 ==>
          var p := Registered(c, path[0], path[1]);
          && amounts[0] > 0 && amounts[1] > 0
          && PaidPool(c, p, path[0], path[1], received)
          && amounts[1] == OutFor(amounts[0], ReserveOf(c, p, path[0]), ReserveOf(c, p, path[1]))
          && Ready(c, amounts[1..], path[1..], 0))
  }

  /** Every pool on the path can store the two balances its hop leaves, the first pool counting
      `pending` that is still to arrive. */
  ghost predicate Fits(c: Chain, amounts: seq<nat>, path: seq<Token>, pending: nat)
    requires |amounts| == |path| >= 1
    decreases |path|
  {
    |path| > 1 ==>
      var p := Registered(c, path[0], path[1]);
      && BalanceOf(c, path[0], p) + pending <= MAX_UINT112
      && BalanceOf(c, path[1], p) <= MAX_UINT112 + amounts[1]
      && Fits(c, amounts[1..], path[1..], amounts[1])
  }

  /** `d` is `c` as far as the pools on `path` can tell, except that the first of them received
      `extra` of its input token. */
  ghost predicate Credited(c: Chain, d: Chain, path: seq<Token>, extra: nat) {
    && d.getPair == c.getPair
    && (forall q :: q in PairsOf(c, path) && q in c.pools ==> q in d.pools && d.pools[q] == c.pools[q])
    && (forall q, t :: q in PairsOf(c, path) ==>
          BalanceOf(d, t, q) == BalanceOf(c, t, q) +
          if |path| > 1 && q == PairsOf(c, path)[0] && t == path[0] then extra else 0)
  }

  lemma {:induction false} CreditedTail(c: Chain, d: Chain, path: seq<Token>, extra: nat)
    requires |path| > 1 && Credited(c, d, path, extra) && Distinct(PairsOf(c, path))
    ensures Credited(c, d, path[1..], 0) && Distinct(PairsOf(c, path[1..]))
    ensures PairsOf(c, path)[0] !in PairsOf(c, path[1..])
  {
    var all, tail := PairsOf(c, path), PairsOf(c, path[1..]);
    assert all == [all[0]] + tail;
    assert forall i :: 0 <= i < |tail| ==> tail[i] == all[i + 1];
    assert forall q :: q in tail ==> q in all && q != all[0];
  }

  lemma {:induction false} ReadyAfterCredit(c: Chain, d: Chain, amounts: seq<nat>, path: seq<Token>, extra: nat)
    requires |amounts| == |path| >= 1
    requires Credited(c, d, path, extra) && Distinct(PairsOf(c, path))
    requires Ready(c, amounts, path, 0)
    ensures Ready(d, amounts, path, extra)
    ensures Fits(d, amounts, path, 0) <==> Fits(c, amounts, path, extra)
    decreases |path|
  {
    if |path| > 1 {
      var p := Registered(c, path[0], path[1]);
      assert p == PairsOf(c, path)[0] && p in PairsOf(c, path);
      CreditedTail(c, d, path, extra);
      ReadyAfterCredit(c, d, amounts[1..], path[1..], 0);
      FitsSame(c, d, amounts[1..], path[1..], amounts[1]);
    }
  }

  lemma {:induction false} FitsSame(c: Chain, d: Chain, amounts: seq<nat>, path: seq<Token>, pending: nat)
    requires |amounts| == |path| >= 1
    requires Credited(c, d, path, 0) && Distinct(PairsOf(c, path))
    ensures Fits(d, amounts, path, pending) <==> Fits(c, amounts, path, pending)
    decreases |path|
  {
    if |path| > 1 {
      assert PairsOf(c, path)[0] in PairsOf(c, path);
      CreditedTail(c, d, path, 0);
      FitsSame(c, d, amounts[1..], path[1..], amounts[1]);
    }
  }

  lemma {:induction false} PairsOfSame(c: Chain, d: Chain, path: seq<Token>)
    requires c.getPair == d.getPair
    ensures PairsOf(c, path) == PairsOf(d, path)
    decreases |path|
  {
    if |path| > 1 {
      PairsOfSame(c, d, path[1..]);
    }
  }

  function KOf(c: Chain, p: Address): nat
    requires p in c.pools
  {
    c.pools[p].reserve0 * c.pools[p].reserve1
  }

  ghost predicate Synced(c: Chain, p: Address)
    requires p in c.pools
  {
    && c.pools[p].reserve0 == BalanceOf(c, c.pools[p].token0, p)
    && c.pools[p].reserve1 == BalanceOf(c, c.pools[p].token1, p)
  }

  /** What executing `path` did to the pools: only those on it changed, none lost product, and
      each is in balance with its reserves. */
  ghost predicate PoolsDone(c: Chain, d: Chain, path: seq<Token>) {
    && d.getPair == c.getPair && d.pools.Keys == c.pools.Keys
    && (forall q :: q in c.pools && q !in PairsOf(c, path) ==> d.pools[q] == c.pools[q])
    && (forall q :: q in c.pools && q in PairsOf(c, path) ==> PoolDone(c, d, q))
  }

  ghost predicate PoolDone(c: Chain, d: Chain, q: Address)
    requires q in c.pools && q in d.pools
  {
    KOf(c, q) <= KOf(d, q) && Synced(d, q)
  }

  /** What executing `path` did to holders off the path: only `to` gained, the last amount. */
  ghost predicate HoldersDone(c: Chain, d: Chain, amounts: seq<nat>, path: seq<Token>, to: Address)
    requires |amounts| == |path| >= 1
  {
    forall t, h :: h !in PairsOf(c, path) ==>
      BalanceOf(d, t, h) == BalanceOf(c, t, h) +
      if h == to && |path| > 1 && t == path[|path| - 1] then amounts[|path| - 1] else 0
  }

  ghost predicate PathDone(c: Chain, d: Chain, amounts: seq<nat>, path: seq<Token>, to: Address)
    requires |amounts| == |path| >= 1
  {
    PoolsDone(c, d, path) && HoldersDone(c, d, amounts, path, to)
  }

  ghost function Payee(c: Chain, path: seq<Token>, to: Address): Address
    requires |path| > 1
  {
    if |path| > 2 then PairsOf(c, path)[1] else to
  }

  lemma PayeeKnown(c: Chain, amounts: seq<nat>, path: seq<Token>, to: Address)
    requires |amounts| == |path| > 1 && Ready(c, amounts, path, amounts[0])
    requires Distinct(PairsOf(c, path)) && to !in PairsOf(c, path)
    ensures Payee(c, path, to) != PairsOf(c, path)[0]
    ensures |path| > 2 ==> PairFor(c, path[1], path[2]) == Ok(Payee(c, path, to))
  {
    var pairs := PairsOf(c, path);
    assert pairs == [pairs[0]] + PairsOf(c, path[1..]);
    assert pairs[0] in pairs;
    if |path| > 2 {
      assert pairs[1] == PairsOf(c, path[1..])[0];
      assert Ready(c, amounts[1..], path[1..], 0);
    }
  }

  /** The first hop of a ready path. */
  lemma FirstHop(c: Chain, amounts: seq<nat>, path: seq<Token>, to: Address)
    requires |amounts| == |path| > 1 && Ready(c, amounts, path, amounts[0])
    requires Payee(c, path, to) != PairsOf(c, path)[0]
    ensures var p, payee := PairsOf(c, path)[0], Payee(c, path, to);
            && p in c.pools && amounts[1] <= BalanceOf(c, path[1], p)
            && (Hop(c, path[0], path[1], amounts[1], payee).Ok? <==>
                  BalanceOf(c, path[0], p) <= MAX_UINT112 && BalanceOf(c, path[1], p) - amounts[1] <= MAX_UINT112)
            && (Hop(c, path[0], path[1], amounts[1], payee).Ok? ==>
                  var next := AfterHop(c, p, path[0], path[1], amounts[1], payee);
                  Hop(c, path[0], path[1], amounts[1], payee) == Ok(next) && PoolDone(c, next, p))
  {
    var p, payee := PairsOf(c, path)[0], Payee(c, path, to);
    assert p == Registered(c, path[0], path[1]);
    var a, b := path[0], path[1];
    QuoteBelowReserve(amounts[0], ReserveOf(c, p, a), ReserveOf(c, p, b));
    HopUnfolds(c, p, a, b, amounts[1], payee);
    AfterHopPool(c, p, a, b, amounts[0], amounts[1], payee);
    if BalanceOf(c, a, p) <= MAX_UINT112 && BalanceOf(c, b, p) - amounts[1] <= MAX_UINT112 {
      FeeCheckSides(c, p, a, b, amounts[1]);
      CheckPasses(ReserveOf(c, p, a), ReserveOf(c, p, b), BalanceOf(c, a, p), BalanceOf(c, b, p),
                  a == SortTokens(a, b).0, amounts[0], amounts[1]);
    }
  }

  /** A quoted hop leaves the pool in balance and no product lower. */
  lemma AfterHopPool(c: Chain, p: Address, a: Token, b: Token, amountIn: nat, amountOut: nat, to: Address)
    requires PaidPool(c, p, a, b, amountIn) && amountOut == OutFor(amountIn, ReserveOf(c, p, a), ReserveOf(c, p, b))
    requires amountOut < ReserveOf(c, p, b) && to != p
    ensures PoolDone(c, AfterHop(c, p, a, b, amountOut, to), p)
  {
    KeepsProduct(ReserveOf(c, p, a), ReserveOf(c, p, b), amountIn, amountOut, BalanceOf(c, a, p), BalanceOf(c, b, p));
    Commute(ReserveOf(c, p, a), ReserveOf(c, p, b));
    Commute(BalanceOf(c, a, p), BalanceOf(c, b, p) - amountOut);
  }

  lemma CreditNext(c: Chain, path: seq<Token>, amountOut: nat)
    requires |path| > 2 && Distinct(PairsOf(c, path))
    requires var p := PairsOf(c, path)[0]; p in c.pools && amountOut <= BalanceOf(c, path[1], p)
    ensures Credited(c, AfterHop(c, PairsOf(c, path)[0], path[0], path[1], amountOut, PairsOf(c, path)[1]),
                     path[1..], amountOut)
    ensures Distinct(PairsOf(c, path[1..]))
  {
    var pairs, tail := PairsOf(c, path), PairsOf(c, path[1..]);
    assert pairs == [pairs[0]] + tail;
    assert forall i :: 0 <= i < |tail| ==> tail[i] == pairs[i + 1];
    forall q, t | q in tail
      ensures BalanceOf(AfterHop(c, pairs[0], path[0], path[1], amountOut, pairs[1]), t, q) ==
              BalanceOf(c, t, q) + if q == tail[0] && t == path[1] then amountOut else 0
    {
      var i :| 0 <= i < |tail| && tail[i] == q;
      assert pairs[i + 1] != pairs[0];
      BalanceAfterHop(c, pairs[0], path[0], path[1], amountOut, pairs[1], t, q);
    }
  }

  /** A hop pays one holder and nobody else besides the pool. */
  lemma BalanceAfterHop(c: Chain, p: Address, a: Token, b: Token, amountOut: nat, to: Address, t: Token, h: Address)
    requires p in c.pools && amountOut <= BalanceOf(c, b, p) && h != p
    ensures BalanceOf(AfterHop(c, p, a, b, amountOut, to), t, h) ==
            BalanceOf(c, t, h) + if h == to && t == b then amountOut else 0
  {
  }

  /** Executing a quoted path, the first input already paid: it succeeds exactly when every pool
      can store the balances it is left with. */
  lemma {:induction false} PathExecutes(c: Chain, amounts: seq<nat>, path: seq<Token>, to: Address)
    requires |amounts| == |path| >= 1
    requires Ready(c, amounts, path, amounts[0])
    requires Distinct(PairsOf(c, path)) && to !in PairsOf(c, path)
    ensures SwapPath(c, amounts, path, to).Ok? <==> Fits(c, amounts, path, 0)
    ensures SwapPath(c, amounts, path, to).Ok? ==> PathDone(c, SwapPath(c, amounts, path, to).value, amounts, path, to)
    decreases |path|
  {
    if |path| > 1 {
      PayeeKnown(c, amounts, path, to);
      FirstHop(c, amounts, path, to);
      var p := PairsOf(c, path)[0];
      var payee := Payee(c, path, to);
      if Hop(c, path[0], path[1], amounts[1], payee).Ok? {
        var next := AfterHop(c, p, path[0], path[1], amounts[1], payee);
        var tail := path[1..];
        assert PairsOf(c, path) == [p] + PairsOf(c, tail);
        PairsOfSame(c, next, tail);
        if |path| > 2 {
          CreditNext(c, path, amounts[1]);
          ReadyAfterCredit(c, next, amounts[1..], tail, amounts[1]);
        }
        PathExecutes(next, amounts[1..], tail, to);
        if SwapPath(next, amounts[1..], tail, to).Ok? {
          PathStep(c, next, SwapPath(next, amounts[1..], tail, to).value, amounts, path, to);
        }
      }
    }
  }

  lemma SplitPairs(c: Chain, path: seq<Token>)
    requires |path| > 1 && Distinct(PairsOf(c, path))
    ensures PairsOf(c, path)[0] !in PairsOf(c, path[1..])
    ensures forall q :: q in PairsOf(c, path) <==> q == PairsOf(c, path)[0] || q in PairsOf(c, path[1..])
  {
    var pairs, tail := PairsOf(c, path), PairsOf(c, path[1..]);
    assert pairs == [pairs[0]] + tail;
    assert forall i :: 0 <= i < |tail| ==> tail[i] == pairs[i + 1];
  }

  /** One hop followed by the rest of the path is the whole path. */
  lemma PathStep(c: Chain, next: Chain, d: Chain, amounts: seq<nat>, path: seq<Token>, to: Address)
    requires |amounts| == |path| > 1 && Distinct(PairsOf(c, path)) && to !in PairsOf(c, path)
    requires PairsOf(c, path)[0] in c.pools && amounts[1] <= BalanceOf(c, path[1], PairsOf(c, path)[0])
    requires next == AfterHop(c, PairsOf(c, path)[0], path[0], path[1], amounts[1],
                              Payee(c, path, to))
    requires PoolDone(c, next, PairsOf(c, path)[0])
    requires PathDone(next, d, amounts[1..], path[1..], to)
    ensures PathDone(c, d, amounts, path, to)
  {
    SplitPairs(c, path);
    PairsOfSame(c, next, path[1..]);
    PoolsStep(c, next, d, path, to, amounts[1..]);
    HoldersStep(c, next, d, amounts, path, to);
  }

  lemma PoolsStep(c: Chain, next: Chain, d: Chain, path: seq<Token>, to: Address, rest: seq<nat>)
    requires |path| > 1 && PairsOf(c, path)[0] in c.pools
    requires forall q :: q in PairsOf(c, path) <==> q == PairsOf(c, path)[0] || q in PairsOf(next, path[1..])
    requires PairsOf(c, path)[0] !in PairsOf(next, path[1..]) && to != PairsOf(c, path)[0]
    requires next.getPair == c.getPair && next.pools.Keys == c.pools.Keys
    requires forall q :: q in c.pools && q != PairsOf(c, path)[0] ==> next.pools[q] == c.pools[q]
    requires PoolDone(c, next, PairsOf(c, path)[0])
    requires |rest| == |path| - 1 && PathDone(next, d, rest, path[1..], to)
    ensures PoolsDone(c, d, path)
  {
    var p := PairsOf(c, path)[0];
    forall q | q in c.pools && q in PairsOf(c, path)
      ensures PoolDone(c, d, q)
    {
      if q == p {
        assert d.pools[p] == next.pools[p];
        assert BalanceOf(d, next.pools[p].token0, p) == BalanceOf(next, next.pools[p].token0, p);
        assert BalanceOf(d, next.pools[p].token1, p) == BalanceOf(next, next.pools[p].token1, p);
      } else {
        assert PoolDone(next, d, q);
        assert KOf(next, q) == KOf(c, q);
      }
    }
  }

  lemma HoldersStep(c: Chain, next: Chain, d: Chain, amounts: seq<nat>, path: seq<Token>, to: Address)
    requires |amounts| == |path| > 1 && to !in PairsOf(c, path)
    requires PairsOf(c, path)[0] in c.pools && amounts[1] <= BalanceOf(c, path[1], PairsOf(c, path)[0])
    requires next == AfterHop(c, PairsOf(c, path)[0], path[0], path[1], amounts[1],
                              Payee(c, path, to))
    requires forall q :: q in PairsOf(c, path) <==> q == PairsOf(c, path)[0] || q in PairsOf(next, path[1..])
    requires HoldersDone(next, d, amounts[1..], path[1..], to)
    ensures HoldersDone(c, d, amounts, path, to)
  {
    var p := PairsOf(c, path)[0];
    var payee := Payee(c, path, to);
    assert p in PairsOf(c, path) && (|path| > 2 ==> payee in PairsOf(c, path));
    forall t, h | h !in PairsOf(c, path)
      ensures BalanceOf(d, t, h) == BalanceOf(c, t, h) +
              if h == to && t == path[|path| - 1] then amounts[|path| - 1] else 0
    {
      assert h !in PairsOf(next, path[1..]) && h != p && (|path| > 2 ==> h != payee);
      BalanceAfterHop(c, p, path[0], path[1], amounts[1], payee, t, h);
    }
  }

  // ----- the whole call --------------------------------------------------------------------

  /** Every pool holds at least what its reserves say, as every reachable pair does. */
  ghost predicate Backed(c: Chain) {
    forall p :: p in c.pools ==>
      && c.pools[p].reserve0 <= MAX_UINT112 && c.pools[p].reserve1 <= MAX_UINT112
      && c.pools[p].reserve0 <= BalanceOf(c, c.pools[p].token0, p)
      && c.pools[p].reserve1 <= BalanceOf(c, c.pools[p].token1, p)
  }

  lemma QuoteValue(a: nat, x: nat, y: nat)
    requires GetAmountOut(a, x, y).Ok?
    ensures a > 0 && x > 0 && y > 0 && GetAmountOut(a, x, y).value == OutFor(a, x, y)
  {
  }

  lemma {:induction false} QuotedIsReady(c: Chain, amount: nat, path: seq<Token>)
    requires Registry(c) && Backed(c) && path != []
    requires AmountsFrom(c, amount, path).Ok?
    requires var amounts := AmountsFrom(c, amount, path).value; amounts[|amounts| - 1] > 0
    ensures AmountsFrom(c, amount, path).value[0] == amount
    ensures Ready(c, AmountsFrom(c, amount, path).value, path, 0)
    decreases |path|
  {
    var amounts := AmountsFrom(c, amount, path).value;
    if |path| > 1 {
      var next := NextAmount(c, amount, path[0], path[1]).value;
      assert amounts[1..] == AmountsFrom(c, next, path[1..]).value;
      QuotedIsReady(c, next, path[1..]);
      FirstPaid(c, amount, path[0], path[1]);
    }
  }

  /** A quoted hop is one over a backed pool, at the plain quote. */
  lemma FirstPaid(c: Chain, amount: nat, a: Token, b: Token)
    requires Registry(c) && Backed(c) && NextAmount(c, amount, a, b).Ok?
    ensures amount > 0 && PaidPool(c, Registered(c, a, b), a, b, 0)
    ensures var p := Registered(c, a, b);
            NextAmount(c, amount, a, b).value == OutFor(amount, ReserveOf(c, p, a), ReserveOf(c, p, b))
  {
    var reserves := GetReserves(c, a, b).value;
    QuoteValue(amount, reserves.0, reserves.1);
  }

  /** No hop hands out nothing: a pair refuses a swap with two zero outputs. */
  lemma {:induction false} PathNeedsOutput(c: Chain, amounts: seq<nat>, path: seq<Token>, to: Address)
    requires |amounts| == |path| > 1 && SwapPath(c, amounts, path, to).Ok?
    ensures amounts[|amounts| - 1] > 0
    decreases |path|
  {
    if |path| > 2 {
      var payee := PairFor(c, path[1], path[2]).value;
      var next := Hop(c, path[0], path[1], amounts[1], payee).value;
      PathNeedsOutput(next, amounts[1..], path[1..], to);
    }
  }

  function PaidChain(c: Chain, t: Token, payer: Address, first: Address, amount: nat): Chain
    requires amount <= BalanceOf(c, t, payer)
  {
    c.(ledgers := c.ledgers[t := Moved(LedgerOf(c, t), payer, first, amount)])
  }

  /** The whole call: off the path exactly two balances changed, the payer's of the first token
      and the recipient's of the last. */
  ghost predicate Settled(c: Chain, d: Chain, amounts: seq<nat>, path: seq<Token>, payer: Address, to: Address)
    requires |amounts| == |path| > 1
  {
    && PoolsDone(c, d, path)
    && (forall t, h :: h !in PairsOf(c, path) ==>
          BalanceOf(d, t, h) + (if h == payer && t == path[0] then amounts[0] else 0) ==
          BalanceOf(c, t, h) + (if h == to && t == path[|path| - 1] then amounts[|path| - 1] else 0))
  }

  /** `swapExactTokensForTokens` on a quoted path over distinct pairs, with payer and recipient
      different and off the path: it succeeds exactly when the last quote is positive and at
      least the minimum, the payer can pay, and the pools can store their balances. No pool on
      the path loses product, the recipient gains exactly the last quote and the payer pays
      exactly the input. */
  lemma SwapExactExecutes(c: Chain, amountIn: nat, amountOutMin: nat, path: seq<Token>, payer: Address, to: Address)
    requires Registry(c) && Backed(c)
    requires GetAmountsOut(c, amountIn, path).Ok?
    requires Distinct(PairsOf(c, path))
    requires payer != to && payer !in PairsOf(c, path) && to !in PairsOf(c, path)
    ensures var amounts := GetAmountsOut(c, amountIn, path).value;
            var result := SwapExact(c, amountIn, amountOutMin, path, payer, to);
            && amounts[0] == amountIn
            && (result.Ok? <==>
                  && amounts[|amounts| - 1] > 0 && amounts[|amounts| - 1] >= amountOutMin
                  && amountIn <= BalanceOf(c, path[0], payer)
                  && Fits(c, amounts, path, amountIn))
            && (result.Ok? ==> result.value.1 == amounts && Settled(c, result.value.0, amounts, path, payer, to))
  {
    var amounts := GetAmountsOut(c, amountIn, path).value;
    AmountsStart(c, amountIn, path);
    var first := PairsOf(c, path)[0];
    SwapExactUnfolds(c, amountIn, amountOutMin, path, payer, to, amounts);
    if amountIn <= BalanceOf(c, path[0], payer) {
      var paid := PaidChain(c, path[0], payer, first, amountIn);
      if amounts[|amounts| - 1] > 0 {
        QuotedIsReady(c, amountIn, path);
        PaidPathExecutes(c, amounts, path, payer, to);
      } else if SwapPath(paid, amounts, path, to).Ok? {
        PathNeedsOutput(paid, amounts, path, to);
      }
    }
  }

  /** The call is the minimum check, the payment, and the path. */
  lemma SwapExactUnfolds(c: Chain, amountIn: nat, amountOutMin: nat, path: seq<Token>, payer: Address, to: Address,
                         amounts: seq<nat>)
    requires GetAmountsOut(c, amountIn, path) == Ok(amounts) && amounts[0] == amountIn
    requires PairFor(c, path[0], path[1]) == Ok(PairsOf(c, path)[0])
    ensures var result := SwapExact(c, amountIn, amountOutMin, path, payer, to);
            if amounts[|amounts| - 1] >= amountOutMin && amountIn <= BalanceOf(c, path[0], payer) then
              var done := SwapPath(PaidChain(c, path[0], payer, PairsOf(c, path)[0], amountIn), amounts, path, to);
              (result.Ok? <==> done.Ok?) && (done.Ok? ==> result == Ok((done.value, amounts)))
            else
              result.Revert?
  {
  }

  lemma AmountsStart(c: Chain, amountIn: nat, path: seq<Token>)
    requires GetAmountsOut(c, amountIn, path).Ok?
    ensures GetAmountsOut(c, amountIn, path).value[0] == amountIn
    ensures PairFor(c, path[0], path[1]) == Ok(PairsOf(c, path)[0])
  {
  }

  lemma PaidPathExecutes(c: Chain, amounts: seq<nat>, path: seq<Token>, payer: Address, to: Address)
    requires |amounts| == |path| > 1 && Ready(c, amounts, path, 0)
    requires Distinct(PairsOf(c, path)) && amounts[0] <= BalanceOf(c, path[0], payer)
    requires payer != to && payer !in PairsOf(c, path) && to !in PairsOf(c, path)
    ensures var paid := PaidChain(c, path[0], payer, PairsOf(c, path)[0], amounts[0]);
            var result := SwapPath(paid, amounts, path, to);
            && (result.Ok? <==> Fits(c, amounts, path, amounts[0]))
            && (result.Ok? ==> Settled(c, result.value, amounts, path, payer, to))
  {
    var first := PairsOf(c, path)[0];
    var paid := PaidChain(c, path[0], payer, first, amounts[0]);
    assert first in PairsOf(c, path);
    PairsOfSame(c, paid, path);
    PaymentCredits(c, path, payer, amounts[0]);
    ReadyAfterCredit(c, paid, amounts, path, amounts[0]);
    PathExecutes(paid, amounts, path, to);
    if SwapPath(paid, amounts, path, to).Ok? {
      PaidThenDone(c, paid, SwapPath(paid, amounts, path, to).value, amounts, path, payer, to);
    }
  }

  lemma PaymentCredits(c: Chain, path: seq<Token>, payer: Address, amount: nat)
    requires |path| > 1 && payer !in PairsOf(c, path) && amount <= BalanceOf(c, path[0], payer)
    ensures Credited(c, PaidChain(c, path[0], payer, PairsOf(c, path)[0], amount), path, amount)
  {
  }

  /** The payment moves tokens between the payer and the first pool only, so the account of the
      whole call follows from that of the path. */
  lemma PaidThenDone(c: Chain, paid: Chain, d: Chain, amounts: seq<nat>, path: seq<Token>, payer: Address, to: Address)
    requires |amounts| == |path| > 1 && amounts[0] <= BalanceOf(c, path[0], payer)
    requires payer != to && payer !in PairsOf(c, path) && to !in PairsOf(c, path)
    requires paid == PaidChain(c, path[0], payer, PairsOf(c, path)[0], amounts[0])
    requires PathDone(paid, d, amounts, path, to)
    ensures Settled(c, d, amounts, path, payer, to)
  {
    PairsOfSame(c, paid, path);
    var first := PairsOf(c, path)[0];
    assert first in PairsOf(c, path);
    forall q | q in c.pools && q in PairsOf(c, path)
      ensures PoolDone(c, d, q)
    {
      assert PoolDone(paid, d, q);
      assert KOf(paid, q) == KOf(c, q);
    }
    forall t, h | h !in PairsOf(c, path)
      ensures BalanceOf(d, t, h) + (if h == payer && t == path[0] then amounts[0] else 0) ==
              BalanceOf(c, t, h) + (if h == to && t == path[|path| - 1] then amounts[|path| - 1] else 0)
    {
      assert BalanceOf(paid, t, h) + (if h == payer && t == path[0] then amounts[0] else 0) == BalanceOf(c, t, h);
    }
  }
}
