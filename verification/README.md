# A verified model of the exchange lab

Three state machines of the exchange hold money, and this project proves what they keep.

**The constant-product market maker.** `MathLib` proves the Newton square root. `PairSpec` says on
values what `mint`, `burn`, `swap` and the liquidity-token calls do to a pair and to the two token
ledgers it trades, with checked 256-bit arithmetic and 112-bit reserves; `Pair` is the contract itself,
storage changed in place, each method proved against `PairSpec`. `PairInvariant` carries an invariant
through every run of calls, reverted ones included; `PairArithmetic` shows that nothing overflows and
when each call fails, and `PairOutcome` states on bare balances when each call goes through and what it pays.
`Quotes` is about the router's price formula, `RouterSpec`, `Router`,
`RouterProof` and `LiquidityProof` about the registry, multi-hop swaps and liquidity through the router, and
`RouterOutcome` says when exactly each of those calls goes through.
`ChainInvariant` covers every chain that the factory, the router, token transfers and direct calls of the
pairs can lead to: what the path and liquidity theorems require of a chain holds in all of them.

**Order book, order flow and ledger.** `Matching` is the in-place book over shared order objects,
`OrderBook` its meaning on values and `OrderBookProof` the proof that it is the greedy matcher and stays
sorted and uncrossed; `Depth` is the aggregated view. `Accounts` is the account store, `AccountLedger` its
meaning, `AccountLedgerProof` what every sequence of calls keeps. `OrderFlow` defines the joint invariant
of books, order rows and balances; `OrderFlowProof`, `PlaceProof`, `SettleProof`, `MoneyProof` and
`CancelProof` prove its pieces and `OrderEngine` runs the order service against the stores.
`OrderSettlement` says when exactly all fills of an order settle, `OrderOutcome` what the rows say afterwards.

**Perpetual positions.** `Decimals` is the rounding division, `Perps` the margin arithmetic, `PerpDesk`
the position table next to the ledger, `PerpDeskProof` and `PerpFills` what every run keeps, `Liquidation`
and `PerpService` the scanner and the engine. `PerpOutcome` says when exactly a close is done, refused or
stopped half way and how a position's id gets spent, `PerpRequests` what each request needs and does in bare
sizes, marks and balances, `ScanOutcome` which of the positions at risk a pass of
the scanner removes.

`ExchangeRun` puts orders and positions on one account service: in every state reachable from an empty
exchange a user's frozen balance is the collateral of the resting orders, plus the open margin, plus the
price improvement that fills leave behind. `ExchangeService` runs the engines' own methods on shared stores and
shows that each call that goes through is one event of such a run. `Improvement` says which orders leave an
improvement behind, how large it is, and that no run ever gives any of it back.

`Sequences`, `RealSums` and `RealArithmetic` hold what several modules share.

## How the code is modelled

- Storage and tables are class fields; a transaction or a contract call either commits or changes nothing.
- Amounts of the services are `real`. Sums, differences and products are exact; division rounds half away
  from zero to 16 decimals, the documented default of shopspring/decimal v1.4.0. This is an assumption.
- Contract amounts are naturals with the contracts' overflow checks written out.
- Wall-clock time, uuids, addresses of new contracts and the marks fed by the market are inputs. Ids that
  the code draws at random are required to be unused.
- `sort.Slice` is any permutation sorted by the comparator: the book's specification lets ties fall either
  way.
- A signature such as `ghost other: (string, string) -> real` is what a user has frozen for reasons outside
  the component; `ExchangeRun` closes the loop between orders and positions.

## Where code and documentation part

- `docs/ledger-design.md` works through a fill of two fully collateralised orders. The code debits the
  payers' *available* balances and releases the frozen collateral on top, so that fill fails unless both
  payers hold the amount a second time (`ExchangeRun.DocumentedFillFails`); `SettleProof.SettlesExactly` is
  the exact condition, and `AccountLedgerProof.HeldFallsByReleases` says what it does to the balances' total.
- The price improvement of a buyer stays frozen for good. It is carried as the residue of the invariant, and
  in no run does it fall (`Improvement.ResidueNeverFalls`, `Improvement.ImprovementFrozenForGood`). An order
  leaves none behind, neither its own nor that of a resting buy it hits, if and only if, on the book before
  the call, nothing crosses, or it is a market sell, or the best opposite price equals its limit
  (`Improvement.LeavesNothingExactly`). So all frozen money is still needed after a run if and only if every
  order of the run met that condition (`Improvement.AllFrozenNeeded`). A limit buy filled on arrival leaves
  frozen exactly what its fills saved on the limit (`Improvement.FilledBuyLeavesSavings`); a buy of one at 100
  that meets an ask at 90 leaves 10 (`Improvement.TenStayFrozen`), and so does a sell at 90 that meets a
  resting buy at 100 (`Improvement.RestingBuyLeavesTen`).
- A position's id is its unfreeze reference, and references are unique. After a partial close the rest of a
  position can be neither closed nor liquidated (`PerpDeskProof.PartialCloseSpends`,
  `PerpDeskProof.SpentForever`); `PerpOutcome.HalfCloseStrands` is an example. An id is spent exactly when the
  position was closed before, in part or in an attempt that stopped half way (`PerpOutcome.SpentExactly`).
- A close is not atomic: the margin is unfrozen first, and each later failure leaves it unfrozen while the
  position stays, its id spent. The user cannot pay the loss, the house cannot pay the profit, one of the two
  has no USDT row, or the rest of a partial close keeps no margin and fails the table's check after the profit
  was booked.
  `PerpOutcome.CloseOutcome` is the exact condition for each outcome. So a position whose loss exceeds its
  margin and the user's available balance gets its margin back when it is liquidated, stays open, and can
  never be liquidated again (`PerpOutcome.UnderwaterKeepsMargin`, `PerpDeskProof.SpentForever`);
  `PerpOutcome.RoundedRestFails` is an example of the last failure.
- `docs/perpetual-risk.md` liquidates below a ratio of one; the ratio is rounded, so liquidation starts half
  a step of the sixteenth decimal below one (`Perps.LiquidationThreshold`; `Perps.JustBelowOneSpared` is a
  position with an exact ratio below one that is spared).
- `addLiquidity` does not compare the amount deposited in full with its minimum
  (`LiquidityProof.MinimaKeptExactly`); `LiquidityProof.MinimumIgnored` is a deposit of 10 accepted against a
  minimum of 15.

## Model

| member | source | states |
|---|---|---|
| `MathLib.Sqrt` | contracts/src/amm/libraries/Math.sol:9-20 | for every 256-bit argument the Newton loop terminates without overflow and returns the floor of the square root |
| `MathLib.FloorSqrt` | contracts/src/amm/libraries/Math.sol:9-20 | the root's defining property, z squared at most y and below the next square |
| `MathLib.NewtonStep` | contracts/src/amm/libraries/Math.sol:15-17 | one step computes the mean of x and y / x, and neither sum nor result leaves 256 bits |
| `MathLib.StepFacts` | contracts/src/amm/libraries/Math.sol:13-16 | from above the root a step never falls below it, and a step that does not descend has reached it |
| `TokenLedger.Moved` | contracts/src/amm/UniswapV2ERC20.sol:52-56 | a transfer changes two balances by opposite amounts, or none when sender and recipient coincide |
| `TokenLedger.TotalMoved` | contracts/src/amm/UniswapV2ERC20.sol:52-56 | a transfer conserves the sum of all balances |
| `Pair.Token.Transfer` | contracts/src/amm/UniswapV2ERC20.sol:39-42 | succeeds exactly when the sender holds the amount, and otherwise changes nothing |
| `Pair.UniswapV2Pair.MintTokens` | contracts/src/amm/UniswapV2ERC20.sol:21-25 | supply and one balance grow together, or the call reverts on overflow and changes nothing |
| `Pair.UniswapV2Pair.Transfer` | contracts/src/amm/UniswapV2ERC20.sol:39-42 | the EIP-20 transfer of liquidity tokens, unchanged state on revert |
| `Pair.UniswapV2Pair.Approve` | contracts/src/amm/UniswapV2ERC20.sol:33-37 | sets one allowance |
| `Pair.UniswapV2Pair.TransferFrom` | contracts/src/amm/UniswapV2ERC20.sol:44-50 | spends the allowance unless it is the maximum, and restores it when the transfer reverts |
| `Pair.UniswapV2Pair.Update` | contracts/src/amm/UniswapV2Pair.sol:47-54 | reserves become balances, or the call reverts above 112 bits |
| `Pair.UniswapV2Pair.LiquidityOf` | contracts/src/amm/UniswapV2Pair.sol:60-69 | liquidity owed: root of the product less the locked minimum first, the smaller proportional share later; `PairOutcome.MintPays` states the amount without naming the formula |
| `Pair.UniswapV2Pair.Mint` | contracts/src/amm/UniswapV2Pair.sol:56-76 | the whole new state of a mint, or an unchanged pair with the reason of the revert; amounts in `PairOutcome.MintPays` |
| `Pair.UniswapV2Pair.Burn` | contracts/src/amm/UniswapV2Pair.sol:78-99 | the whole new state of a burn on pair and both ledgers, everything restored on revert |
| `Pair.UniswapV2Pair.Swap` | contracts/src/amm/UniswapV2Pair.sol:101-123 | the whole new state of a swap, payouts taken back when the fee check fails |
| `Pair.UniswapV2Pair.FinishSwap` | contracts/src/amm/UniswapV2Pair.sol:108-122 | input recovered from balances, the fee-adjusted check of section 3.2.1 of the Uniswap v2 Core whitepaper, new reserves |
| `PairInvariant.MintKeepsInv` | contracts/src/amm/UniswapV2Pair.sol:56-76 | a mint keeps the invariant and never lowers reserve0 * reserve1 / totalSupply squared |
| `PairInvariant.BurnKeepsInv` | contracts/src/amm/UniswapV2Pair.sol:78-99 | the same for a burn |
| `PairInvariant.SwapKeepsInv` | contracts/src/amm/UniswapV2Pair.sol:101-123 | the same for a swap: the fee check implies the product does not fall |
| `PairInvariant.LpMoveKeepsInv` | contracts/src/amm/UniswapV2ERC20.sol:52-56 | moving liquidity tokens keeps the invariant and the tokens locked at address zero |
| `PairInvariant.LpSpendKeepsInv` | contracts/src/amm/UniswapV2ERC20.sol:44-50 | the same through an allowance |
| `PairInvariant.StepKeepsInv` | contracts/src/amm/UniswapV2Pair.sol:47-123 | every call from outside keeps the invariant, reverted or not |
| `PairInvariant.RunKeepsInv` | contracts/src/amm/UniswapV2Pair.sol:47-123 | over every run the invariant holds, liquidity never disappears and the reserves behind each liquidity token never fall |
| `PairInvariant.ReachableFromEmpty` | contracts/src/amm/UniswapV2Pair.sol:47-123 | from an empty pair: reserves within balances, balances of liquidity sum to the supply, supply 0 or at least 1000, supply squared at most the product, both reserves zero or both positive |
| `PairArithmetic.MintOutcome` | contracts/src/amm/UniswapV2Pair.sol:56-76 | with balances within 112 bits a mint fails exactly for a first deposit below the minimum or a deposit worth no liquidity, and for no other reason: nothing overflows |
| `PairArithmetic.BurnOutcome` | contracts/src/amm/UniswapV2Pair.sol:78-99 | with balances within 112 bits a burn succeeds exactly when both redeemed amounts are positive |
| `PairArithmetic.SwapNeverOverflows` | contracts/src/amm/UniswapV2Pair.sol:101-123 | with balances within 112 bits no sum or product of a swap overflows |
| `PairArithmetic.CheckKOutcome` | contracts/src/amm/UniswapV2Pair.sol:115-120 | the checked fee inequality is the plain one |
| `PairOutcome.MintPays` | contracts/src/amm/UniswapV2Pair.sol:56-76 | the liquidity l of a first deposit satisfies (l + 1000) squared at most a0 * a1 below (l + 1001) squared; of a later one l is the largest number whose share of neither reserve exceeds its deposit; it goes to the recipient, with 1000 locked the first time |
| `PairOutcome.MintsExactly` | contracts/src/amm/UniswapV2Pair.sol:64-70 | a mint succeeds if and only if a first deposit has a product of at least 1001 squared, or both sides of a later one are worth a whole liquidity token |
| `PairOutcome.SwapsExactly` | contracts/src/amm/UniswapV2Pair.sol:101-123 | a swap succeeds if and only if it asks for something, leaves both reserves, something came in and the product less three thousandths of the inputs did not fall; the payouts go to the recipient and nobody else gains |
| `PairOutcome.TransfersExactly` | contracts/src/amm/UniswapV2ERC20.sol:52-56 | a transfer of liquidity tokens needs nothing but the balance and moves exactly the value |
| `PairOutcome.SpendsExactly` | contracts/src/amm/UniswapV2ERC20.sol:44-50 | spending needs balance and allowance; a finite allowance falls by the value moved, a maximal one stays, no other changes |
| `PairOutcome.ApprovesExactly` | contracts/src/amm/UniswapV2ERC20.sol:33-37 | an approval sets one allowance and nothing else |
| `Quotes.QuoteIsExact` | contracts/src/amm/UniswapV2Router.sol:78-88 | on a synced pair that received the input, swap accepts exactly the positive outputs up to the quote |
| `Quotes.SplittingNeverGains` | contracts/src/amm/UniswapV2Router.sol:78-88 | swapping a then b yields at most the output of a + b, floors included |
| `Quotes.SwapAndBackLoses` | contracts/src/amm/UniswapV2Router.sol:78-88 | swapping there and back at quotes returns strictly less than was put in |
| `Quotes.MintThenBurnNeverGains` | contracts/src/amm/UniswapV2Pair.sol:56-99 | minting and burning the same liquidity returns at most the deposit of each token |
| `RouterProof.CreatePairKeepsRegistry` | contracts/src/amm/UniswapV2Factory.sol:22-35 | the registry stays symmetric and injective, the new pair is found under both orders, and creating it again fails |
| `RouterProof.FirstHop` | contracts/src/amm/UniswapV2Router.sol:128-138 | the next hop of a quoted path succeeds exactly when the new balances fit 112 bits, leaves exactly the quoted output missing from the pool and does not lower its product |
| `RouterProof.CheckPasses` | contracts/src/amm/UniswapV2Pair.sol:115-120 | paying the quote passes the pair's fee check, also on a pool holding more than its reserves |
| `RouterProof.PathExecutes` | contracts/src/amm/UniswapV2Router.sol:128-138 | over distinct pairs every hop passes, no pool's product falls, and off the path only the recipient gains, the last amount |
| `RouterProof.SwapExactExecutes` | contracts/src/amm/UniswapV2Router.sol:51-62 | on a quoted path: success if and only if the last quote is positive and at least the minimum, the payer can pay and balances fit; exact balance changes of payer and recipient |
| `Router.Exchange.CreatePair` | contracts/src/amm/UniswapV2Factory.sol:22-35 | registers one new pair under both token orders or reverts without effect |
| `Router.Exchange.GetAmountsOut` | contracts/src/amm/UniswapV2Router.sol:64-76 | the array-filling loop computes the chained quotes, or the first failure |
| `Router.Exchange.SwapAt` | contracts/src/amm/UniswapV2Pair.sol:101-123 | a swap called on the deployed pair leaves its storage and both ledgers, or nothing when it reverts |
| `Router.Exchange.SwapTokens` | contracts/src/amm/UniswapV2Router.sol:130-136 | one hop: the output amount goes to the side of the output token |
| `Router.Exchange.SwapHops` | contracts/src/amm/UniswapV2Router.sol:128-138 | the hop loop is the path of swaps, all undone when one reverts |
| `Router.Exchange.SwapExactTokensForTokens` | contracts/src/amm/UniswapV2Router.sol:51-62 | quote, minimum, payment and path as one atomic call |
| `Router.Exchange.OptimalAmounts` | contracts/src/amm/UniswapV2Router.sol:103-119 | the branches that choose the deposited amounts |
| `Router.Exchange.AddLiquidity` | contracts/src/amm/UniswapV2Router.sol:17-32 | pair creation, amounts, both payments and the mint as one atomic call |
| `Router.Exchange.RemoveLiquidity` | contracts/src/amm/UniswapV2Router.sol:34-49 | allowance, burn and minima as one atomic call, amounts in the caller's token order |
| `LiquidityProof.OptimalIsProportional` | contracts/src/amm/UniswapV2Router.sol:95-126 | at most the desired amounts, one in full and the other at the pool's price rounded down; the guard on amountAOptimal never fails on its first half |
| `LiquidityProof.MinimaKeptExactly` | contracts/src/amm/UniswapV2Router.sol:95-120 | the chosen amounts respect both minima if and only if no minimum exceeds its desired amount |
| `LiquidityProof.MinimumIgnored` | contracts/src/amm/UniswapV2Router.sol:17-32 | a deposit accepted with an amount below the minimum asked for |
| `LiquidityProof.AddLiquidityDeposits` | contracts/src/amm/UniswapV2Router.sol:17-32 | from an account other than the pair: exactly the reported amounts move from the payer into the pool, whose reserves become all it holds, donated tokens included; exactly the reported liquidity is credited, beside the locked minimum when address zero makes the first deposit; other pools are untouched |
| `LiquidityProof.AddThenRemoveNeverGains` | contracts/src/amm/UniswapV2Router.sol:17-49 | removing at once what was added returns at most the deposit of each token and what the pool held beyond its reserves, which is nothing on a pool in balance |
| `ChainInvariant.PairCallKeepsChain` | contracts/src/amm/UniswapV2Pair.sol:56-123 | a call of one pair keeps the registry and the invariant of every pool, neighbours that share a token included |
| `ChainInvariant.SwapExactKeepsChain` | contracts/src/amm/UniswapV2Router.sol:51-62 | so does a swap along any path, pools visited twice included |
| `ChainInvariant.AddKeepsChain` | contracts/src/amm/UniswapV2Router.sol:17-32 | so does adding liquidity, with or without a new pair |
| `ChainInvariant.RemoveKeepsChain` | contracts/src/amm/UniswapV2Router.sol:34-49 | so does removing liquidity |
| `ChainInvariant.CallsKeepChain` | contracts/src/amm/UniswapV2Router.sol:17-138 | and every sequence of calls, reverted ones included |
| `ChainInvariant.ReachableChain` | contracts/src/amm/UniswapV2Factory.sol:22-35 | from a chain without pairs every sequence of calls leaves an orderly registry and pools that satisfy the pair invariant and back their reserves |
| `RouterOutcome.CreatesExactly` | contracts/src/amm/UniswapV2Factory.sol:22-35 | a pair is created if and only if the tokens differ, neither is zero and none is registered; it starts empty with the smaller address first |
| `RouterOutcome.QuotesExactly` | contracts/src/amm/UniswapV2Router.sol:64-88 | the amounts returned for a path are exactly the input followed by what each pair hands out for the amount before; a path is refused only when too short or when a pair cannot answer |
| `RouterOutcome.OptimalExactly` | contracts/src/amm/UniswapV2Router.sol:106-119 | the chosen amounts, exactly: all that is desired into an empty pool, else one side in full and the other at the price, within the desired amount and not below its minimum |
| `RouterOutcome.TargetExactly` | contracts/src/amm/UniswapV2Router.sol:103-105 | a deposit goes to the registered pair, or else to a new one, which is empty |
| `RouterOutcome.AddsExactly` | contracts/src/amm/UniswapV2Router.sol:17-32 | a deposit succeeds if and only if the payer holds both amounts and they are worth minting for, and the liquidity is what they are worth |
| `RouterOutcome.RemovesExactly` | contracts/src/amm/UniswapV2Router.sol:34-49 | a removal succeeds if and only if payer, allowance, positive shares and both minima allow it; it pays exactly the shares of the balances, rounded down |
| `OrderBookProof.MatchIsGreedy` | packages/matching/book.go:92-187 | trades consume a prefix of the opposite side, all but the last order fully, the rest unchanged; the loop stops only when filled or nothing crosses |
| `OrderBookProof.GreedyUnique` | packages/matching/book.go:92-187 | the greedy specification admits one outcome only |
| `OrderBookProof.MatchPricesFairly` | packages/matching/book.go:149-187 | each trade names its two orders and trades at the seller's limit, or at the buyer's against a market sell, within both limits |
| `OrderBookProof.BestDecides` | packages/matching/book.go:92-187 | all fills are at the buyers' limits if and only if nothing crosses, the incoming order is a market sell, or the best opposite price equals its limit |
| `OrderBookProof.FillsWhatCrosses` | packages/matching/book.go:92-142 | an order trades exactly the smaller of its quantity and of what rests within its limit; a market order takes whatever rests |
| `OrderBookProof.StopsBeyondLimit` | packages/matching/book.go:96-98 | what is left of an order has stopped at a price strictly beyond its limit, and a market order leaves nothing on the other side |
| `OrderBookProof.MatchFillsRightly` | packages/matching/book.go:63-90 | both for a whole call, with what remains and whether it rests |
| `OrderBookProof.PriceTimePriority` | packages/matching/book.go:189-207 | better prices come first on both sides, earlier orders first at one price |
| `OrderBookProof.MatchKeepsBook` | packages/matching/book.go:63-90 | price-time order, positive quantities and best bid below best ask survive a match |
| `OrderBookProof.MatchKeepsQuantities` | packages/matching/book.go:63-90 | no resting order exceeds its quantity after a match |
| `OrderBookProof.CancelKeepsBook` | packages/matching/book.go:210-227 | the same survives a cancel |
| `OrderBookProof.CancelTakesFirst` | packages/matching/book.go:210-227 | a cancel takes out the first order with the id, bids before asks, and nothing else |
| `OrderBookProof.BookRunKeeps` | packages/matching/book.go:63-227 | and any sequence of matches and cancels |
| `Matching.Book.Match` | packages/matching/book.go:63-90 | one call takes the book of shared orders through one step of the specification; in bare quantities: it trades the smaller of the quantity and of what rests within the limit, and stops strictly beyond it |
| `Matching.HistoryKeepsLatest` | packages/matching/book.go:78-83 | the history keeps the latest trades, at most 500 |
| `Matching.Book.MatchBuy` | packages/matching/book.go:92-116 | the buy loop over the asks, in place |
| `Matching.Book.MatchSell` | packages/matching/book.go:118-142 | the sell loop over the bids, in place; how much it sells says `OrderBookProof.FillsWhatCrosses` |
| `Matching.FillAgainst` | packages/matching/book.go:149-187 | one fill reduces both orders by the smaller remainder and prices it |
| `Matching.Book.InsertResting` | packages/matching/book.go:189-207 | the side is a sorted permutation of itself with the new order |
| `Matching.SortOrders` | packages/matching/book.go:193-206 | sorting permutes and orders by price then time |
| `Matching.Book.Cancel` | packages/matching/book.go:210-227 | removes the first order with the id, bids first, and says whether there was one |
| `Matching.Book.Depth` | packages/matching/book.go:230-237 | both sides aggregated from the same book |
| `Depth.AggregateSide` | packages/matching/book.go:239-269 | one level for each distinct price, strictly ordered, each the sum of the remaining quantity there, cut to the best levels |
| `Depth.FirstLevelIsBest` | packages/matching/book.go:239-269 | the first level is the head order's price |
| `Depth.DepthAddsUp` | packages/matching/book.go:239-269 | as long as the levels did not run out they add up to all that rests on the side |
| `Depth.MidBetween` | packages/matching/book.go:230-269 | the mid of the first levels lies strictly between best bid and best ask |
| `MatchingService.Hub.SubmitOrder` | services/matching-engine/internal/handler/handler.go:83-153 | an order changes one market's book by one step of the matcher |
| `MatchingService.Hub.CancelOrder` | services/matching-engine/internal/handler/handler.go:155-178 | a cancel changes at most its own market's book |
| `Accounts.AccountStore.Freeze` | services/account-service/internal/store/balances.go:44-72 | moves available to frozen under an unused reference, or fails without effect |
| `Accounts.AccountStore.Unfreeze` | services/account-service/internal/store/balances.go:75-103 | moves frozen back to available under an unused reference, or fails without effect |
| `Accounts.AccountStore.PostCollateral` | services/account-service/internal/store/ledger.go:10-48 | two opposite entries under the suffixed reference, refused when that is used |
| `Accounts.AccountStore.SettleTrade` | services/account-service/internal/store/balances.go:106-157 | all legs and releases commit together or nothing changes; a settled reference is accepted without effect |
| `Accounts.PostLegs` | services/account-service/internal/store/balances.go:159-181 | the leg loop over available balances |
| `Accounts.VerifyBalance` | services/account-service/internal/store/balances.go:183-206 | grouped sums are all zero exactly when the entries balance per asset |
| `AccountLedgerProof.RunKeepsSound` | services/account-service/internal/store/balances.go:44-206 | over every sequence of calls nothing is negative, references are distinct and every transaction sums to zero per asset |
| `AccountLedgerProof.StepAccounts` | services/account-service/internal/store/balances.go:44-157 | one call changes a holding by what it posts less what it releases |
| `AccountLedgerProof.RunAccounts` | services/account-service/internal/store/balances.go:44-157 | available plus frozen is the initial holding plus the ledger entries less the releases, over every run |
| `AccountLedgerProof.AtMostOnce` | infra/postgres/migrations/001_phase1_schema.up.sql:24-30 | of all calls of a run with one reference at most one takes effect |
| `AccountLedgerProof.HeldFallsByReleases` | services/account-service/internal/store/balances.go:106-157 | the total held of an asset falls by exactly the releases of a settlement and is otherwise conserved |
| `AccountLedgerProof.FreezesExactly` | services/account-service/internal/store/balances.go:44-72 | any positive amount up to all that is available can be frozen, once per reference, and exactly it moves |
| `AccountLedgerProof.UnfreezesExactly` | services/account-service/internal/store/balances.go:75-103 | the same backwards, up to all that is frozen |
| `AccountLedgerProof.ReplayDoesNothing` | services/account-service/internal/store/balances.go:113-121 | a settlement sent again under its reference is accepted and changes nothing |
| `OrderFlowProof.MatchMovesLock` | packages/matching/book.go:92-187 | what both sides locked is what they still lock plus what the trades hold |
| `OrderFlowProof.MatchUpdatesMakers` | packages/orderflow/flow.go:95-135 | recording the fills brings every maker row to what its resting order has left |
| `PlaceProof.PlaceKeepsRows` | packages/orderflow/flow.go:95-157 | rows and books agree after a placed order: remaining is quantity less filled, status follows from filled, and open limit orders are exactly those that rest |
| `OrderOutcome.TakerRecorded` | packages/orderflow/flow.go:137-147 | filled is the sum of the trades; Filled if and only if that is all, PartiallyFilled if some, New if none and it rests, Cancelled if none and it does not |
| `OrderOutcome.TakerFills` | packages/orderflow/flow.go:86-89 | how much is filled and whether the order rests, read off the book before it |
| `OrderOutcome.RestsOnBook` | packages/matching/book.go:85-88 | what is left of a limit order stands on its own side with its price and time and the unfilled quantity, next to all that stood there |
| `OrderOutcome.MakersRecorded` | packages/orderflow/flow.go:122-134 | every other row is filled by exactly what the trades took of its order, becoming Filled or PartiallyFilled by it |
| `CancelProof.CancelKeepsRows` | packages/orderflow/flow.go:160-186 | rows and books agree after a cancel |
| `CancelProof.CancelFreesLock` | packages/orderflow/flow.go:160-186 | a cancel takes the order's own lock, and no other, out of the resting collateral |
| `SettleProof.FullRefInjective` | services/account-service/internal/store/ledger.go:18-30 | different orders never share a reference |
| `SettleProof.FreezeIsNotUnfreeze` | services/account-service/internal/store/ledger.go:10-17 | a freeze reference is never an unfreeze reference |
| `SettleProof.LegsBalance` | packages/orderflow/flow.go:188-212 | the four legs of a trade balance whatever the assets |
| `SettleProof.TradePays` | packages/orderflow/flow.go:197-211 | a settled trade moves price times quantity of quote and the quantity of base between the available balances and releases as much, and moves nothing else |
| `SettleProof.SettleNeverShort` | packages/orderflow/flow.go:188-212 | with its collateral in place a settlement can only fail on the available side |
| `SettleProof.SettlesExactly` | services/account-service/internal/store/balances.go:106-181 | a collateralised trade settles if and only if all rows exist and both payers hold the amount as available balance once more |
| `OrderSettlement.SettlesAllExactly` | packages/orderflow/flow.go:95-135 | while their collateral is in place all remaining fills settle if and only if every payer has what it pays available at its turn |
| `OrderSettlement.PlaceSettlesExactly` | packages/orderflow/flow.go:35-157 | a matched order goes through if and only if, at the balances after its freeze, the payers of all its fills have the amounts available in turn |
| `MoneyProof.MatchExplains` | packages/orderflow/flow.go:78-95 | a match moves frozen money between book, trades and remainder and loses none |
| `MoneyProof.NextTradeCovered` | packages/orderflow/flow.go:95-135 | while fills are being settled the next one finds its collateral frozen |
| `MoneyProof.SettleExplains` | packages/orderflow/flow.go:188-212 | a settlement consumes its hold up to the buyer's price improvement, which stays frozen |
| `MoneyProof.UnfreezeExplains` | packages/orderflow/flow.go:214-234 | returning the unfilled rest finds it frozen and leaves the other balances explained |
| `OrderEngine.PlaceMoney` | packages/orderflow/flow.go:35-157 | from the freeze on, the account calls of an order stop on the available side or go through with every frozen balance explained |
| `OrderEngine.PlaceKeepsFlow` | packages/orderflow/flow.go:35-157 | the joint invariant survives a placed order |
| `OrderEngine.CancelRestingFlow` | packages/orderflow/flow.go:160-186 | cancelling a resting order finds all its collateral and keeps the joint invariant |
| `OrderEngine.CancelAbsentFlow` | packages/orderflow/flow.go:160-186 | cancelling a partly filled market order returns nothing twice and keeps the joint invariant |
| `OrderEngine.Engine.PlaceOrder` | packages/orderflow/flow.go:35-157 | refused if and only if symbol, price, type or collateral forbid it, with the reason of the first check and nothing changed; accepted, the row says what was ordered and filled, and the joint invariant holds |
| `OrderEngine.Engine.CancelOrder` | packages/orderflow/flow.go:160-186 | done exactly for this venue's open orders, with the collateral back when the order rests; the joint invariant holds either way |
| `OrderEngine.Engine.SettleTrades` | packages/orderflow/flow.go:95-135 | the loop settles every fill, updates every maker and sums what was filled, or stops at the first failure |
| `OrderEngine.Engine.AdmitOrder` | packages/orderflow/flow.go:36-76 | admits exactly the requests whose symbol, price, type and available collateral allow it, before anything is matched |
| `OrderEngine.Engine.RecordOutcome` | packages/orderflow/flow.go:137-151 | writes the taker's filled quantity and status; which status that is says `OrderOutcome.TakerRecorded` |
| `OrderEngine.Engine.ReleaseRemaining` | packages/orderflow/flow.go:214-234 | the unfilled rest is returned and nothing else |
| `OrderEngine.OrderStore.UpdateOrderFill` | packages/orderstore/store.go:113-118 | overwrites filled quantity and status of one row |
| `OrderEngine.OrderStore.CancelOrder` | packages/orderstore/store.go:121-140 | only an open row becomes Cancelled |
| `ExchangeRun.EventKeepsJoint` | packages/orderflow/flow.go:35-245 | placing, cancelling and every perpetual request keep the invariant of orders and positions together |
| `ExchangeRun.ReachableIsJoint` | packages/orderflow/flow.go:35-245 | and so does every run of them |
| `ExchangeRun.FrozenIsAccountedFor` | packages/orderflow/flow.go:35-245 | in every reachable state frozen is resting collateral plus open margin plus accumulated price improvement |
| `ExchangeRun.OpenOrdersCanBeCancelled` | packages/orderflow/flow.go:160-186 | in every reachable state an open limit order rests and its cancel gets its collateral back |
| `ExchangeRun.MarginsCanBeReturned` | packages/perpservice/engine.go:173-184 | in every reachable state a position's margin can be unfrozen if and only if its id has not served before |
| `ExchangeService.Start` | packages/orderflow/flow.go:15-22 | both venues and the perpetual engine on one account store, with empty tables, are in the opening state of a run |
| `ExchangeService.PlaceOrder` | packages/orderflow/flow.go:35-157 | an accepted order takes the stores through exactly one event and keeps the joint invariant; a refused one changes nothing |
| `ExchangeService.CancelOrder` | packages/orderflow/flow.go:160-186 | a cancel that is done is exactly one event, any other changes nothing, and the joint invariant is kept |
| `ExchangeService.Serve` | packages/perpservice/engine.go:60-285 | an open, close, liquidation, funding or mark request that does not stop half way is exactly one event and keeps the joint invariant |
| `Improvement.ImprovementSign` | packages/orderflow/flow.go:188-212 | what buys paid below their limits is never negative, and zero exactly when all were at the limit |
| `Improvement.LeavesNothingExactly` | packages/orderflow/flow.go:95-135 | a placed order changes no residue if and only if nothing crosses, it is a market sell, or the best opposite price before the call equals its limit |
| `Improvement.RunLeavesNothing` | packages/orderflow/flow.go:35-245 | a run changes no residue if and only if all of its orders met that condition on the books they found |
| `Improvement.AllFrozenNeeded` | packages/orderflow/flow.go:35-245 | from an empty exchange every frozen balance is resting collateral plus open margin and nothing else if and only if all orders of the run met that condition |
| `Improvement.EventKeepsResidue` | packages/orderflow/flow.go:35-245 | no event lowers the improvement left frozen |
| `Improvement.ResidueNeverFalls` | packages/orderflow/flow.go:35-245 | nor does any run |
| `Improvement.ImprovementFrozenForGood` | packages/orderflow/flow.go:188-234 | the improvement of any moment stays in the frozen balance of every later one, beside all collateral and margin |
| `Improvement.FilledBuyLeavesSavings` | packages/orderflow/flow.go:188-234 | a limit buy filled on arrival leaves frozen exactly the sum of (limit - price) * quantity over its fills, zero if and only if the best ask before the call was at the limit |
| `Improvement.TenStayFrozen` | packages/orderflow/flow.go:95-153 | a buy of one at 100 against an ask at 90 is filled and leaves 10 frozen |
| `Improvement.RestingBuyLeavesTen` | packages/matching/book.go:149-173 | a resting buy of one at 100 hit by a sell at 90 trades at 90 and leaves 10 frozen |
| `ExchangeRun.DocumentedFillFails` | docs/ledger-design.md:19-30 | the documented fill of two orders holding exactly the documented collateral is refused |
| `Decimals.RoundError` | packages/perps/math.go:15 | a division is at most half a step of the sixteenth decimal off |
| `Decimals.RoundOnGrid` | packages/perps/math.go:15 | a division lands on the 16-decimal grid and leaves grid values alone |
| `Decimals.TiesAway` | packages/perps/math.go:15 | a tie is rounded away from zero |
| `Perps.EntryWithinMarks` | packages/perps/math.go:61-68 | over any number of adds the entry stays between the lowest and the highest fill mark |
| `Perps.PnLOfBlend` | packages/perps/math.go:24-68 | the blended profit differs from the sum over fills by at most half a step times the running sizes |
| `Perps.LiquidationThreshold` | packages/perps/math.go:38-43 | the exact ratio below which a position is liquidated, rounding included |
| `Perps.JustBelowOneSpared` | docs/perpetual-risk.md:9 | a position with an exact ratio below one that is not liquidated |
| `Perps.LongDownwardClosed` | services/liquidation-engine/cmd/server/main.go:116-122 | a liquidated long stays liquidated at every lower positive mark |
| `Perps.ShortUpwardClosed` | services/liquidation-engine/cmd/server/main.go:116-122 | a liquidated short stays liquidated at every higher mark |
| `Perps.MarginReleaseBounds` | packages/perpservice/engine.go:180 | a close releases between nothing and the margin, on the grid, and a full close exactly the margin |
| `PerpDeskProof.OpenKeepsInv` | packages/perpservice/engine.go:60-131 | an open never stops half way, keeps frozen balances explained, and a refusal after the freeze restores every balance |
| `PerpDeskProof.OpenLocks` | packages/perpservice/engine.go:82-126 | exactly the growth of the margin leaves the available balance; id and side stay, the leverage is the new one |
| `PerpDeskProof.MarginTimesLeverage` | packages/perps/math.go:11-16 | initial margin times leverage is the notional up to rounding |
| `PerpDeskProof.MarginIsThere` | packages/perpservice/engine.go:173-184 | the margin to be given back is always frozen: only a release of nothing or a spent id is refused |
| `PerpDeskProof.CloseKeepsInv` | packages/perpservice/engine.go:173-216 | done keeps the invariant, refused changes nothing, interrupted has broken it; which of them it is says `PerpOutcome.CloseOutcome` |
| `PerpOutcome.BooksExactly` | packages/tradeclients/account.go:70-78 | a profit or loss is booked exactly when both rows exist and its payer has it available |
| `PerpOutcome.CloseOutcome` | packages/perpservice/engine.go:173-216 | the exact condition for each outcome: refused when nothing is released or the id is spent, done when also user or house can pay and the rest keeps margin, stopped half way in all other cases |
| `PerpOutcome.UnderwaterKeepsMargin` | packages/perpservice/engine.go:182-195 | a liquidation at a loss above the margin returns the margin, books nothing, keeps the position and spends its id |
| `PerpOutcome.RoundedRestFails` | infra/postgres/migrations/004_phase3_perps.up.sql:25-37 | a partial close whose rounded release is the whole margin stops at the check on the row that remains |
| `PerpDeskProof.ClosePays` | packages/perpservice/engine.go:173-216 | margin and profit go to the user, the opposite of the profit to the house, nothing to anyone else |
| `PerpDeskProof.FullCloseReturnsAll` | packages/perpservice/engine.go:160-216 | a full close gives back exactly the margin left and deletes that position only |
| `PerpDeskProof.FundingPays` | packages/perpservice/engine.go:267-285 | at a positive rate longs pay and shorts receive size times mark times rate, against the house |
| `PerpRequests.OpensExactly` | packages/perpservice/engine.go:60-99 | an open or an add succeeds if and only if market, mark, leverage, size and side are in order and the user has the margin available under a fresh reference |
| `PerpRequests.OpenRefusals` | packages/perpservice/engine.go:61-94 | the reason of each refusal before the account is asked |
| `PerpRequests.OpensAtMark` | packages/perpservice/engine.go:101-116 | a new position is entered at the mark, an add at the average weighted by size, up to half a step |
| `PerpRequests.ClosesRequested` | packages/perpservice/engine.go:134-216 | a done close without a size, or with more than there is, removes the position and returns all of its margin; a done close of a part leaves the rest and returns margin in proportion; the gain booked is that of the units closed |
| `PerpRequests.CloseIsSized` | packages/perpservice/engine.go:134-157 | why a close is refused before the account is asked, and the size that is closed otherwise |
| `PerpRequests.LiquidatesWhole` | packages/perpservice/engine.go:160-171 | a done liquidation removes the position and books the gain of all of it at the mark |
| `PerpRequests.FundsExactly` | packages/perpservice/engine.go:267-285 | a funding payment goes through if and only if position and mark are there and its payer can pay |
| `PerpDeskProof.RunKeepsDesk` | packages/perpservice/engine.go:60-285 | over every run that does not stop half way, frozen is open margin plus the rest and margins stay on the grid |
| `PerpDeskProof.DoConserves` | packages/perpservice/engine.go:60-285 | no request, whatever its outcome, creates or destroys any of an asset |
| `PerpDeskProof.RunConserves` | packages/perpservice/engine.go:60-285 | nor does any run |
| `PerpDeskProof.PartialCloseSpends` | packages/perpservice/engine.go:182 | a partial close uses up the position's only unfreeze reference |
| `PerpDeskProof.SpentForever` | packages/perpservice/engine.go:182 | after that no request and no price move ever closes or shrinks the position |
| `PerpOutcome.HalfCloseStrands` | packages/perpservice/engine.go:182 | closing half of a position succeeds and leaves the other half spent |
| `PerpOutcome.DoSpends` | packages/perpservice/engine.go:182 | a request uses up an id exactly when it closes that position at least up to the unfreeze |
| `PerpOutcome.SpentExactly` | infra/postgres/migrations/001_phase1_schema.up.sql:24-30 | over every run with fresh ids an open position is spent if and only if it was closed before, in part or in an attempt that stopped half way |
| `PerpFills.PositionTracksFills` | packages/perpservice/engine.go:101-116 | the stored size and entry are those of exactly the opens carried out |
| `PerpFills.StoredEntryIsFair` | packages/perpservice/engine.go:101-116 | the stored entry lies within the fill marks and its profit is that of the fills up to rounding |
| `Liquidation.ScanRemovesOnlyRisky` | services/liquidation-engine/cmd/server/main.go:101-129 | a pass removes only positions below one at its marks, leaves the others untouched and counts exactly the removed; which of those at risk it removes says `ScanOutcome.RemovedExactly` |
| `Liquidation.AtRiskExactly` | services/liquidation-engine/cmd/server/main.go:116-122 | the scanner liquidates if and only if margin plus gain at the mark, over size times mark times the maintenance rate, is below one by more than half a step |
| `ScanOutcome.RemovedExactly` | services/liquidation-engine/cmd/server/main.go:107-127 | a position at risk is removed if and only if its close completes on the ledger the earlier liquidations of the pass left |
| `ScanOutcome.RemovedByStartingBalances` | services/liquidation-engine/cmd/server/main.go:107-127 | with one position for each user: if and only if the balances before the pass cover it, the house paying in the order of the listing |
| `ScanOutcome.PassRemovesExactly` | services/liquidation-engine/cmd/server/main.go:101-129 | over a listing of the whole table the positions gone are exactly those at risk whose close completed |
| `PerpService.Scanner.RunOnce` | services/liquidation-engine/cmd/server/main.go:101-129 | the loop makes exactly the liquidation requests of the pass and returns how many positions are gone; gone are, with fresh trade ids, exactly those below one at the mark whose close completed |
| `PerpService.PerpEngine.Open` | packages/perpservice/engine.go:60-131 | checks, freeze, blended row and compensation, in that order |
| `PerpService.PerpEngine.Close` | packages/perpservice/engine.go:134-157 | closes the requested part, capped at the position; sizes, margin and gain in `PerpRequests.ClosesRequested` |
| `PerpService.PerpEngine.Liquidate` | packages/perpservice/engine.go:160-171 | closes the whole position at the current mark |
| `PerpService.PerpEngine.CloseSize` | packages/perpservice/engine.go:173-216 | unfreeze, book the profit, then delete or shrink the row |
| `PerpService.PerpEngine.UpsertPosition` | packages/perpstore/store.go:186-194 | writes a row exactly when it passes the table's checks |
| `PerpService.PerpEngine.RiskForPosition` | packages/perpservice/engine.go:219-247 | the report's figures at the mark, 999 without a maintenance margin, and a flag that is set exactly below one, as the scanner tests |
| `PerpService.PerpEngine.ApplyFunding` | packages/perpservice/engine.go:267-285 | books the payment against the house, nothing for a payment of zero |
| `PerpService.PerpEngine.SettleBalanced` | packages/tradeclients/account.go:70-78 | two opposite legs in USDT and no release |

## Left out

- Precision: amounts are exact reals; the tables' NUMERIC(36, 18) rounding and overflow are not modelled.
- Interleaved requests, and what happens after an account or matcher call fails midway: the code does not repair these states, so the joint invariants are claimed for runs in which every call goes through. The ledger's own properties include failures, and a perpetual close that stops half way is shown to break the invariant.
- PairInvariant.RunKeepsInv: steps come from outside the pair and tokens move exactly the amount asked for; fee-on-transfer or otherwise non-standard tokens and reentrancy are not modelled.
- Approvals of the traded tokens, and their refusal of the zero address; only the liquidity token's allowances are modelled.
- Block timestamps, `deadline`, events, and `kLast`, which starts at zero and is only updated when it is not zero.
- Liquidity tokens used as a token of a router path.
- RouterProof.SwapExactExecutes: assumes distinct pairs on the path and a recipient that is neither the payer nor a pool, since a pool visited twice is quoted at reserves the first visit changes.
- OrderBookProof.MatchKeepsBook: limit prices other than zero; a zero price means a market order throughout the code.
- MatchingService.Hub.SubmitOrder: between requests a book is stored as the list of its orders, so references a client might keep to an order object of an earlier request are not modelled.
- Seeded liquidity, whose orders have no account and no collateral: every order of the joint model came through `PlaceOrder`.
- The trade history's wire form, the trades table, recent-trade queries and trade timestamps.
- PerpService.PerpEngine.Open: sizes arrive parsed; a decimal string that does not parse is refused like a size that is not positive.
- Users without balance rows other than as a failed call, missing users and a missing `perp_house` account.
- HTTP handlers, JSON clients, WebSocket broadcast, metrics, configuration, the web applications and deployment files.
- The chain indexer, the RPC gateway and log decoding: the cursor of the indexer is easy, and receipts that fail to load are skipped, so event completeness does not hold.
- The mark feed and the funding schedule: marks and rates are inputs of the requests.
