/** The order engine and the perpetual engine on one account store: every call that goes through is
    one event of an exchange run, so what every run keeps holds of the stores themselves. */
module ExchangeService {
  import opened AccountLedger
  import opened Accounts
  import opened ExchangeRun
  import opened MatchingService
  import opened OrderBook
  import opened OrderEngine
  import opened OrderFlow
  import opened PerpService
  import opened SettleProof
  import PerpDesk
  import PerpDeskProof

  /** The exchange as the stores of the two engines hold it. */
  ghost function ExchangeOf(spot: Engine, perps: PerpEngine): Exchange
    reads spot.hub, spot.store, spot.account, perps
  {
    Exchange(spot.hub.books, spot.store.rows, spot.store.residue, perps.positions, perps.marks, spot.account.State())
  }

  ghost function SetupOf(spot: Engine, perps: PerpEngine): Setup {
    Setup(spot.symbols, perps.contracts, perps.house)
  }

  /** One account store serves both engines, there is a book for every symbol and venue, and the
      joint invariant holds. */
  ghost predicate InOrder(spot: Engine, perps: PerpEngine)
    reads spot.hub, spot.store, spot.account, perps
  {
    && perps.account == spot.account
    && (forall v, s :: s in spot.symbols ==> Market(v, s) in spot.hub.books)
    && JointInv(ExchangeOf(spot, perps), SetupOf(spot, perps))
  }

  /** `y` is what the event `e` makes of `x`. */
  ghost predicate IsEvent(x: Exchange, setup: Setup, e: Event, y: Exchange) {
    Happens(x, setup, e) && y == Follow(x, setup, e)
  }

  /** A book for every symbol and venue. */
  function Markets(symbols: map<string, Assets>): (markets: set<Market>)
    ensures forall m: Market :: m in markets <==> m.symbol in symbols
  {
    var cex, dex := set s | s in symbols :: Market(CEX, s), set s | s in symbols :: Market(DEX, s);
    assert forall m: Market :: m.symbol in symbols ==> m in cex + dex by {
      forall m: Market | m.symbol in symbols
        ensures m in cex + dex
      {
        assert m.venue == CEX || m.venue == DEX;
        assert m == Market(m.venue, m.symbol);
      }
    }
    cex + dex
  }

  /** Both venues and the perpetual engine on empty tables and deposited balances. */
  method Start(symbols: map<string, Assets>, contracts: map<string, PerpDesk.Contract>, house: string,
               deposits: map<Key, Account>)
    returns (cex: Engine, dex: Engine, perps: PerpEngine)
    requires forall key :: key in deposits ==> deposits[key].frozen == 0.0
    ensures cex.venue == CEX && dex.venue == DEX
    ensures dex.store == cex.store && dex.account == cex.account && dex.hub == cex.hub && dex.symbols == cex.symbols
    ensures SetupOf(cex, perps) == Setup(symbols, contracts, house)
    ensures Opening(ExchangeOf(cex, perps), SetupOf(cex, perps)) && InOrder(cex, perps) && InOrder(dex, perps)
  {
    var account := new AccountStore(deposits);
    var store := new OrderStore();
    var hub := new Hub(Markets(symbols));
    cex := new Engine(CEX, symbols, store, account, hub);
    dex := new Engine(DEX, symbols, store, account, hub);
    perps := new PerpEngine(account, contracts, house);
    OpeningIsJoint(ExchangeOf(cex, perps), SetupOf(cex, perps));
  }

  // ----- orders --------------------------------------------------------------------------------

  /** An accepted order is one event, and a refused one is none. */
  method PlaceOrder(spot: Engine, perps: PerpEngine, req: Request, orderId: string, tradeIds: nat -> string, now: int)
    returns (r: PlaceResult, ghost e: Event)
    requires InOrder(spot, perps)
    requires orderId !in spot.store.rows && !UnfreezeUsed(spot.account.txns, spot.venue, orderId)
    requires FreshTradeIds(spot.account.txns, tradeIds, 0)
    modifies spot.store, spot.account, spot.hub
    ensures r.Accepted? ==>
              && e.Place? && e.o == OrderFor(req, orderId, now) && e.m == Market(spot.venue, req.symbol)
              && e.trades == r.trades
              && IsEvent(old(ExchangeOf(spot, perps)), SetupOf(spot, perps), e, ExchangeOf(spot, perps))
              && InOrder(spot, perps)
    ensures r.Refused? ==> ExchangeOf(spot, perps) == old(ExchangeOf(spot, perps)) && InOrder(spot, perps)
  {
    ghost var x, setup := ExchangeOf(spot, perps), SetupOf(spot, perps);
    ghost var trades, left, resting;
    r, trades, left, resting := spot.PlaceOrder(req, orderId, tradeIds, now, Margins(x, setup));
    ghost var m := Market(spot.venue, req.symbol);
    ghost var after := if m in spot.hub.books then spot.hub.books[m] else BookVal([], []);
    e := Place(OrderFor(req, orderId, now), m, trades, left, resting, after, tradeIds);
    if r.Accepted? {
      EventKeepsJoint(x, setup, e);
    }
  }

  /** Whether the order rests or not, the account ends up as the event says. */
  lemma CancelLedger(x: Exchange, setup: Setup, id: string)
    requires JointInv(x, setup) && Open(x.rows, id)
    ensures var row, c := x.rows[id], RowCollateral(setup.symbols, x.rows[id]);
            var after := LedgerAfterCancel(x.ledger, setup.symbols, row.venue, row, id);
            if Resting(x.books, id, row)
            then c.Collateral? && Unfreeze(x.ledger, row.user, c.asset, c.amount, RefType(row.venue), id) == Ok(after)
            else after == x.ledger
  {
    if Resting(x.books, id, x.rows[id]) {
      CancelRestingFlow(x.books, setup.symbols, x.rows, x.ledger, x.residue, Margins(x, setup), id);
    } else {
      CancelAbsentFlow(x.books, setup.symbols, x.rows, x.ledger, x.residue, Margins(x, setup), id);
    }
  }

  lemma CancelIsEvent(x: Exchange, setup: Setup, id: string, y: Exchange)
    requires JointInv(x, setup) && Open(x.rows, id)
    requires var row, c := x.rows[id], RowCollateral(setup.symbols, x.rows[id]);
             && y == x.(books := CancelBooks(x.books, Market(row.venue, row.symbol), id),
                        rows := CancelRows(x.rows, id), ledger := y.ledger)
             && if Resting(x.books, id, row)
                then c.Collateral?
                     && Unfreeze(x.ledger, row.user, c.asset, c.amount, RefType(row.venue), id) == Ok(y.ledger)
                else y.ledger == x.ledger
    ensures IsEvent(x, setup, Cancel(id), y)
  {
    CancelLedger(x, setup, id);
  }

  /** A cancel that is done is one event, and one that is not changes nothing. */
  method CancelOrder(spot: Engine, perps: PerpEngine, orderId: string) returns (r: CancelResult)
    requires InOrder(spot, perps)
    modifies spot.store`rows, spot.account, spot.hub
    ensures InOrder(spot, perps)
    ensures r.Done? ==>
              IsEvent(old(ExchangeOf(spot, perps)), SetupOf(spot, perps), Cancel(orderId), ExchangeOf(spot, perps))
    ensures r.NotDone? ==> ExchangeOf(spot, perps) == old(ExchangeOf(spot, perps))
  {
    ghost var x, setup := ExchangeOf(spot, perps), SetupOf(spot, perps);
    r := spot.CancelOrder(orderId, Margins(x, setup));
    if r.Done? {
      CancelIsEvent(x, setup, orderId, ExchangeOf(spot, perps));
      EventKeepsJoint(x, setup, Cancel(orderId));
    }
  }

  // ----- perpetual requests ----------------------------------------------------------------------

  /** The perpetual engine's call for a request. */
  method Call(perps: PerpEngine, act: PerpDeskProof.Act) returns (r: PerpDesk.Outcome)
    modifies perps`positions, perps`marks, perps.account
    ensures r == PerpDeskProof.Do(old(perps.State()), perps.contracts, perps.house, act).outcome
    ensures perps.State() == PerpDeskProof.After(old(perps.State()), perps.contracts, perps.house, act)
  {
    match act
    case OpenAct(slot, side, size, leverage, newId, freezeId) =>
      r := perps.Open(slot, side, size, leverage, newId, freezeId);
    case CloseAct(slot, amount, tradeId) =>
      var pnl;
      r, pnl := perps.Close(slot, amount, tradeId);
    case LiquidateAct(slot, tradeId) => r := perps.Liquidate(slot, tradeId);
    case FundAct(slot, rate, tradeId) => r := perps.ApplyFunding(slot, rate, tradeId);
    case MarkAct(symbol, price) =>
      perps.SetMarkPrice(symbol, price);
      r := PerpDesk.Done;
  }

  /** A request that does not stop half way is one event. */
  method Serve(spot: Engine, perps: PerpEngine, act: PerpDeskProof.Act) returns (r: PerpDesk.Outcome)
    requires InOrder(spot, perps)
    requires act.OpenAct? ==> PerpDeskProof.UnfreezeUnused(perps.account.txns, act.freezeId)
    modifies perps`positions, perps`marks, perps.account
    ensures r == PerpDeskProof.Do(old(perps.State()), perps.contracts, perps.house, act).outcome
    ensures !r.Interrupted? ==>
              && IsEvent(old(ExchangeOf(spot, perps)), SetupOf(spot, perps), Perp(act), ExchangeOf(spot, perps))
              && InOrder(spot, perps)
  {
    ghost var x, setup := ExchangeOf(spot, perps), SetupOf(spot, perps);
    r := Call(perps, act);
    if !r.Interrupted? {
      EventKeepsJoint(x, setup, Perp(act));
    }
  }
}
