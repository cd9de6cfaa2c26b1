/** The price improvement of buyers: what it is, and that it is never given back. */
module Improvement {
  import opened AccountLedger
  import opened ExchangeRun
  import opened MoneyProof
  import opened OrderBook
  import opened OrderEngine
  import opened OrderFlow
  import opened PlaceProof
  import opened SettleProof
  import OrderBookProof
  import PerpDeskProof

  // ----- along a run ---------------------------------------------------------------------------

  /** What a trade saved a user who bought in it on the limit. */
  function Below(t: Trade, limit: real, info: Assets, user: string, asset: string): real {
    if t.buyer == user && asset == info.quote then (limit - t.price) * t.quantity else 0.0
  }

  /** What a user's buys among `trades` paid below their limits. */
  function BoughtBelow(trades: seq<Trade>, rows: map<string, Row>, info: Assets, user: string, asset: string): real {
    if trades == [] then 0.0
    else
      Below(trades[0], LimitOf(rows, trades[0].buyId), info, user, asset)
      + BoughtBelow(trades[1..], rows, info, user, asset)
  }

  lemma {:induction false} ResidueGains(
    residue: map<Key, real>, trades: seq<Trade>, rows: map<string, Row>, info: Assets, user: string, asset: string)
    ensures Residue(AfterTrades(residue, trades, rows, info), user, asset) ==
            Residue(residue, user, asset) + BoughtBelow(trades, rows, info, user, asset)
    decreases |trades|
  {
    if trades != [] {
      var limit := LimitOf(rows, trades[0].buyId);
      ResidueGrows(residue, trades[0], limit, info, user, asset);
      ResidueGains(WithImprovement(residue, trades[0], limit, info), trades[1..], rows, info, user, asset);
    }
  }

  predicate AtLimit(t: Trade, limit: real, info: Assets, user: string, asset: string) {
    t.buyer == user && asset == info.quote ==> t.price == limit
  }

  predicate AllAtLimit(trades: seq<Trade>, rows: map<string, Row>, info: Assets, user: string, asset: string) {
    forall i :: 0 <= i < |trades| ==> AtLimit(trades[i], LimitOf(rows, trades[i].buyId), info, user, asset)
  }

  /** Trades that respect the buyers' limits improve on them or meet them, and meet all of them
      exactly when nothing is left over. */
  lemma {:induction false} ImprovementSign(
    trades: seq<Trade>, rows: map<string, Row>, info: Assets, user: string, asset: string)
    requires Fair(trades, rows)
    ensures BoughtBelow(trades, rows, info, user, asset) >= 0.0
    ensures BoughtBelow(trades, rows, info, user, asset) == 0.0 <==> AllAtLimit(trades, rows, info, user, asset)
    decreases |trades|
  {
    if trades != [] {
      FairHead(trades, rows);
      BelowSign(trades[0], LimitOf(rows, trades[0].buyId), info, user, asset);
      FairTail(trades, rows);
      ImprovementSign(trades[1..], rows, info, user, asset);
      AllOfCons(trades, rows, info, user, asset);
    }
  }

  lemma FairHead(trades: seq<Trade>, rows: map<string, Row>)
    requires trades != [] && Fair(trades, rows)
    ensures trades[0].quantity > 0.0 && trades[0].price <= LimitOf(rows, trades[0].buyId)
  {
    assert trades[0] in trades;
  }

  lemma BelowSign(t: Trade, limit: real, info: Assets, user: string, asset: string)
    requires t.quantity > 0.0 && t.price <= limit
    ensures Below(t, limit, info, user, asset) >= 0.0
    ensures Below(t, limit, info, user, asset) == 0.0 <==> AtLimit(t, limit, info, user, asset)
  {
    PositiveGap(limit - t.price, t.quantity, (limit - t.price) * t.quantity);
  }

  lemma AllOfCons(trades: seq<Trade>, rows: map<string, Row>, info: Assets, user: string, asset: string)
    requires trades != []
    ensures AllAtLimit(trades, rows, info, user, asset) <==>
            AtLimit(trades[0], LimitOf(rows, trades[0].buyId), info, user, asset)
            && AllAtLimit(trades[1..], rows, info, user, asset)
  {
    assert forall i :: 0 < i < |trades| ==> trades[i] == trades[1..][i - 1];
  }

  lemma PositiveGap(gap: real, quantity: real, saved: real)
    requires gap >= 0.0 && quantity > 0.0 && saved == gap * quantity
    ensures saved >= 0.0 && (saved == 0.0 <==> gap == 0.0)
  {
  }

  lemma EventKeepsResidue(x: Exchange, setup: Setup, e: Event, user: string, asset: string)
    requires Happens(x, setup, e)
    ensures Residue(Follow(x, setup, e).residue, user, asset) >= Residue(x.residue, user, asset)
  {
    match e
    case Place(o, m, trades, left, resting, after, ids) =>
      var info, rows1 := InfoOf(setup.symbols, m.symbol), x.rows[o.id := NewRow(o, m)];
      MatchIsFair(x.books, x.rows, o, m, trades, left, resting, after);
      ResidueGains(x.residue, trades, rows1, info, user, asset);
      ImprovementSign(trades, rows1, info, user, asset);
    case Cancel(_) =>
    case Perp(_) =>
  }

  /** No event of any run lowers the improvement a user has accumulated. */
  lemma {:induction false} ResidueNeverFalls(x: Exchange, setup: Setup, events: seq<Event>, user: string, asset: string)
    requires Smooth(x, setup, events)
    ensures Residue(RunAll(x, setup, events).residue, user, asset) >= Residue(x.residue, user, asset)
    decreases |events|
  {
    if events != [] {
      EventKeepsResidue(x, setup, events[0], user, asset);
      ResidueNeverFalls(Follow(x, setup, events[0]), setup, events[1..], user, asset);
    }
  }

  /** So the improvement of any moment stays part of the frozen balance for good, beside whatever
      the user's resting orders and open positions need later. */
  lemma ImprovementFrozenForGood(x: Exchange, setup: Setup, events: seq<Event>, user: string, asset: string)
    requires JointInv(x, setup) && Smooth(x, setup, events)
    ensures var y := RunAll(x, setup, events);
            Frozen(y.ledger.balances, user, asset) >=
            Residue(x.residue, user, asset)
            + Locked(y.books, setup.symbols, user, asset)
            + PerpDeskProof.OpenMargin(y.positions, setup.contracts, user, asset)
  {
    ReachableIsJoint(x, setup, events);
    ResidueNeverFalls(x, setup, events, user, asset);
    var y := RunAll(x, setup, events);
    assert Frozen(y.ledger.balances, user, asset) ==
           Locked(y.books, setup.symbols, user, asset) + Residue(y.residue, user, asset)
             + Margins(y, setup)(user, asset);
  }

  // ----- which orders leave an improvement behind ------------------------------------------------

  ghost predicate SameResidue(a: map<Key, real>, b: map<Key, real>) {
    forall user, asset :: Residue(a, user, asset) == Residue(b, user, asset)
  }

  predicate AtLimits(trades: seq<Trade>, rows: map<string, Row>) {
    forall i :: 0 <= i < |trades| ==> trades[i].price == LimitOf(rows, trades[i].buyId)
  }

  /** Nobody gains a residue from trades at the buyers' limits, and somebody does from any other. */
  lemma ResidueSameExactly(residue: map<Key, real>, trades: seq<Trade>, rows: map<string, Row>, info: Assets)
    requires Fair(trades, rows)
    ensures SameResidue(AfterTrades(residue, trades, rows, info), residue) <==> AtLimits(trades, rows)
  {
    var after := AfterTrades(residue, trades, rows, info);
    if AtLimits(trades, rows) {
      forall user, asset
        ensures Residue(after, user, asset) == Residue(residue, user, asset)
      {
        ResidueGains(residue, trades, rows, info, user, asset);
        ImprovementSign(trades, rows, info, user, asset);
        assert AllAtLimit(trades, rows, info, user, asset);
      }
    } else {
      var i :| 0 <= i < |trades| && trades[i].price != LimitOf(rows, trades[i].buyId);
      var buyer := trades[i].buyer;
      ResidueGains(residue, trades, rows, info, buyer, info.quote);
      ImprovementSign(trades, rows, info, buyer, info.quote);
      assert !AtLimit(trades[i], LimitOf(rows, trades[i].buyId), info, buyer, info.quote);
      assert Residue(after, buyer, info.quote) != Residue(residue, buyer, info.quote);
    }
  }

  /** The buyers' rows carry the limits of the two orders of each fill. */
  lemma LimitsOnBook(
    books: map<Market, BookVal>, rows: map<string, Row>, o: Ord, m: Market, trades: seq<Trade>, left: Ord,
    resting: bool, after: BookVal)
    requires Placed(books, rows, o, m, trades, left, resting, after)
    ensures var opposite, rows1 := Opposite(books[m], o.side), rows[o.id := NewRow(o, m)];
            && |trades| <= |opposite|
            && forall i :: 0 <= i < |trades| ==>
                 LimitOf(rows1, trades[i].buyId) == OrderBookProof.BuyerLimit(o, opposite[i])
  {
    var opposite := Opposite(books[m], o.side);
    assert BookAgrees(books[m], m, rows);
    OrderBookProof.MatchPricesFairly(o, opposite);
    forall i | 0 <= i < |trades|
      ensures LimitOf(rows[o.id := NewRow(o, m)], trades[i].buyId) == OrderBookProof.BuyerLimit(o, opposite[i])
    {
      assert OrderBookProof.PricedFairly(o, opposite[i], trades[i]);
      assert opposite[i] in opposite;
    }
  }

  /** A placed order leaves no improvement frozen, neither its own nor that of a resting buy it
      hits, if and only if nothing crosses, or it is a market sell, or the best price of the other
      side, as the book stands before the order, equals its limit. */
  lemma LeavesNothingExactly(
    books: map<Market, BookVal>, rows: map<string, Row>, o: Ord, m: Market, trades: seq<Trade>, left: Ord,
    resting: bool, after: BookVal, residue: map<Key, real>, info: Assets)
    requires Placed(books, rows, o, m, trades, left, resting, after)
    ensures SameResidue(AfterTrades(residue, trades, rows[o.id := NewRow(o, m)], info), residue) <==>
            OrderBookProof.MeetsBest(o, Opposite(books[m], o.side))
  {
    assert BookAgrees(books[m], m, rows);
    MatchIsFair(books, rows, o, m, trades, left, resting, after);
    ResidueSameExactly(residue, trades, rows[o.id := NewRow(o, m)], info);
    LimitsOnBook(books, rows, o, m, trades, left, resting, after);
    OrderBookProof.BestDecides(o, Opposite(books[m], o.side));
  }

  /** The condition for one event, on the books it meets. */
  predicate MeetsBook(x: Exchange, e: Event) {
    e.Place? ==> e.m in x.books && OrderBookProof.MeetsBest(e.o, Opposite(x.books[e.m], e.o.side))
  }

  lemma EventLeavesNothing(x: Exchange, setup: Setup, e: Event)
    requires Happens(x, setup, e)
    ensures SameResidue(Follow(x, setup, e).residue, x.residue) <==> MeetsBook(x, e)
  {
    match e
    case Place(o, m, trades, left, resting, after, ids) =>
      LeavesNothingExactly(x.books, x.rows, o, m, trades, left, resting, after, x.residue,
                           InfoOf(setup.symbols, m.symbol));
    case Cancel(_) =>
    case Perp(_) =>
  }

  ghost predicate AlwaysMeetsBook(x: Exchange, setup: Setup, events: seq<Event>)
    requires Smooth(x, setup, events)
    decreases |events|
  {
    events == [] || (MeetsBook(x, events[0]) && AlwaysMeetsBook(Follow(x, setup, events[0]), setup, events[1..]))
  }

  /** A run leaves every residue as it was exactly when all of its orders meet that condition. */
  lemma {:induction false} RunLeavesNothing(x: Exchange, setup: Setup, events: seq<Event>)
    requires Smooth(x, setup, events)
    ensures SameResidue(RunAll(x, setup, events).residue, x.residue) <==> AlwaysMeetsBook(x, setup, events)
    decreases |events|
  {
    if events != [] {
      var y := Follow(x, setup, events[0]);
      EventLeavesNothing(x, setup, events[0]);
      RunLeavesNothing(y, setup, events[1..]);
      forall user, asset
        ensures Residue(x.residue, user, asset) <= Residue(y.residue, user, asset) <=
                Residue(RunAll(y, setup, events[1..]).residue, user, asset)
      {
        EventKeepsResidue(x, setup, events[0], user, asset);
        ResidueNeverFalls(y, setup, events[1..], user, asset);
      }
    }
  }

  /** From an empty exchange: all that is frozen is still needed, by a resting order or an open
      position, if and only if every order of the run met that condition. */
  lemma AllFrozenNeeded(x: Exchange, setup: Setup, events: seq<Event>)
    requires Opening(x, setup) && Smooth(x, setup, events)
    ensures var y := RunAll(x, setup, events);
            (forall user, asset :: Frozen(y.ledger.balances, user, asset) ==
                                   Locked(y.books, setup.symbols, user, asset)
                                   + PerpDeskProof.OpenMargin(y.positions, setup.contracts, user, asset))
            <==> AlwaysMeetsBook(x, setup, events)
  {
    RunLeavesNothing(x, setup, events);
    forall user, asset
      ensures var y := RunAll(x, setup, events);
              Frozen(y.ledger.balances, user, asset) ==
              Locked(y.books, setup.symbols, user, asset)
              + PerpDeskProof.OpenMargin(y.positions, setup.contracts, user, asset) + Residue(y.residue, user, asset)
    {
      FrozenIsAccountedFor(x, setup, events, user, asset);
    }
  }

  // ----- one order -----------------------------------------------------------------------------

  /** What a buyer with this limit saves on these fills. */
  function Saved(trades: seq<Trade>, limit: real): real {
    if trades == [] then 0.0 else (limit - trades[0].price) * trades[0].quantity + Saved(trades[1..], limit)
  }

  function Releases(trades: seq<Trade>, info: Assets, user: string, asset: string): real {
    if trades == [] then 0.0
    else TradeHold(trades[0], trades[0].price, info, user, asset) + Releases(trades[1..], info, user, asset)
  }

  lemma {:induction false} SettleAllFrozen(
    s: Ledger, trades: seq<Trade>, info: Assets, ids: nat -> string, from: nat, user: string, asset: string)
    requires FreshTradeIds(s.txns, ids, from) && SettleAll(s, trades, info, ids, from).Ok?
    ensures Frozen(SettleAll(s, trades, info, ids, from).value.balances, user, asset) ==
            Frozen(s.balances, user, asset) - Releases(trades, info, user, asset)
    decreases |trades|
  {
    if trades != [] {
      var t := trades[0];
      SettleReleases(s, t, info, ids(from), user, asset);
      FreshAfterAppend(s.txns, Txn("trade", ids(from), TradeLegs(t, info)), ids, from);
      SettleAllFrozen(Settle(s, ids(from), TradeLegs(t, info), TradeReleases(t, info)).value, trades[1..], info, ids,
                      from + 1, user, asset);
    }
  }

  /** On the buyer's fills, what is released and what is saved make up the limit for every unit. */
  lemma {:induction false} ReleasedPlusSaved(trades: seq<Trade>, limit: real, info: Assets, buyer: string)
    requires info.base != info.quote && forall t :: t in trades ==> t.buyer == buyer
    ensures Releases(trades, info, buyer, info.quote) + Saved(trades, limit) ==
            limit * OrderBookProof.TotalQuantity(trades)
    decreases |trades|
  {
    if trades != [] {
      var t := trades[0];
      assert t in trades && forall u :: u in trades[1..] ==> u in trades;
      assert (limit - t.price) * t.quantity == limit * t.quantity - t.price * t.quantity;
      ReleasedPlusSaved(trades[1..], limit, info, buyer);
    }
  }

  lemma {:induction false} SavedSign(trades: seq<Trade>, limit: real)
    requires forall t :: t in trades ==> t.quantity > 0.0 && t.price <= limit
    ensures Saved(trades, limit) >= 0.0
    ensures Saved(trades, limit) == 0.0 <==> forall t :: t in trades ==> t.price == limit
    decreases |trades|
  {
    if trades != [] {
      var t := trades[0];
      assert t in trades;
      assert forall u :: u in trades <==> u == t || u in trades[1..];
      PositiveGap(limit - t.price, t.quantity, (limit - t.price) * t.quantity);
      SavedSign(trades[1..], limit);
    }
  }

  /** Every fill of a buy is the buyer's, of a positive quantity and within the limit; a buy that is
      completely filled was filled for its whole quantity. */
  lemma BuyFills(
    books: map<Market, BookVal>, rows: map<string, Row>, o: Ord, m: Market, trades: seq<Trade>, left: Ord,
    resting: bool, after: BookVal)
    requires Placed(books, rows, o, m, trades, left, resting, after) && o.side == Buy
    ensures forall t :: t in trades ==> t.buyer == o.user && t.quantity > 0.0 && t.price <= o.price
    ensures left.remaining == o.quantity - OrderBookProof.TotalQuantity(trades)
  {
    var asks := books[m].asks;
    assert BookAgrees(books[m], m, rows);
    OrderBookProof.MatchIsGreedy(o, asks);
    OrderBookProof.MatchPricesFairly(o, asks);
    forall t | t in trades
      ensures t.buyer == o.user && t.quantity > 0.0 && t.price <= o.price
    {
      var i :| 0 <= i < |trades| && trades[i] == t;
      assert OrderBookProof.FillsOne(o, asks[i], t);
      assert OrderBookProof.PricedFairly(o, asks[i], t);
    }
  }

  lemma NothingReleased(
    frozen: Ledger, info: Assets, refType: string, trades: seq<Trade>, ids: nat -> string, left: Ord, resting: bool)
    requires left.remaining == 0.0
    ensures AfterFreeze(frozen, info, refType, trades, ids, left, resting) == SettleAll(frozen, trades, info, ids, 0)
  {
  }

  lemma FreezeThenSettle(
    s: Ledger, c: Collateral, o: Ord, info: Assets, m: Market, trades: seq<Trade>, left: Ord, resting: bool,
    ids: nat -> string)
    requires c == CollateralForOrder(o.side, info, o.quantity, o.price) && left.remaining == 0.0
    requires LedgerAfterPlace(s, o, info, RefType(m.venue), trades, ids, left, resting).Ok?
    ensures c.Collateral?
    ensures var frozen := Freeze(s, o.user, c.asset, c.amount, RefType(m.venue), o.id);
            && frozen.Ok?
            && LedgerAfterPlace(s, o, info, RefType(m.venue), trades, ids, left, resting) ==
               SettleAll(frozen.value, trades, info, ids, 0)
  {
    if c.Collateral? {
      var frozen := Freeze(s, o.user, c.asset, c.amount, RefType(m.venue), o.id);
      if frozen.Ok? {
        NothingReleased(frozen.value, info, RefType(m.venue), trades, ids, left, resting);
      }
    }
  }

  /** The account's side of a buy that leaves nothing over: the freeze, then the settlements. */
  lemma FilledBuyLedger(
    s: Ledger, c: Collateral, info: Assets, o: Ord, m: Market, trades: seq<Trade>, left: Ord, resting: bool,
    ids: nat -> string)
    requires o.side == Buy && left.remaining == 0.0 && FreshTradeIds(s.txns, ids, 0)
    requires c == CollateralForOrder(o.side, info, o.quantity, o.price)
    requires LedgerAfterPlace(s, o, info, RefType(m.venue), trades, ids, left, resting).Ok?
    ensures c.Collateral?
    ensures var t := LedgerAfterPlace(s, o, info, RefType(m.venue), trades, ids, left, resting).value;
            Frozen(t.balances, o.user, info.quote) ==
            Frozen(s.balances, o.user, info.quote) + c.amount - Releases(trades, info, o.user, info.quote)
  {
    FreezeThenSettle(s, c, o, info, m, trades, left, resting, ids);
    var frozen := Freeze(s, o.user, c.asset, c.amount, RefType(m.venue), o.id).value;
    FreezeTxn(s, o.user, c.asset, c.amount, m.venue, o.id);
    FreshAfterAppend(s.txns, frozen.txns[|s.txns|], ids, 0);
    SettleAllFrozen(frozen, trades, info, ids, 0, o.user, info.quote);
  }

  lemma AmountCoversSavings(o: Ord, info: Assets, trades: seq<Trade>, c: Collateral)
    requires o.side == Buy && c == CollateralForOrder(o.side, info, o.quantity, o.price) && c.Collateral?
    requires info.base != info.quote && OrderBookProof.TotalQuantity(trades) == o.quantity
    requires forall t :: t in trades ==> t.buyer == o.user
    ensures c.amount == Releases(trades, info, o.user, info.quote) + Saved(trades, o.price)
  {
    ReleasedPlusSaved(trades, o.price, info, o.user);
    LimitForAll(o.quantity, OrderBookProof.TotalQuantity(trades), o.price, c.amount);
  }

  lemma LimitForAll(quantity: real, filled: real, limit: real, amount: real)
    requires quantity == filled && amount == quantity * limit
    ensures amount == limit * filled
  {
  }

  lemma FilledForAll(
    s: Ledger, info: Assets, o: Ord, m: Market, trades: seq<Trade>, left: Ord, resting: bool, ids: nat -> string)
    requires o.side == Buy && left.remaining == 0.0 && OrderBookProof.TotalQuantity(trades) == o.quantity
    requires forall t :: t in trades ==> t.buyer == o.user
    requires info.base != info.quote && FreshTradeIds(s.txns, ids, 0)
    requires LedgerAfterPlace(s, o, info, RefType(m.venue), trades, ids, left, resting).Ok?
    ensures var t := LedgerAfterPlace(s, o, info, RefType(m.venue), trades, ids, left, resting).value;
            Frozen(t.balances, o.user, info.quote) == Frozen(s.balances, o.user, info.quote) + Saved(trades, o.price)
  {
    var c := CollateralForOrder(o.side, info, o.quantity, o.price);
    FilledBuyLedger(s, c, info, o, m, trades, left, resting, ids);
    AmountCoversSavings(o, info, trades, c);
  }

  /** The fills of a filled buy are all at its limit exactly when the best ask is. */
  lemma BestAskDecides(
    books: map<Market, BookVal>, rows: map<string, Row>, o: Ord, m: Market, trades: seq<Trade>, left: Ord,
    resting: bool, after: BookVal)
    requires Placed(books, rows, o, m, trades, left, resting, after) && o.side == Buy && left.remaining == 0.0
    ensures books[m].asks != []
    ensures (forall f :: f in trades ==> f.price == o.price) <==> books[m].asks[0].price == o.price
  {
    var asks := books[m].asks;
    assert BookAgrees(books[m], m, rows);
    OrderBookProof.BestDecides(o, asks);
    assert asks != [] && Crosses(o, asks[0]);
    if forall f :: f in trades ==> f.price == o.price {
      assert forall i :: 0 <= i < |trades| ==> trades[i] in trades;
    } else {
      var f :| f in trades && f.price != o.price;
      var i :| 0 <= i < |trades| && trades[i] == f;
    }
  }

  /** A limit buy that is completely filled on arrival leaves frozen exactly what its fills saved on
      the limit, and leaves nothing frozen if and only if every fill was at the limit, which is so
      if and only if the best ask was. */
  lemma FilledBuyLeavesSavings(
    books: map<Market, BookVal>, rows: map<string, Row>, s: Ledger, info: Assets, o: Ord, m: Market, trades: seq<Trade>,
    left: Ord, resting: bool, after: BookVal, ids: nat -> string)
    requires Placed(books, rows, o, m, trades, left, resting, after) && o.side == Buy && left.remaining == 0.0
    requires info.base != info.quote && FreshTradeIds(s.txns, ids, 0)
    requires LedgerAfterPlace(s, o, info, RefType(m.venue), trades, ids, left, resting).Ok?
    ensures var t := LedgerAfterPlace(s, o, info, RefType(m.venue), trades, ids, left, resting).value;
            Frozen(t.balances, o.user, info.quote) == Frozen(s.balances, o.user, info.quote) + Saved(trades, o.price)
    ensures Saved(trades, o.price) >= 0.0
    ensures Saved(trades, o.price) == 0.0 <==> forall f :: f in trades ==> f.price == o.price
    ensures books[m].asks != [] && (Saved(trades, o.price) == 0.0 <==> books[m].asks[0].price == o.price)
  {
    BestAskDecides(books, rows, o, m, trades, left, resting, after);
    BuyFills(books, rows, o, m, trades, left, resting, after);
    SavedSign(trades, o.price);
    FilledForAll(s, info, o, m, trades, left, resting, ids);
  }

  // ----- an example ------------------------------------------------------------------------------

  const ASK := Ord("s1", "seller", Sell, 90.0, 1.0, 1.0, 0)
  const BID := Ord("b1", "buyer", Buy, 100.0, 1.0, 1.0, 1)
  const PAIR := Assets("BTC", "USDT")

  /** The buyer holds 200, the seller one coin for the order and one for the settlement's debit. */
  function ExampleLedger(): Ledger {
    Ledger(map[("buyer", "USDT") := Account(200.0, 0.0), ("buyer", "BTC") := Account(0.0, 0.0),
               ("seller", "BTC") := Account(1.0, 1.0), ("seller", "USDT") := Account(0.0, 0.0)], [])
  }

  /** A buy of one at 100 meets an ask at 90: nothing rests, the order is done, and 10 stay frozen. */
  lemma TenStayFrozen(ids: nat -> string)
    ensures var mt := MatchAgainst(BID, [ASK]);
            var l := LedgerAfterPlace(ExampleLedger(), BID, PAIR, "cex_order", mt.trades, ids, mt.incoming, false);
            && mt.opposite == [] && mt.incoming.remaining == 0.0
            && l.Ok? && Frozen(l.value.balances, "buyer", "USDT") == 10.0
  {
    var t := Trade("b1", "s1", "buyer", "seller", 90.0, 1.0);
    assert [ASK][1..] == [];
    var mt := MatchAgainst(BID, [ASK]);
    assert MatchAgainst(Reduced(BID, 1.0), []).trades == [];
    assert mt.trades == [t] && [t][1..] == [];
    var frozen := Freeze(ExampleLedger(), "buyer", "USDT", 100.0, "cex_order", "b1").value;
    OneFillSettles(frozen, t, ids(0));
    assert SettleAll(frozen, [t], PAIR, ids, 0) == Settle(frozen, ids(0), TradeLegs(t, PAIR), TradeReleases(t, PAIR));
  }

  /** The same two orders the other way round: a resting buy at 100 hit by a sell at 90 trades at 90
      and leaves its buyer's 10. */
  lemma RestingBuyLeavesTen()
    ensures var mt := MatchAgainst(ASK, [BID]);
            var rows := map["b1" := NewRow(BID, Market(CEX, "BTC-USDT"))];
            && mt.opposite == [] && mt.incoming.remaining == 0.0
            && Residue(AfterTrades(map[], mt.trades, rows, PAIR), "buyer", "USDT") == 10.0
  {
    var t := Trade("b1", "s1", "buyer", "seller", 90.0, 1.0);
    assert [BID][1..] == [];
    assert MatchAgainst(Reduced(ASK, 1.0), []).trades == [];
    assert MatchAgainst(ASK, [BID]).trades == [t] && [t][1..] == [];
  }

  lemma OneFillSettles(s: Ledger, t: Trade, id: string)
    requires t == Trade("b1", "s1", "buyer", "seller", 90.0, 1.0) && !HasRef(s.txns, "trade", id)
    requires s.balances == map[("buyer", "USDT") := Account(100.0, 100.0), ("buyer", "BTC") := Account(0.0, 0.0),
                               ("seller", "BTC") := Account(1.0, 1.0), ("seller", "USDT") := Account(0.0, 0.0)]
    ensures var r := Settle(s, id, TradeLegs(t, PAIR), TradeReleases(t, PAIR));
            r.Ok? && Frozen(r.value.balances, "buyer", "USDT") == 10.0
  {
    assert t.price * t.quantity == 90.0;
    SettlesExactly(s, id, t, PAIR);
    SettleReleases(s, t, PAIR, id, "buyer", "USDT");
  }
}
