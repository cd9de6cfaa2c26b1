/** Spot orders and perpetual positions on one account service: what every run of both keeps. */
module ExchangeRun {
  import opened AccountLedger
  import opened OrderBook
  import opened OrderEngine
  import opened OrderFlow
  import opened OrderFlowProof
  import opened PlaceProof
  import opened RealSums
  import opened SettleProof
  import PerpDesk
  import PerpDeskProof
  import Perps

  datatype Exchange = Exchange(
    books: map<Market, BookVal>, rows: map<string, Row>, residue: map<Key, real>,
    positions: map<PerpDesk.Slot, PerpDesk.Position>, marks: map<string, real>, ledger: Ledger)

  /** What does not change during a run. */
  datatype Setup = Setup(symbols: map<string, Assets>, contracts: map<string, PerpDesk.Contract>, house: string)

  datatype Event =
    | Place(o: Ord, m: Market, trades: seq<Trade>, left: Ord, resting: bool, after: BookVal, tradeIds: nat -> string)
    | Cancel(id: string)
    | Perp(act: PerpDeskProof.Act)

  function WorldOf(x: Exchange): PerpDeskProof.World {
    PerpDeskProof.World(PerpDesk.Desk(x.positions, x.ledger), x.marks)
  }

  predicate Open(rows: map<string, Row>, id: string) {
    id in rows && (rows[id].status == New || rows[id].status == PartiallyFilled)
  }

  /** The event is carried out, with every account call it needs succeeding. */
  ghost predicate Happens(x: Exchange, setup: Setup, e: Event) {
    match e
    case Place(o, m, trades, left, resting, after, ids) =>
      && Placed(x.books, x.rows, o, m, trades, left, resting, after)
      && FreshTradeIds(x.ledger.txns, ids, 0) && !UnfreezeUsed(x.ledger.txns, m.venue, o.id)
      && LedgerAfterPlace(x.ledger, o, InfoOf(setup.symbols, m.symbol), RefType(m.venue), trades, ids, left,
                          resting).Ok?
    case Cancel(id) => Open(x.rows, id)
    case Perp(act) =>
      && !PerpDeskProof.Do(WorldOf(x), setup.contracts, setup.house, act).outcome.Interrupted?
      && (act.OpenAct? ==> PerpDeskProof.UnfreezeUnused(x.ledger.txns, act.freezeId))
  }

  ghost function Follow(x: Exchange, setup: Setup, e: Event): Exchange
    requires Happens(x, setup, e)
  {
    match e
    case Place(o, m, trades, left, resting, after, ids) =>
      var info := InfoOf(setup.symbols, m.symbol);
      x.(books := x.books[m := after],
         rows := RowsAfterPlace(x.rows, o, m, trades, resting),
         residue := AfterTrades(x.residue, trades, x.rows[o.id := NewRow(o, m)], info),
         ledger := LedgerAfterPlace(x.ledger, o, info, RefType(m.venue), trades, ids, left, resting).value)
    case Cancel(id) =>
      var r := x.rows[id];
      x.(books := CancelBooks(x.books, Market(r.venue, r.symbol), id),
         rows := CancelRows(x.rows, id),
         ledger := LedgerAfterCancel(x.ledger, setup.symbols, r.venue, r, id))
    case Perp(act) =>
      var w := PerpDeskProof.After(WorldOf(x), setup.contracts, setup.house, act);
      x.(positions := w.desk.positions, marks := w.marks, ledger := w.desk.ledger)
  }

  ghost predicate Smooth(x: Exchange, setup: Setup, events: seq<Event>)
    decreases |events|
  {
    events == [] || (Happens(x, setup, events[0]) && Smooth(Follow(x, setup, events[0]), setup, events[1..]))
  }

  ghost function RunAll(x: Exchange, setup: Setup, events: seq<Event>): Exchange
    requires Smooth(x, setup, events)
    decreases |events|
  {
    if events == [] then x else RunAll(Follow(x, setup, events[0]), setup, events[1..])
  }

  // ----- the joint invariant -----------------------------------------------------------------

  /** What perpetual positions keep frozen. */
  ghost function Margins(x: Exchange, setup: Setup): (string, string) -> real {
    (user, asset) => PerpDeskProof.OpenMargin(x.positions, setup.contracts, user, asset)
  }

  /** What spot orders keep frozen. */
  ghost function OrderMoney(x: Exchange, setup: Setup): (string, string) -> real {
    (user, asset) => Locked(x.books, setup.symbols, user, asset) + Residue(x.residue, user, asset)
  }

  /** Books, order rows and references agree; margins are on the grid; and every frozen balance is
      the collateral of the resting orders, plus the open margin, plus the improvement left behind. */
  ghost predicate JointInv(x: Exchange, setup: Setup) {
    && FlowInv(x.books, setup.symbols, x.rows, x.ledger, x.residue, Margins(x, setup))
    && PerpDeskProof.RowsOnGrid(x.positions, setup.contracts)
  }

  /** Nothing ordered, nothing open, nothing frozen. */
  ghost predicate Opening(x: Exchange, setup: Setup) {
    && (forall m :: m in x.books ==> m.symbol in setup.symbols && x.books[m] == BookVal([], []))
    && x.rows == map[] && x.residue == map[] && x.positions == map[]
    && (forall user, asset :: Frozen(x.ledger.balances, user, asset) == 0.0)
  }

  lemma OpeningIsJoint(x: Exchange, setup: Setup)
    requires Opening(x, setup)
    ensures JointInv(x, setup)
  {
    forall user, asset
      ensures Locked(x.books, setup.symbols, user, asset) == 0.0
      ensures PerpDeskProof.OpenMargin(x.positions, setup.contracts, user, asset) == 0.0
    {
      ZeroRows(LockRows(x.books, setup.symbols, user, asset));
      assert PerpDeskProof.MarginRows(x.positions, setup.contracts, user, asset) == map[];
    }
  }

  lemma {:induction false} ZeroRows<K>(m: map<K, real>)
    requires forall key :: key in m ==> m[key] == 0.0
    ensures SumOver(m) == 0.0
    decreases |m|
  {
    if m != map[] {
      var key :| key in m;
      SumPick(m, key);
      ZeroRows(m - {key});
    }
  }

  /** Seen from the desk, the orders' money is what else is frozen. */
  lemma JointIsDesk(x: Exchange, setup: Setup)
    requires JointInv(x, setup)
    ensures PerpDeskProof.DeskInv(WorldOf(x).desk, setup.contracts, OrderMoney(x, setup))
  {
    forall user, asset
      ensures OrderMoney(x, setup)(user, asset) >= 0.0
    {
      LockedNonNegative(x.books, setup.symbols, x.rows, user, asset);
    }
  }

  // ----- perpetual requests leave order references alone ---------------------------------------

  predicate Grew(before: seq<Txn>, after: seq<Txn>) {
    |before| <= |after| && after[..|before|] == before
    && forall i :: |before| <= i < |after| ==> after[i].refType == PerpDesk.REF_TYPE || after[i].refType == "trade"
  }

  lemma GrewAgain(a: seq<Txn>, b: seq<Txn>, c: seq<Txn>)
    requires Grew(a, b) && Grew(b, c)
    ensures Grew(a, c)
  {
    assert c[..|a|] == b[..|a|];
    forall i | |a| <= i < |c|
      ensures c[i].refType == PerpDesk.REF_TYPE || c[i].refType == "trade"
    {
      if i < |b| {
        assert c[..|b|][i] == b[i];
      }
    }
  }

  lemma ShiftGrows(s: Ledger, user: string, asset: string, amount: real, id: string)
    ensures var f := Freeze(s, user, asset, amount, PerpDesk.REF_TYPE, id); f.Ok? ==> Grew(s.txns, f.value.txns)
    ensures var u := Unfreeze(s, user, asset, amount, PerpDesk.REF_TYPE, id); u.Ok? ==> Grew(s.txns, u.value.txns)
  {
  }

  lemma BookGrows(s: Ledger, user: string, house: string, amount: real, tradeId: string)
    ensures var b := PerpDesk.Book(s, user, house, amount, tradeId); b.Ok? ==> Grew(s.txns, b.value.txns)
  {
  }

  lemma OpenGrows(w: PerpDeskProof.World, setup: Setup, act: PerpDeskProof.Act)
    requires act.OpenAct?
    ensures Grew(w.desk.ledger.txns, PerpDeskProof.Do(w, setup.contracts, setup.house, act).desk.ledger.txns)
  {
    var s, symbol := w.desk.ledger, act.slot.1;
    if symbol in setup.contracts && symbol in w.marks {
      var margin := PerpDesk.MarginFor(act.size, w.marks[symbol], act.leverage);
      var quote := setup.contracts[symbol].quote;
      var frozen := Freeze(s, act.slot.0, quote, margin, PerpDesk.REF_TYPE, act.freezeId);
      ShiftGrows(s, act.slot.0, quote, margin, act.freezeId);
      if frozen.Ok? {
        ShiftGrows(frozen.value, act.slot.0, quote, margin, act.freezeId);
        var undone := Unfreeze(frozen.value, act.slot.0, quote, margin, PerpDesk.REF_TYPE, act.freezeId);
        if undone.Ok? {
          GrewAgain(s.txns, frozen.value.txns, undone.value.txns);
        }
      }
    }
  }

  lemma CloseGrows(d: PerpDesk.Desk, setup: Setup, slot: PerpDesk.Slot, size: real, mark: real, tradeId: string)
    requires slot in d.positions
    ensures Grew(d.ledger.txns,
                 PerpDesk.CloseSize(d, setup.contracts, slot, size, mark, setup.house, tradeId).desk.ledger.txns)
  {
    var p := d.positions[slot];
    if slot.1 in setup.contracts {
      var release, quote := PerpDeskProof.ReleaseOf(d, slot, size), setup.contracts[slot.1].quote;
      var pnl := PerpDesk.ProfitOf(p, size, mark);
      var freed := Unfreeze(d.ledger, slot.0, quote, release, PerpDesk.REF_TYPE, p.id);
      ShiftGrows(d.ledger, slot.0, quote, release, p.id);
      if freed.Ok? {
        BookGrows(freed.value, slot.0, setup.house, pnl, tradeId);
        var booked := PerpDesk.Book(freed.value, slot.0, setup.house, pnl, tradeId);
        if booked.Ok? {
          GrewAgain(d.ledger.txns, freed.value.txns, booked.value.txns);
        }
      }
    }
  }

  /** A perpetual request only appends transactions, none of them an order's. */
  lemma DeskGrows(w: PerpDeskProof.World, setup: Setup, act: PerpDeskProof.Act)
    ensures Grew(w.desk.ledger.txns, PerpDeskProof.Do(w, setup.contracts, setup.house, act).desk.ledger.txns)
  {
    match act
    case OpenAct(_, _, _, _, _, _) =>
      OpenGrows(w, setup, act);
    case CloseAct(slot, amount, tradeId) =>
      if slot in w.desk.positions && slot.1 in w.marks {
        CloseGrows(w.desk, setup, slot, PerpDesk.CloseAmount(w.desk.positions[slot], amount), w.marks[slot.1], tradeId);
      }
    case LiquidateAct(slot, tradeId) =>
      if slot in w.desk.positions && slot.1 in w.marks {
        CloseGrows(w.desk, setup, slot, w.desk.positions[slot].size, w.marks[slot.1], tradeId);
      }
    case FundAct(slot, rate, tradeId) =>
      if slot in w.desk.positions && slot.1 in w.marks {
        var p := w.desk.positions[slot];
        BookGrows(w.desk.ledger, slot.0, setup.house, Perps.FundingPayment(p.side, p.size, w.marks[slot.1], rate),
                  tradeId);
      }
    case MarkAct(_, _) =>
  }

  lemma GrewKeepsUnfreezes(before: seq<Txn>, after: seq<Txn>)
    requires Grew(before, after)
    ensures SameUnfreezes(before, after)
  {
    VenueRefTypes();
    assert RefType(CEX)[0] == 'c' && RefType(DEX)[0] == 'd' && PerpDesk.REF_TYPE[0] == 'p';
    forall venue, id
      ensures UnfreezeUsed(before, venue, id) == UnfreezeUsed(after, venue, id)
    {
      if UnfreezeUsed(before, venue, id) {
        var t :| t in before && t.refType == RefType(venue) && t.refId == FullRef(RefType(venue), id, "unfreeze");
        assert t in after[..|before|];
        assert t in after;
      }
      if UnfreezeUsed(after, venue, id) {
        var t :| t in after && t.refType == RefType(venue) && t.refId == FullRef(RefType(venue), id, "unfreeze");
        var i :| 0 <= i < |after| && after[i] == t;
        assert i < |before| && after[..|before|][i] == t;
      }
    }
  }

  lemma PerpKeepsJoint(x: Exchange, setup: Setup, act: PerpDeskProof.Act)
    requires JointInv(x, setup) && Happens(x, setup, Perp(act))
    ensures JointInv(Follow(x, setup, Perp(act)), setup)
  {
    JointIsDesk(x, setup);
    PerpDeskProof.StepKeepsDesk(WorldOf(x), setup.contracts, OrderMoney(x, setup), setup.house, act);
    var y := Follow(x, setup, Perp(act));
    DeskGrows(WorldOf(x), setup, act);
    GrewKeepsUnfreezes(x.ledger.txns, y.ledger.txns);
    RefsFollow(x, y);
    DeskIsJoint(x, y, setup);
  }

  /** Seen from the orders, the open margins are what else is frozen. */
  lemma DeskIsJoint(x: Exchange, y: Exchange, setup: Setup)
    requires y.books == x.books && y.residue == x.residue
    requires PerpDeskProof.DeskInv(WorldOf(y).desk, setup.contracts, OrderMoney(x, setup))
    requires forall key :: key in x.residue ==> x.residue[key] >= 0.0
    ensures Explained(y.books, setup.symbols, y.ledger.balances, y.residue, Margins(y, setup))
    ensures Backing(y.residue, Margins(y, setup))
  {
    forall user, asset
      ensures Frozen(y.ledger.balances, user, asset) ==
              Locked(y.books, setup.symbols, user, asset) + Residue(y.residue, user, asset)
                + Margins(y, setup)(user, asset)
      ensures Margins(y, setup)(user, asset) >= 0.0
    {
      SumNonNegative(PerpDeskProof.MarginRows(y.positions, setup.contracts, user, asset));
    }
  }

  lemma RefsFollow(x: Exchange, y: Exchange)
    requires RefsAgree(x.books, x.rows, x.ledger.txns) && SameUnfreezes(x.ledger.txns, y.ledger.txns)
    ensures RefsAgree(x.books, x.rows, y.ledger.txns)
  {
    forall id | id in x.rows
      ensures RefAgrees(y.ledger.txns, id, x.rows[id], Resting(x.books, id, x.rows[id]))
    {
      assert RefAgrees(x.ledger.txns, id, x.rows[id], Resting(x.books, id, x.rows[id]));
      assert UnfreezeUsed(x.ledger.txns, x.rows[id].venue, id) == UnfreezeUsed(y.ledger.txns, x.rows[id].venue, id);
    }
  }

  // ----- every run -----------------------------------------------------------------------------

  lemma PlaceKeepsJoint(x: Exchange, setup: Setup, e: Event)
    requires e.Place? && JointInv(x, setup) && Happens(x, setup, e)
    ensures JointInv(Follow(x, setup, e), setup)
  {
    PlaceKeepsFlow(x.books, setup.symbols, x.rows, x.ledger, x.residue, Margins(x, setup), e.o, e.m, e.trades, e.left,
                   e.resting, e.after, e.tradeIds);
    SameMargins(x, Follow(x, setup, e), setup);
  }

  lemma CancelKeepsJoint(x: Exchange, setup: Setup, id: string)
    requires JointInv(x, setup) && Happens(x, setup, Cancel(id))
    ensures JointInv(Follow(x, setup, Cancel(id)), setup)
  {
    if Resting(x.books, id, x.rows[id]) {
      CancelRestingFlow(x.books, setup.symbols, x.rows, x.ledger, x.residue, Margins(x, setup), id);
    } else {
      CancelAbsentFlow(x.books, setup.symbols, x.rows, x.ledger, x.residue, Margins(x, setup), id);
    }
    SameMargins(x, Follow(x, setup, Cancel(id)), setup);
  }

  /** Orders do not touch positions. */
  lemma SameMargins(x: Exchange, y: Exchange, setup: Setup)
    requires y.positions == x.positions
    ensures Margins(y, setup) == Margins(x, setup)
  {
  }

  lemma EventKeepsJoint(x: Exchange, setup: Setup, e: Event)
    requires JointInv(x, setup) && Happens(x, setup, e)
    ensures JointInv(Follow(x, setup, e), setup)
  {
    match e
    case Place(_, _, _, _, _, _, _) => PlaceKeepsJoint(x, setup, e);
    case Cancel(id) => CancelKeepsJoint(x, setup, id);
    case Perp(act) => PerpKeepsJoint(x, setup, act);
  }

  /** In every state reachable from an empty exchange by placing and cancelling orders and by
      opening, growing, closing and liquidating positions, all of it going through. */
  lemma {:induction false} ReachableIsJoint(x: Exchange, setup: Setup, events: seq<Event>)
    requires JointInv(x, setup) && Smooth(x, setup, events)
    ensures JointInv(RunAll(x, setup, events), setup)
    decreases |events|
  {
    if events != [] {
      EventKeepsJoint(x, setup, events[0]);
      ReachableIsJoint(Follow(x, setup, events[0]), setup, events[1..]);
    }
  }

  // ----- what a reachable state guarantees -------------------------------------------------------

  /** The split of any frozen balance after any run from the empty exchange. */
  lemma FrozenIsAccountedFor(x: Exchange, setup: Setup, events: seq<Event>, user: string, asset: string)
    requires Opening(x, setup) && Smooth(x, setup, events)
    ensures var y := RunAll(x, setup, events);
            Frozen(y.ledger.balances, user, asset) ==
            Locked(y.books, setup.symbols, user, asset)
            + PerpDeskProof.OpenMargin(y.positions, setup.contracts, user, asset)
            + Residue(y.residue, user, asset)
  {
    OpeningIsJoint(x, setup);
    ReachableIsJoint(x, setup, events);
  }

  /** After any such run an open limit order can be cancelled and gets all of its collateral back. */
  lemma OpenOrdersCanBeCancelled(x: Exchange, setup: Setup, events: seq<Event>, id: string)
    requires Opening(x, setup) && Smooth(x, setup, events)
    requires var y := RunAll(x, setup, events); Open(y.rows, id) && y.rows[id].typ == LimitOrder
    ensures var y := RunAll(x, setup, events);
            var r, c := y.rows[id], RowCollateral(setup.symbols, y.rows[id]);
            && Resting(y.books, id, r)
            && c.Collateral? && c.amount > 0.0
            && Unfreeze(y.ledger, r.user, c.asset, c.amount, RefType(r.venue), id).Ok?
  {
    OpeningIsJoint(x, setup);
    ReachableIsJoint(x, setup, events);
    var y := RunAll(x, setup, events);
    assert RowOk(y.rows[id], Resting(y.books, id, y.rows[id]));
    CancelRestingFlow(y.books, setup.symbols, y.rows, y.ledger, y.residue, Margins(y, setup), id);
  }

  /** After any such run the margin of every open position is there to be given back, unless the
      position's id has been spent. */
  lemma MarginsCanBeReturned(x: Exchange, setup: Setup, events: seq<Event>, slot: PerpDesk.Slot)
    requires Opening(x, setup) && Smooth(x, setup, events)
    requires slot in RunAll(x, setup, events).positions
    ensures var y := RunAll(x, setup, events);
            && slot.1 in setup.contracts
            && var p := y.positions[slot];
               (Unfreeze(y.ledger, slot.0, setup.contracts[slot.1].quote, p.margin, PerpDesk.REF_TYPE, p.id).Ok?
                <==> PerpDeskProof.UnfreezeUnused(y.ledger.txns, p.id))
  {
    OpeningIsJoint(x, setup);
    ReachableIsJoint(x, setup, events);
    var y := RunAll(x, setup, events);
    JointIsDesk(y, setup);
    var d := WorldOf(y).desk;
    PerpDeskProof.MarginIsThere(d, setup.contracts, OrderMoney(y, setup), slot, y.positions[slot].size);
    PerpDeskProof.FullCloseReturnsAll(d, setup.contracts, OrderMoney(y, setup), slot, 0.0, setup.house, "");
  }

  // ----- the documented settlement ---------------------------------------------------------------

  /** The settlement worked through in the ledger design, 0.5 at 100000, with both parties holding
      exactly the collateral the design asks for: the debit of the buyer's available balance, which
      the freeze has emptied, makes it fail. */
  lemma DocumentedFillFails(txns: seq<Txn>, id: string)
    requires !HasRef(txns, "trade", id)
    ensures var info := Assets("BTC", "USDT");
            var t := Trade("b", "s", "buyer", "seller", 100000.0, 0.5);
            var s := Ledger(map[("buyer", "USDT") := Account(0.0, 50000.0), ("buyer", "BTC") := Account(0.0, 0.0),
                                ("seller", "BTC") := Account(0.0, 0.5), ("seller", "USDT") := Account(0.0, 0.0)], txns);
            Settle(s, id, TradeLegs(t, info), TradeReleases(t, info)) == Err(NegativeAvailable)
  {
    var info := Assets("BTC", "USDT");
    var t := Trade("b", "s", "buyer", "seller", 100000.0, 0.5);
    assert t.price * t.quantity == 50000.0;
    assert TradeLegs(t, info)[0] == Entry("buyer", "USDT", -50000.0);
  }
}
