/** The order service: freeze, match, settle, record — and cancel — against the stores. */
module OrderEngine {
  import opened OrderBook
  import opened AccountLedger
  import opened OrderFlow
  import opened PlaceProof
  import opened SettleProof
  import opened MoneyProof
  import opened CancelProof
  import opened Accounts
  import opened MatchingService
  import AccountLedgerProof
  import OrderBookProof
  import OrderOutcome

  // ----- the settlement loop, as functions ---------------------------------------------------

  function SettleAll(s: Ledger, trades: seq<Trade>, info: Assets, ids: nat -> string, from: nat): Result<Ledger>
    decreases |trades|
  {
    if trades == [] then Ok(s)
    else
      var next :- Settle(s, ids(from), TradeLegs(trades[0], info), TradeReleases(trades[0], info));
      SettleAll(next, trades[1..], info, ids, from + 1)
  }

  /** Settle every fill, then return what neither trades nor rests. */
  function AfterFreeze(
    frozen: Ledger, info: Assets, refType: string, trades: seq<Trade>, ids: nat -> string, left: Ord, resting: bool)
    : Result<Ledger>
  {
    var settled :- SettleAll(frozen, trades, info, ids, 0);
    if resting then Ok(settled) else ReleaseRest(settled, info, refType, left)
  }

  /** Return the collateral of a quantity that was neither filled nor left on the book. */
  function ReleaseRest(s: Ledger, info: Assets, refType: string, left: Ord): Result<Ledger> {
    if left.remaining <= 0.0 then Ok(s)
    else
      match CollateralForOrder(left.side, info, left.remaining, left.price)
      case Unsupported => Err(InvalidAmount)
      case Collateral(asset, amount) =>
        if amount == 0.0 then Ok(s) else Unfreeze(s, left.user, asset, amount, refType, left.id)
  }

  /** The account's side of a placed order. */
  function LedgerAfterPlace(
    s: Ledger, o: Ord, info: Assets, refType: string, trades: seq<Trade>, ids: nat -> string, left: Ord, resting: bool)
    : Result<Ledger>
  {
    match CollateralForOrder(o.side, info, o.quantity, o.price)
    case Unsupported => Err(InvalidAmount)
    case Collateral(asset, amount) =>
      var frozen :- Freeze(s, o.user, asset, amount, refType, o.id);
      AfterFreeze(frozen, info, refType, trades, ids, left, resting)
  }

  /** Trade ids are new and all different. */
  ghost predicate FreshTradeIds(txns: seq<Txn>, ids: nat -> string, from: nat) {
    && (forall i: nat, j: nat :: i != j ==> ids(i) != ids(j))
    && (forall i: nat :: i >= from ==> !HasRef(txns, "trade", ids(i)))
  }

  lemma FreshAfterAppend(txns: seq<Txn>, t: Txn, ids: nat -> string, from: nat)
    requires FreshTradeIds(txns, ids, from)
    requires t.refType != "trade" || t.refId == ids(from)
    ensures FreshTradeIds(txns + [t], ids, if t.refType == "trade" then from + 1 else from)
  {
    forall i: nat | i >= (if t.refType == "trade" then from + 1 else from)
      ensures !HasRef(txns + [t], "trade", ids(i))
    {
      HasRefAppend(txns, t, "trade", ids(i));
    }
  }

  /** All fills settle with the collateral that is in place, or stop on the available side; the
      frozen balances stay explained, and no unfreeze is recorded. */
  lemma {:induction false} SettleAllExplains(
    books: map<Market, BookVal>, symbols: map<string, Assets>, rows: map<string, Row>, s: Ledger,
    residue: map<Key, real>, other: (string, string) -> real, trades: seq<Trade>, rows1: map<string, Row>, info: Assets,
    tail: Ord, ids: nat -> string, from: nat)
    requires RowsAgree(books, rows) && Backing(residue, other) && Fair(trades, rows1)
    requires tail.remaining >= 0.0 && tail.price >= 0.0
    requires Pending(books, symbols, s.balances, residue, other, trades, rows1, info, tail)
    requires FreshTradeIds(s.txns, ids, from)
    ensures var r := SettleAll(s, trades, info, ids, from);
            && (r.Err? ==> r.failure == NegativeAvailable || r.failure == MissingBalance)
            && (r.Ok? ==>
                  && Pending(books, symbols, r.value.balances, AfterTrades(residue, trades, rows1, info), other, [],
                             rows1, info, tail)
                  && Backing(AfterTrades(residue, trades, rows1, info), other)
                  && SameUnfreezes(s.txns, r.value.txns))
    decreases |trades|
  {
    if trades != [] {
      var t := trades[0];
      NextTradeCovered(books, symbols, rows, s.balances, residue, other, trades, rows1, info, tail);
      SettleNeverShort(s, ids(from), t, info);
      var first := Settle(s, ids(from), TradeLegs(t, info), TradeReleases(t, info));
      if first.Ok? {
        SettleExplains(books, symbols, s, residue, other, trades, rows1, info, tail, ids(from));
        var txn := Txn("trade", ids(from), TradeLegs(t, info));
        AppendKeepsUnfreezes(s.txns, txn);
        FreshAfterAppend(s.txns, txn, ids, from);
        FairTail(trades, rows1);
        SettleAllExplains(books, symbols, rows, first.value, WithImprovement(residue, t, LimitOf(rows1, t.buyId), info),
                          other, trades[1..], rows1, info, tail, ids, from + 1);
      }
    }
  }

  lemma FairTail(trades: seq<Trade>, rows: map<string, Row>)
    requires trades != [] && Fair(trades, rows)
    ensures Fair(trades[1..], rows)
  {
    assert forall t :: t in trades[1..] ==> t in trades;
  }

  // ----- one placed order, as a whole --------------------------------------------------------

  lemma FreezeTxn(s: Ledger, user: string, asset: string, amount: real, venue: Venue, id: string)
    requires Freeze(s, user, asset, amount, RefType(venue), id).Ok?
    ensures var t := Freeze(s, user, asset, amount, RefType(venue), id).value;
            && SameUnfreezes(s.txns, t.txns)
            && forall ids: nat -> string :: FreshTradeIds(s.txns, ids, 0) ==> FreshTradeIds(t.txns, ids, 0)
  {
    var txn := Txn(RefType(venue), FullRef(RefType(venue), id, "freeze"),
                   [Entry(user, asset, -amount), Entry(user, asset, amount)]);
    AppendKeepsUnfreezes(s.txns, txn);
    VenueRefTypes();
    forall ids: nat -> string | FreshTradeIds(s.txns, ids, 0)
      ensures FreshTradeIds(s.txns + [txn], ids, 0)
    {
      FreshAfterAppend(s.txns, txn, ids, 0);
    }
  }

  /** An order that locks nothing any more leaves the balances explained by the book alone. */
  lemma NothingPending(
    books: map<Market, BookVal>, symbols: map<string, Assets>, balances: map<Key, Account>, residue: map<Key, real>,
    other: (string, string) -> real, rows: map<string, Row>, info: Assets, tail: Ord)
    requires Pending(books, symbols, balances, residue, other, [], rows, info, tail) && tail.remaining == 0.0
    ensures Explained(books, symbols, balances, residue, other)
  {
    forall user, asset
      ensures Frozen(balances, user, asset) ==
              Locked(books, symbols, user, asset) + Residue(residue, user, asset) + other(user, asset)
    {
      assert OrdLock(tail, info, user, asset) == 0.0;
      assert HoldSum([], rows, info, user, asset) == 0.0;
    }
  }

  /** The account calls of one placed order, from the freeze on: settlement stops on the available
      side or not at all, and the final release always succeeds. */
  lemma PlaceMoney(
    books: map<Market, BookVal>, symbols: map<string, Assets>, rows: map<string, Row>, s: Ledger,
    residue: map<Key, real>, other: (string, string) -> real, o: Ord, m: Market, trades: seq<Trade>, left: Ord,
    resting: bool, after: BookVal, ids: nat -> string)
    requires FlowInv(books, symbols, rows, s, residue, other)
    requires Placed(books, rows, o, m, trades, left, resting, after)
    requires FreshTradeIds(s.txns, ids, 0) && !UnfreezeUsed(s.txns, m.venue, o.id)
    requires var c := CollateralForOrder(o.side, InfoOf(symbols, m.symbol), o.quantity, o.price);
             c.Collateral? && Freeze(s, o.user, c.asset, c.amount, RefType(m.venue), o.id).Ok?
    ensures var info := InfoOf(symbols, m.symbol);
            var residue' := AfterTrades(residue, trades, rows[o.id := NewRow(o, m)], info);
            var r := LedgerAfterPlace(s, o, info, RefType(m.venue), trades, ids, left, resting);
            && (r.Err? ==> r.failure == NegativeAvailable || r.failure == MissingBalance)
            && (r.Ok? ==>
                  && Explained(books[m := after], symbols, r.value.balances, residue', other)
                  && Backing(residue', other)
                  && OnlyOwnUnfreeze(s.txns, r.value.txns, o.id)
                  && (UnfreezeUsed(r.value.txns, m.venue, o.id) <==> !resting && left.remaining > 0.0))
  {
    var info := InfoOf(symbols, m.symbol);
    var c := CollateralForOrder(o.side, info, o.quantity, o.price);
    var frozen := Freeze(s, o.user, c.asset, c.amount, RefType(m.venue), o.id).value;
    var rows1 := rows[o.id := NewRow(o, m)];
    MatchedMoney(books, symbols, rows, s, residue, other, o, m, trades, left, resting, after, ids);
    SettledMoney(books[m := after], symbols, RowsAfterPlace(rows, o, m, trades, resting), frozen, residue, other,
                 trades, rows1, info, left, resting, m.venue, ids);
  }

  /** Up to the match: the collateral is frozen and spread over book, trades and remainder. */
  lemma MatchedMoney(
    books: map<Market, BookVal>, symbols: map<string, Assets>, rows: map<string, Row>, s: Ledger,
    residue: map<Key, real>, other: (string, string) -> real, o: Ord, m: Market, trades: seq<Trade>, left: Ord,
    resting: bool, after: BookVal, ids: nat -> string)
    requires FlowInv(books, symbols, rows, s, residue, other)
    requires Placed(books, rows, o, m, trades, left, resting, after)
    requires FreshTradeIds(s.txns, ids, 0) && !UnfreezeUsed(s.txns, m.venue, o.id)
    requires var c := CollateralForOrder(o.side, InfoOf(symbols, m.symbol), o.quantity, o.price);
             c.Collateral? && Freeze(s, o.user, c.asset, c.amount, RefType(m.venue), o.id).Ok?
    ensures var info := InfoOf(symbols, m.symbol);
            var c := CollateralForOrder(o.side, info, o.quantity, o.price);
            var frozen := Freeze(s, o.user, c.asset, c.amount, RefType(m.venue), o.id).value;
            var rows1 := rows[o.id := NewRow(o, m)];
            && Pending(books[m := after], symbols, frozen.balances, residue, other, trades, rows1, info,
                       Tail(left, resting))
            && Fair(trades, rows1)
            && RowsAgree(books[m := after], RowsAfterPlace(rows, o, m, trades, resting))
            && FreshTradeIds(frozen.txns, ids, 0) && SameUnfreezes(s.txns, frozen.txns)
    ensures left == o.(remaining := left.remaining) && left.remaining >= 0.0
  {
    var info := InfoOf(symbols, m.symbol);
    var c := CollateralForOrder(o.side, info, o.quantity, o.price);
    var frozen := Freeze(s, o.user, c.asset, c.amount, RefType(m.venue), o.id).value;
    FreezeExplains(books, symbols, rows, s, residue, other, o, info, RefType(m.venue));
    FreezeTxn(s, o.user, c.asset, c.amount, m.venue, o.id);
    MatchExplains(books, symbols, rows, frozen.balances, residue, other, o, m, trades, left, resting, after);
    MatchIsFair(books, rows, o, m, trades, left, resting, after);
    PlaceKeepsRows(books, rows, o, m, trades, left, resting, after);
    MakersAfterPlace(books, rows, o, m, trades, left, resting, after);
  }

  /** From the match on: settle every fill, then return what is neither traded nor resting. */
  lemma SettledMoney(
    books: map<Market, BookVal>, symbols: map<string, Assets>, rows: map<string, Row>, frozen: Ledger,
    residue: map<Key, real>, other: (string, string) -> real, trades: seq<Trade>, rows1: map<string, Row>, info: Assets,
    left: Ord, resting: bool, venue: Venue, ids: nat -> string)
    requires RowsAgree(books, rows) && Backing(residue, other) && Fair(trades, rows1)
    requires Pending(books, symbols, frozen.balances, residue, other, trades, rows1, info, Tail(left, resting))
    requires left.remaining >= 0.0 && (left.price > 0.0 || (left.price == 0.0 && left.side == Sell))
    requires FreshTradeIds(frozen.txns, ids, 0) && !UnfreezeUsed(frozen.txns, venue, left.id)
    ensures var residue' := AfterTrades(residue, trades, rows1, info);
            var r := AfterFreeze(frozen, info, RefType(venue), trades, ids, left, resting);
            && (r.Err? ==> r.failure == NegativeAvailable || r.failure == MissingBalance)
            && (r.Ok? ==>
                  && Explained(books, symbols, r.value.balances, residue', other) && Backing(residue', other)
                  && OnlyOwnUnfreeze(frozen.txns, r.value.txns, left.id)
                  && (UnfreezeUsed(r.value.txns, venue, left.id) <==> !resting && left.remaining > 0.0))
  {
    SettleAllExplains(books, symbols, rows, frozen, residue, other, trades, rows1, info, Tail(left, resting), ids, 0);
    var settled := SettleAll(frozen, trades, info, ids, 0);
    if settled.Ok? {
      FinishExplains(books, symbols, rows, settled.value, AfterTrades(residue, trades, rows1, info), other, rows1, info,
                     left, resting, venue);
    }
  }

  /** The last step: either nothing is pending, or the remainder is given back. */
  lemma FinishExplains(
    books: map<Market, BookVal>, symbols: map<string, Assets>, rows: map<string, Row>, s: Ledger,
    residue: map<Key, real>, other: (string, string) -> real, rows1: map<string, Row>, info: Assets, left: Ord,
    resting: bool, venue: Venue)
    requires RowsAgree(books, rows) && Backing(residue, other)
    requires Pending(books, symbols, s.balances, residue, other, [], rows1, info, Tail(left, resting))
    requires left.remaining >= 0.0 && (left.price > 0.0 || (left.price == 0.0 && left.side == Sell))
    requires !UnfreezeUsed(s.txns, venue, left.id)
    ensures resting || left.remaining <= 0.0 ==> Explained(books, symbols, s.balances, residue, other)
    ensures !resting && left.remaining > 0.0 ==>
              var rest := CollateralForOrder(left.side, info, left.remaining, left.price);
              && rest.Collateral?
              && var r := Unfreeze(s, left.user, rest.asset, rest.amount, RefType(venue), left.id);
              && r.Ok? && Explained(books, symbols, r.value.balances, residue, other)
              && UnfreezeUsed(r.value.txns, venue, left.id) && OnlyOwnUnfreeze(s.txns, r.value.txns, left.id)
  {
    if resting || left.remaining <= 0.0 {
      NothingPending(books, symbols, s.balances, residue, other, rows1, info, Tail(left, resting));
    } else {
      HoldSumNoTrades(books, symbols, s.balances, residue, other, rows1, rows, info, left);
      UnfreezeExplains(books, symbols, rows, s, residue, other, left, info, RefType(venue));
      var rest := CollateralForOrder(left.side, info, left.remaining, left.price);
      UnfreezeRecorded(s, left.user, rest.asset, rest.amount, venue, left.id);
    }
  }

  lemma HoldSumNoTrades(
    books: map<Market, BookVal>, symbols: map<string, Assets>, balances: map<Key, Account>, residue: map<Key, real>,
    other: (string, string) -> real, rows1: map<string, Row>, rows: map<string, Row>, info: Assets, tail: Ord)
    requires Pending(books, symbols, balances, residue, other, [], rows1, info, tail)
    ensures Pending(books, symbols, balances, residue, other, [], rows, info, tail)
  {
    forall user, asset
      ensures Frozen(balances, user, asset) ==
              Locked(books, symbols, user, asset) + Residue(residue, user, asset) + other(user, asset)
              + HoldSum([], rows, info, user, asset) + OrdLock(tail, info, user, asset)
    {
      assert HoldSum([], rows1, info, user, asset) == HoldSum([], rows, info, user, asset);
    }
  }

  lemma UnfreezeRecorded(s: Ledger, user: string, asset: string, amount: real, venue: Venue, id: string)
    requires Unfreeze(s, user, asset, amount, RefType(venue), id).Ok?
    ensures var t := Unfreeze(s, user, asset, amount, RefType(venue), id).value;
            UnfreezeUsed(t.txns, venue, id) && OnlyOwnUnfreeze(s.txns, t.txns, id)
  {
    var t := Unfreeze(s, user, asset, amount, RefType(venue), id).value;
    assert t.txns == s.txns + [t.txns[|s.txns|]];
    AppendUnfreeze(s.txns, t.txns[|s.txns|], venue, id);
  }

  /** The joint invariant survives a placed order. */
  lemma PlaceKeepsFlow(
    books: map<Market, BookVal>, symbols: map<string, Assets>, rows: map<string, Row>, s: Ledger,
    residue: map<Key, real>, other: (string, string) -> real, o: Ord, m: Market, trades: seq<Trade>, left: Ord,
    resting: bool, after: BookVal, ids: nat -> string)
    requires FlowInv(books, symbols, rows, s, residue, other)
    requires Placed(books, rows, o, m, trades, left, resting, after)
    requires FreshTradeIds(s.txns, ids, 0) && !UnfreezeUsed(s.txns, m.venue, o.id)
    requires LedgerAfterPlace(s, o, InfoOf(symbols, m.symbol), RefType(m.venue), trades, ids, left, resting).Ok?
    ensures var info := InfoOf(symbols, m.symbol);
            FlowInv(books[m := after], symbols, RowsAfterPlace(rows, o, m, trades, resting),
                    LedgerAfterPlace(s, o, info, RefType(m.venue), trades, ids, left, resting).value,
                    AfterTrades(residue, trades, rows[o.id := NewRow(o, m)], info), other)
  {
    var info := InfoOf(symbols, m.symbol);
    var s' := LedgerAfterPlace(s, o, info, RefType(m.venue), trades, ids, left, resting).value;
    PlaceMoney(books, symbols, rows, s, residue, other, o, m, trades, left, resting, after, ids);
    PlaceKeepsRows(books, rows, o, m, trades, left, resting, after);
    PlaceKeepsRefs(books, rows, o, m, trades, left, resting, after, s.txns, s'.txns);
  }

  // ----- one cancelled order, as a whole -----------------------------------------------------

  /** What the service asks the account to give back for an open row. */
  function RowCollateral(symbols: map<string, Assets>, r: Row): Collateral {
    CollateralForOrder(r.side, InfoOf(symbols, r.symbol), r.quantity - r.filled, r.price)
  }

  /** Cancelling a resting order always finds its collateral and returns all of it. */
  lemma CancelRestingFlow(
    books: map<Market, BookVal>, symbols: map<string, Assets>, rows: map<string, Row>, s: Ledger,
    residue: map<Key, real>, other: (string, string) -> real, id: string)
    requires FlowInv(books, symbols, rows, s, residue, other) && id in rows && Resting(books, id, rows[id])
    requires rows[id].status == New || rows[id].status == PartiallyFilled
    ensures var c := RowCollateral(symbols, rows[id]);
            && c.Collateral? && c.amount > 0.0
            && var r := Unfreeze(s, rows[id].user, c.asset, c.amount, RefType(rows[id].venue), id);
            && r.Ok?
            && FlowInv(CancelBooks(books, Market(rows[id].venue, rows[id].symbol), id), symbols, CancelRows(rows, id),
                       r.value, residue, other)
  {
    var m := Market(rows[id].venue, rows[id].symbol);
    var books' := CancelBooks(books, m, id);
    assert RefAgrees(s.txns, id, rows[id], true);
    var o := CancelFreesLock(books, symbols, rows, s.balances, residue, other, id);
    CancelKeepsRows(books, rows, id);
    HoldSumNoTrades(books', symbols, s.balances, residue, other, rows, CancelRows(rows, id), InfoOf(symbols, m.symbol),
                    o);
    UnfreezeExplains(books', symbols, CancelRows(rows, id), s, residue, other, o, InfoOf(symbols, m.symbol),
                     RefType(m.venue));
    var c := RowCollateral(symbols, rows[id]);
    assert rows[id].quantity - rows[id].filled == o.remaining;
    UnfreezeRecorded(s, o.user, c.asset, c.amount, m.venue, id);
    var r := Unfreeze(s, o.user, c.asset, c.amount, RefType(m.venue), id);
    CancelKeepsRefs(books, rows, id, s.txns, r.value.txns);
  }

  /** The only open rows that do not rest are partly filled market orders, and what they did not
      need was given back when they were placed: asking again fails and changes nothing. */
  lemma CancelAbsentFlow(
    books: map<Market, BookVal>, symbols: map<string, Assets>, rows: map<string, Row>, s: Ledger,
    residue: map<Key, real>, other: (string, string) -> real, id: string)
    requires FlowInv(books, symbols, rows, s, residue, other) && id in rows && !Resting(books, id, rows[id])
    requires rows[id].status == New || rows[id].status == PartiallyFilled
    ensures var c := RowCollateral(symbols, rows[id]);
            && (c.Collateral? ==> Unfreeze(s, rows[id].user, c.asset, c.amount, RefType(rows[id].venue), id).Err?)
            && CancelBooks(books, Market(rows[id].venue, rows[id].symbol), id) == books
            && FlowInv(books, symbols, CancelRows(rows, id), s, residue, other)
  {
    var m := Market(rows[id].venue, rows[id].symbol);
    assert RowOk(rows[id], false);
    assert RefAgrees(s.txns, id, rows[id], false);
    if m in books {
      CancelAbsentBooks(books, rows, id, m);
    }
    assert CancelBooks(books, m, id) == books;
    CancelKeepsRows(books, rows, id);
    CancelKeepsRefs(books, rows, id, s.txns, s.txns);
  }

  // ----- the order table ---------------------------------------------------------------------

  /** The rows, with the price improvement their fills have left frozen. */
  class OrderStore {
    var rows: map<string, Row>
    ghost var residue: map<Key, real>

    constructor ()
      ensures rows == map[] && residue == map[]
    {
      rows, residue := map[], map[];
    }

    method CreateOrder(id: string, row: Row)
      modifies this`rows
      ensures rows == old(rows)[id := row]
    {
      rows := rows[id := row];
    }

    method UpdateOrderFill(id: string, filled: real, status: Status)
      modifies this`rows
      ensures rows == if id in old(rows) then old(rows)[id := old(rows)[id].(filled := filled, status := status)]
              else old(rows)
    {
      if id in rows {
        rows := rows[id := rows[id].(filled := filled, status := status)];
      }
    }

    /** Only an open order can be cancelled. */
    method CancelOrder(id: string) returns (ok: bool)
      modifies this`rows
      ensures ok <==> id in old(rows) && (old(rows)[id].status == New || old(rows)[id].status == PartiallyFilled)
      ensures rows == if ok then CancelRows(old(rows), id) else old(rows)
    {
      ok := id in rows && (rows[id].status == New || rows[id].status == PartiallyFilled);
      if ok {
        rows := rows[id := rows[id].(status := Cancelled)];
      }
    }
  }

  datatype FlowError =
    | UnknownSymbol | InvalidPrice | MarketBuyUnsupported | NotFound | NotCancellable
    | AccountError(failure: Failure)

  /** `Interrupted` is an order whose settlement failed after it was matched. */
  datatype PlaceResult =
    | Accepted(row: Row, trades: seq<Trade>) | Refused(error: FlowError) | Interrupted(failure: Failure)

  datatype Request = Request(user: string, symbol: string, side: Side, typ: OrderType, price: real, quantity: real)

  /** The order a request turns into; a market order carries no price. */
  function OrderFor(req: Request, id: string, now: int): Ord {
    Ord(id, req.user, req.side, if req.typ == MarketOrder then 0.0 else req.price, req.quantity, req.quantity, now)
  }

  /** A request is admitted if its symbol is listed, a limit order has a positive price, a market order
      sells, and the user has the collateral available: quantity times price in the quote asset for
      a buy, the quantity in the base asset for a sell. */
  predicate Admissible(req: Request, orderId: string, venue: Venue, symbols: map<string, Assets>, s: Ledger) {
    && req.symbol in symbols
    && (req.typ == LimitOrder ==> req.price > 0.0) && (req.typ == MarketOrder ==> req.side == Sell)
    && req.quantity > 0.0
    && var asset := if req.side == Buy then symbols[req.symbol].quote else symbols[req.symbol].base;
    && var amount := if req.side == Buy then req.quantity * req.price else req.quantity;
    && (req.user, asset) in s.balances && amount <= s.balances[(req.user, asset)].available
    && var ref := if venue == CEX then "cex_order" else "dex_order";
    && !HasRef(s.txns, ref, ref + ":" + orderId + ":freeze")
  }

  /** The error names the first check that fails; the account's own comes last. */
  predicate FirstObjection(req: Request, symbols: map<string, Assets>, error: FlowError) {
    if req.symbol !in symbols then error == UnknownSymbol
    else if req.typ == LimitOrder && req.price <= 0.0 then error == InvalidPrice
    else if req.typ == MarketOrder && req.side == Buy then error == MarketBuyUnsupported
    else error.AccountError?
  }

  lemma AdmittedExactly(req: Request, orderId: string, now: int, venue: Venue, symbols: map<string, Assets>, s: Ledger)
    requires req.symbol in symbols && (req.typ == LimitOrder ==> req.price > 0.0)
    ensures var o := OrderFor(req, orderId, now);
            var c := CollateralForOrder(o.side, symbols[req.symbol], o.quantity, o.price);
            && (c.Unsupported? <==> req.typ == MarketOrder && req.side == Buy)
            && (c.Collateral? ==>
                  (Freeze(s, o.user, c.asset, c.amount, RefType(venue), orderId).Ok? <==>
                   Admissible(req, orderId, venue, symbols, s)))
  {
    var o := OrderFor(req, orderId, now);
    var c := CollateralForOrder(o.side, symbols[req.symbol], o.quantity, o.price);
    if c.Collateral? {
      AccountLedgerProof.FreezesExactly(s, o.user, c.asset, c.amount, RefType(venue), orderId);
      if req.side == Buy {
        PositiveFactor(req.quantity, req.price);
      }
    }
  }

  lemma PositiveFactor(a: real, b: real)
    requires b > 0.0
    ensures a * b > 0.0 <==> a > 0.0
  {
  }

  /** The row handed back: what was requested, how much of it is filled and the status that follows;
      and if the order rests, it stands on its side of the book at its price and time. */
  predicate Reported(
    row: Row, req: Request, orderId: string, now: int, venue: Venue, filled: real, resting: bool, book: BookVal)
  {
    && row.user == req.user && row.side == req.side && row.typ == req.typ && row.quantity == req.quantity
    && row.price == (if req.typ == MarketOrder then 0.0 else req.price)
    && OrderOutcome.Recorded(row, OrderFor(req, orderId, now), Market(venue, req.symbol), filled, resting)
    && (resting ==> Waits(req, orderId, now, filled, if req.side == Buy then book.bids else book.asks))
  }

  predicate Waits(req: Request, orderId: string, now: int, filled: real, side: seq<Ord>) {
    Ord(orderId, req.user, req.side, req.price, req.quantity, req.quantity - filled, now) in side
  }

  lemma RestWaits(req: Request, orderId: string, now: int, filled: real, left: Ord, side: seq<Ord>)
    requires var o := OrderFor(req, orderId, now);
             left == Ord(o.id, o.user, o.side, o.price, o.quantity, o.quantity - filled, o.createdAt) && o.price != 0.0
    requires left in side
    ensures Waits(req, orderId, now, filled, side)
  {
  }

  lemma RowReported(
    books: map<Market, BookVal>, rows: map<string, Row>, req: Request, orderId: string, now: int, venue: Venue,
    trades: seq<Trade>, left: Ord, resting: bool, after: BookVal)
    requires req.typ == LimitOrder ==> req.price > 0.0
    requires Placed(books, rows, OrderFor(req, orderId, now), Market(venue, req.symbol), trades, left, resting, after)
    ensures var final := RowsAfterPlace(rows, OrderFor(req, orderId, now), Market(venue, req.symbol), trades, resting);
            && orderId in final
            && Reported(final[orderId], req, orderId, now, venue, OrderBookProof.TotalQuantity(trades), resting, after)
  {
    var o, m := OrderFor(req, orderId, now), Market(venue, req.symbol);
    OrderOutcome.TakerRecorded(books, rows, o, m, trades, left, resting, after);
    OrderOutcome.RestsOnBook(books, rows, o, m, trades, left, resting, after);
    if resting {
      RestWaits(req, orderId, now, OrderBookProof.TotalQuantity(trades), left,
                if req.side == Buy then after.bids else after.asks);
    }
  }

  lemma PositiveCollateral(o: Ord, info: Assets)
    requires o.price >= 0.0
    requires var c := CollateralForOrder(o.side, info, o.quantity, o.price); c.Collateral? && c.amount > 0.0
    ensures o.quantity > 0.0 && (o.price > 0.0 || (o.price == 0.0 && o.side == Sell))
  {
  }

  lemma HubIsValid(hub: Hub, rows: map<string, Row>)
    requires RowsAgree(hub.books, rows)
    ensures hub.Valid()
  {
    forall m | m in hub.books
      ensures WellFormed(hub.books[m])
    {
      assert BookAgrees(hub.books[m], m, rows);
    }
  }

  /** Every fill names the incoming order on one of its sides. */
  lemma TradesNameTaker(
    books: map<Market, BookVal>, rows: map<string, Row>, o: Ord, m: Market, trades: seq<Trade>, left: Ord,
    resting: bool, after: BookVal)
    requires Placed(books, rows, o, m, trades, left, resting, after)
    ensures forall t :: t in trades ==> t.buyId == o.id || t.sellId == o.id
  {
    var opposite := Opposite(books[m], o.side);
    assert BookAgrees(books[m], m, rows);
    FillAmounts(o, opposite);
    OrderBookProof.MatchIsGreedy(o, opposite);
    forall t | t in trades
      ensures t.buyId == o.id || t.sellId == o.id
    {
      var i :| 0 <= i < |trades| && trades[i] == t;
      assert OrderBookProof.FillsOne(o, opposite[i], t);
    }
  }

  datatype Admission = Yes | No(error: FlowError)

  datatype CancelResult = Done(row: Row) | NotDone(error: FlowError)

  lemma {:induction false} TakerUntouched(rows: map<string, Row>, trades: seq<Trade>, taker: string)
    requires taker in rows
    ensures taker in FillMakers(rows, trades, taker) && FillMakers(rows, trades, taker)[taker] == rows[taker]
    decreases |trades|
  {
    if trades != [] {
      TakerUntouched(FillMaker(rows, trades[0], taker), trades[1..], taker);
    }
  }

  /** What the account makes of a cancel: the collateral back, or nothing. */
  function LedgerAfterCancel(s: Ledger, symbols: map<string, Assets>, venue: Venue, r: Row, id: string): Ledger {
    var c := RowCollateral(symbols, r);
    if c.Unsupported? then s
    else
      var freed := Unfreeze(s, r.user, c.asset, c.amount, RefType(venue), id);
      if freed.Ok? then freed.value else s
  }

  class Engine {
    const venue: Venue
    const symbols: map<string, Assets>
    const store: OrderStore
    const account: AccountStore
    const hub: Hub

    constructor (venue: Venue, symbols: map<string, Assets>, store: OrderStore, account: AccountStore, hub: Hub)
      ensures this.venue == venue && this.symbols == symbols
      ensures this.store == store && this.account == account && this.hub == hub
    {
      this.venue, this.symbols, this.store, this.account, this.hub := venue, symbols, store, account, hub;
    }

    /** The joint invariant of book, rows and balances; `other` is what is frozen for other reasons. */
    ghost predicate Inv(other: (string, string) -> real)
      reads store, account, hub
    {
      && FlowInv(hub.books, symbols, store.rows, account.State(), store.residue, other)
      && forall v, s :: s in symbols ==> Market(v, s) in hub.books
    }

    /** Settle and record every fill, in order. */
    method SettleTrades(trades: seq<Trade>, info: Assets, orderId: string, tradeIds: nat -> string)
      returns (filled: real, failure: Result<()>)
      requires forall t :: t in trades ==> t.buyId == orderId || t.sellId == orderId
      modifies store, account
      ensures failure.Err? ==> SettleAll(old(account.State()), trades, info, tradeIds, 0) == Err(failure.failure)
      ensures failure.Ok? ==>
                && failure == Ok(())
                && SettleAll(old(account.State()), trades, info, tradeIds, 0) == Ok(account.State())
                && store.rows == FillMakers(old(store.rows), trades, orderId)
                && filled == OrderBookProof.TotalQuantity(trades)
                && store.residue == AfterTrades(old(store.residue), trades, old(store.rows), info)
    {
      filled := 0.0;
      ghost var rows0 := store.rows;
      for i := 0 to |trades|
        invariant SettleAll(old(account.State()), trades, info, tradeIds, 0) ==
                  SettleAll(account.State(), trades[i..], info, tradeIds, i)
        invariant FillMakers(rows0, trades, orderId) == FillMakers(store.rows, trades[i..], orderId)
        invariant filled + OrderBookProof.TotalQuantity(trades[i..]) == OrderBookProof.TotalQuantity(trades)
        invariant AfterTrades(old(store.residue), trades, rows0, info) ==
                  AfterTrades(store.residue, trades[i..], rows0, info)
      {
        var t := trades[i];
        assert trades[i..][1..] == trades[i + 1..];
        failure := account.SettleTrade(tradeIds(i), TradeLegs(t, info), TradeReleases(t, info));
        if failure.Err? {
          return;
        }
        if t.buyId == orderId || t.sellId == orderId {
          filled := filled + t.quantity;
        }
        FillMakerRow(t.buyId, orderId, t.quantity);
        FillMakerRow(t.sellId, orderId, t.quantity);
        store.residue := WithImprovement(store.residue, t, LimitOf(rows0, t.buyId), info);
      }
      failure := Ok(());
    }

    /** Add a fill to the row of the order on the other side. */
    method FillMakerRow(id: string, taker: string, quantity: real)
      modifies store`rows
      ensures store.rows == FillIfMaker(old(store.rows), id, taker, quantity)
    {
      if id != taker && id in store.rows {
        var filled := store.rows[id].filled + quantity;
        store.UpdateOrderFill(id, filled, if filled >= store.rows[id].quantity then Filled else PartiallyFilled);
      }
    }

    /** Write the incoming order's filled quantity and status. */
    method RecordOutcome(
      o: Ord, m: Market, filled: real, resting: bool, ghost trades: seq<Trade>, ghost rows0: map<string, Row>)
      requires o.id !in rows0 && store.rows == FillMakers(rows0[o.id := NewRow(o, m)], trades, o.id)
      requires filled == OrderBookProof.TotalQuantity(trades)
      modifies store`rows
      ensures store.rows == RowsAfterPlace(rows0, o, m, trades, resting)
    {
      TakerUntouched(rows0[o.id := NewRow(o, m)], trades, o.id);
      var status := New;
      if filled > 0.0 {
        status := PartiallyFilled;
      }
      if filled >= o.quantity {
        status := Filled;
      }
      if !resting && filled < o.quantity && filled == 0.0 {
        status := Cancelled;
      }
      store.UpdateOrderFill(o.id, filled, status);
    }

    /** Return the collateral of the quantity that was neither filled nor left on the book. */
    method ReleaseRemaining(o: Ord, info: Assets, filled: real) returns (r: Result<()>)
      modifies account
      ensures match ReleaseRest(old(account.State()), info, RefType(venue), o.(remaining := o.quantity - filled))
              case Ok(s) => r == Ok(()) && account.State() == s
              case Err(failure) => r == Err(failure)
    {
      var remaining := o.quantity - filled;
      if remaining <= 0.0 {
        return Ok(());
      }
      var c := CollateralForOrder(o.side, info, remaining, o.price);
      if c.Unsupported? {
        return Err(InvalidAmount);
      }
      if c.amount == 0.0 {
        return Ok(());
      }
      r := account.Unfreeze(RefType(venue), o.user, c.asset, c.amount, o.id);
    }

    /** Everything after the match: settle, record, release. */
    method FinishOrder(
      o: Ord, m: Market, info: Assets, trades: seq<Trade>, resting: bool, tradeIds: nat -> string, ghost left: Ord,
      ghost rows0: map<string, Row>)
      returns (r: Result<()>)
      requires o.id !in rows0 && store.rows == rows0[o.id := NewRow(o, m)]
      requires forall t :: t in trades ==> t.buyId == o.id || t.sellId == o.id
      requires left == o.(remaining := o.quantity - OrderBookProof.TotalQuantity(trades))
      modifies store, account
      ensures match AfterFreeze(old(account.State()), info, RefType(venue), trades, tradeIds, left, resting)
              case Err(failure) => r == Err(failure)
              case Ok(s) =>
                && r == Ok(()) && account.State() == s
                && store.rows == RowsAfterPlace(rows0, o, m, trades, resting)
                && store.residue == AfterTrades(old(store.residue), trades, rows0[o.id := NewRow(o, m)], info)
    {
      var filled;
      filled, r := SettleTrades(trades, info, o.id, tradeIds);
      if r.Err? {
        return;
      }
      RecordOutcome(o, m, filled, resting, trades, rows0);
      if !resting {
        r := ReleaseRemaining(o, info, filled);
      }
    }

    /** The checks before anything is matched, the freeze, and the new row. */
    method AdmitOrder(req: Request, orderId: string, now: int) returns (r: Admission)
      requires orderId !in store.rows
      modifies store`rows, account
      ensures r.Yes? <==> Admissible(req, orderId, venue, symbols, old(account.State()))
      ensures r.No? ==> FirstObjection(req, symbols, r.error)
      ensures r.No? ==> store.rows == old(store.rows) && account.State() == old(account.State())
      ensures r.Yes? ==>
                var o := OrderFor(req, orderId, now);
                && req.symbol in symbols && o.quantity > 0.0 && (o.price > 0.0 || (o.price == 0.0 && o.side == Sell))
                && var c := CollateralForOrder(o.side, symbols[req.symbol], o.quantity, o.price);
                && c.Collateral?
                && Freeze(old(account.State()), o.user, c.asset, c.amount, RefType(venue), orderId) ==
                   Ok(account.State())
                && store.rows == old(store.rows)[orderId := NewRow(o, Market(venue, req.symbol))]
    {
      if req.symbol !in symbols {
        return No(UnknownSymbol);
      }
      if req.typ == LimitOrder && req.price <= 0.0 {
        return No(InvalidPrice);
      }
      var o := OrderFor(req, orderId, now);
      var c := CollateralForOrder(o.side, symbols[req.symbol], o.quantity, o.price);
      AdmittedExactly(req, orderId, now, venue, symbols, account.State());
      if c.Unsupported? {
        return No(MarketBuyUnsupported);
      }
      var frozen := account.Freeze(RefType(venue), o.user, c.asset, c.amount, orderId);
      if frozen.Err? {
        return No(AccountError(frozen.failure));
      }
      PositiveCollateral(o, symbols[req.symbol]);
      store.CreateOrder(orderId, NewRow(o, Market(venue, req.symbol)));
      return Yes;
    }

    /** Match an admitted order, settle its fills, record the outcome and return the rest. `rows0`
        and `s0` are the rows and the ledger before the order was admitted. */
    method MatchAdmitted(
      o: Ord, m: Market, tradeIds: nat -> string, ghost rows0: map<string, Row>, ghost s0: Ledger,
      ghost other: (string, string) -> real)
      returns (r: Result<()>, trades: seq<Trade>, ghost left: Ord, resting: bool)
      requires m.venue == venue && m.symbol in symbols && m in hub.books && FreshOrder(o, rows0)
      requires FlowInv(hub.books, symbols, rows0, s0, store.residue, other) && store.rows == rows0[o.id := NewRow(o, m)]
      requires FreshTradeIds(s0.txns, tradeIds, 0) && !UnfreezeUsed(s0.txns, venue, o.id)
      requires var c := CollateralForOrder(o.side, symbols[m.symbol], o.quantity, o.price);
               c.Collateral? && Freeze(s0, o.user, c.asset, c.amount, RefType(venue), o.id) == Ok(account.State())
      modifies store, account, hub
      ensures m in hub.books && hub.books == old(hub.books)[m := hub.books[m]]
      ensures Placed(old(hub.books), rows0, o, m, trades, left, resting, hub.books[m])
      ensures var l := LedgerAfterPlace(s0, o, symbols[m.symbol], RefType(venue), trades, tradeIds, left, resting);
              && (r.Err? ==> l == Err(r.failure) && (r.failure == NegativeAvailable || r.failure == MissingBalance))
              && (r.Ok? ==> l == Ok(account.State()))
      ensures r.Ok? ==>
                && store.rows == RowsAfterPlace(rows0, o, m, trades, resting) && o.id in store.rows
                && store.residue ==
                   AfterTrades(old(store.residue), trades, rows0[o.id := NewRow(o, m)], symbols[m.symbol])
                && FlowInv(hub.books, symbols, store.rows, account.State(), store.residue, other)
    {
      ghost var books0, residue0 := hub.books, store.residue;
      HubIsValid(hub, rows0);
      trades, left, resting := hub.SubmitOrder(m, o);
      PlaceMoney(books0, symbols, rows0, s0, residue0, other, o, m, trades, left, resting, hub.books[m], tradeIds);
      TradesNameTaker(books0, rows0, o, m, trades, left, resting, hub.books[m]);
      MakersAfterPlace(books0, rows0, o, m, trades, left, resting, hub.books[m]);
      r := FinishOrder(o, m, symbols[m.symbol], trades, resting, tradeIds, left, rows0);
      if r.Ok? {
        PlaceKeepsFlow(books0, symbols, rows0, s0, residue0, other, o, m, trades, left, resting, hub.books[m],
                       tradeIds);
      }
    }

    /** Place an order: freeze its collateral, match it, settle every fill, record the outcome and
        return what is neither traded nor resting. `trades`, `left` and `resting` are the match. */
    method PlaceOrder(
      req: Request, orderId: string, tradeIds: nat -> string, now: int, ghost other: (string, string) -> real)
      returns (r: PlaceResult, ghost trades: seq<Trade>, ghost left: Ord, ghost resting: bool)
      requires Inv(other)
      requires orderId !in store.rows && !UnfreezeUsed(account.txns, venue, orderId)
      requires FreshTradeIds(account.txns, tradeIds, 0)
      modifies store, account, hub
      ensures r.Refused? <==> !Admissible(req, orderId, venue, symbols, old(account.State()))
      ensures r.Refused? ==> FirstObjection(req, symbols, r.error)
      ensures r.Refused? ==>
                && hub.books == old(hub.books) && store.rows == old(store.rows)
                && account.State() == old(account.State()) && store.residue == old(store.residue)
      ensures !r.Refused? ==>
                var o, m := OrderFor(req, orderId, now), Market(venue, req.symbol);
                var info := InfoOf(symbols, req.symbol);
                && m in hub.books
                && Placed(old(hub.books), old(store.rows), o, m, trades, left, resting, hub.books[m])
                && hub.books == old(hub.books)[m := hub.books[m]]
                && var l := LedgerAfterPlace(old(account.State()), o, info, RefType(venue), trades, tradeIds, left,
                                             resting);
                && (r.Accepted? <==> l.Ok?)
                && (r.Interrupted? ==>
                    l == Err(r.failure) && (r.failure == NegativeAvailable || r.failure == MissingBalance))
                && (r.Accepted? ==>
                      && account.State() == l.value
                      && store.rows == RowsAfterPlace(old(store.rows), o, m, trades, resting)
                      && store.residue ==
                         AfterTrades(old(store.residue), trades, old(store.rows)[orderId := NewRow(o, m)], info)
                      && r.row == store.rows[orderId] && r.trades == trades)
      ensures r.Accepted? && Market(venue, req.symbol) in hub.books ==>
                Reported(r.row, req, orderId, now, venue, OrderBookProof.TotalQuantity(r.trades), resting,
                         hub.books[Market(venue, req.symbol)])
      ensures r.Accepted? ==> Inv(other)
    {
      trades, left, resting := [], OrderFor(req, orderId, now), false;
      ghost var books0, rows0, s0 := hub.books, store.rows, account.State();
      var admitted := AdmitOrder(req, orderId, now);
      if admitted.No? {
        return Refused(admitted.error), trades, left, resting;
      }
      var settled, fills, rests;
      settled, fills, left, rests :=
        MatchAdmitted(OrderFor(req, orderId, now), Market(venue, req.symbol), tradeIds, rows0, s0, other);
      trades, resting := fills, rests;
      if settled.Err? {
        return Interrupted(settled.failure), trades, left, resting;
      }
      RowReported(books0, rows0, req, orderId, now, venue, trades, left, resting, hub.books[Market(venue, req.symbol)]);
      return Accepted(store.rows[orderId], fills), trades, left, resting;
    }

    /** Cancel an open order of this venue: take it off the book, return its collateral, close its
        row. The account's answer is ignored; it is no only for an order that has nothing left. */
    method CancelOrder(orderId: string, ghost other: (string, string) -> real) returns (r: CancelResult)
      requires Inv(other)
      modifies store`rows, account, hub
      ensures r.NotDone? ==>
                && hub.books == old(hub.books) && store.rows == old(store.rows)
                && account.State() == old(account.State())
                && r.error == (if orderId in store.rows && store.rows[orderId].venue == venue
                               then NotCancellable else NotFound)
      ensures r.Done? <==>
                && orderId in old(store.rows) && old(store.rows)[orderId].venue == venue
                && (old(store.rows)[orderId].status == New || old(store.rows)[orderId].status == PartiallyFilled)
      ensures r.Done? ==>
                var row := old(store.rows)[orderId];
                var c := RowCollateral(symbols, row);
                && hub.books == CancelBooks(old(hub.books), Market(venue, row.symbol), orderId)
                && store.rows == CancelRows(old(store.rows), orderId) && r.row == store.rows[orderId]
                && r.row == row.(status := Cancelled)
                && (if Resting(old(hub.books), orderId, row)
                    then c.Collateral?
                         && Unfreeze(old(account.State()), row.user, c.asset, c.amount, RefType(venue), orderId) ==
                            Ok(account.State())
                    else account.State() == old(account.State()))
      ensures Inv(other)
    {
      if orderId !in store.rows {
        return NotDone(NotFound);
      }
      var row := store.rows[orderId];
      if row.venue != venue {
        return NotDone(NotFound);
      }
      if row.status == Filled || row.status == Cancelled {
        return NotDone(NotCancellable);
      }
      HubIsValid(hub, store.rows);
      if Resting(hub.books, orderId, row) {
        CancelRestingFlow(hub.books, symbols, store.rows, account.State(), store.residue, other, orderId);
      } else {
        CancelAbsentFlow(hub.books, symbols, store.rows, account.State(), store.residue, other, orderId);
      }
      hub.CancelOrder(Market(venue, row.symbol), orderId);
      GiveBack(row, orderId);
      var done := store.CancelOrder(orderId);
      return Done(store.rows[orderId]);
    }

    /** Return the collateral of an open row; the account's answer is ignored. */
    method GiveBack(row: Row, orderId: string)
      modifies account
      ensures account.State() == LedgerAfterCancel(old(account.State()), symbols, venue, row, orderId)
    {
      var c := RowCollateral(symbols, row);
      if c.Collateral? && c.amount > 0.0 {
        var ignored := account.Unfreeze(RefType(venue), row.user, c.asset, c.amount, orderId);
      }
    }
  }
}
