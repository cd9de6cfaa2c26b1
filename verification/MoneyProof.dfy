/** Every unit of a frozen balance is accounted for, at each stage of placing and cancelling. */
module MoneyProof {
  import opened OrderBook
  import opened AccountLedger
  import opened OrderFlow
  import opened OrderFlowProof
  import opened PlaceProof
  import opened SettleProof
  import OrderBookProof
  import AccountLedgerProof

  /** While an order is being placed: resting collateral, improvement and the rest as before,
      plus what the unsettled trades hold, plus what the incoming order still locks by itself. */
  ghost predicate Pending(
    books: map<Market, BookVal>, symbols: map<string, Assets>, balances: map<Key, Account>, residue: map<Key, real>,
    other: (string, string) -> real, trades: seq<Trade>, rows: map<string, Row>, info: Assets, tail: Ord)
  {
    forall user, asset ::
      Frozen(balances, user, asset) ==
      Locked(books, symbols, user, asset) + Residue(residue, user, asset) + other(user, asset)
      + HoldSum(trades, rows, info, user, asset) + OrdLock(tail, info, user, asset)
  }

  /** Trades at a positive price not above the buyer's limit. */
  predicate Fair(trades: seq<Trade>, rows: map<string, Row>) {
    forall t :: t in trades ==> t.quantity > 0.0 && 0.0 < t.price <= LimitOf(rows, t.buyId)
  }

  // ----- freezing the collateral -------------------------------------------------------------

  /** The collateral frozen for a new order is what the order locks. */
  lemma FreezeExplains(
    books: map<Market, BookVal>, symbols: map<string, Assets>, rows: map<string, Row>, s: Ledger,
    residue: map<Key, real>, other: (string, string) -> real, o: Ord, info: Assets, refType: string)
    requires Explained(books, symbols, s.balances, residue, other)
    requires var c := CollateralForOrder(o.side, info, o.quantity, o.price);
             && c.Collateral? && Freeze(s, o.user, c.asset, c.amount, refType, o.id).Ok?
    requires o.remaining == o.quantity
    ensures var c := CollateralForOrder(o.side, info, o.quantity, o.price);
            Pending(books, symbols, Freeze(s, o.user, c.asset, c.amount, refType, o.id).value.balances, residue, other,
                    [], rows, info, o)
  {
  }

  // ----- matching --------------------------------------------------------------------------

  /** What of the incoming order is not on the book after the match. */
  function Tail(left: Ord, resting: bool): Ord { if resting then left.(remaining := 0.0) else left }

  lemma OwnSideLock(
    before: BookVal, o: Ord, left: Ord, resting: bool, after: BookVal, info: Assets, user: string, asset: string)
    requires if resting then multiset(Same(after, o.side)) == multiset(Same(before, o.side) + [left])
             else Same(after, o.side) == Same(before, o.side)
    ensures SideLock(Same(after, o.side), info, user, asset) + OrdLock(Tail(left, resting), info, user, asset) ==
            SideLock(Same(before, o.side), info, user, asset) + OrdLock(left, info, user, asset)
  {
    if resting {
      Rearranged(Same(after, o.side), Same(before, o.side) + [left], info, user, asset, "");
      SideLockSplit(Same(before, o.side), [left], info, user, asset);
      assert [left][1..] == [];
    }
  }

  /** A match moves collateral between the book, the trades and the tail of the incoming order,
      and creates or loses none. */
  lemma MatchExplains(
    books: map<Market, BookVal>, symbols: map<string, Assets>, rows: map<string, Row>, balances: map<Key, Account>,
    residue: map<Key, real>, other: (string, string) -> real, o: Ord, m: Market, trades: seq<Trade>, left: Ord,
    resting: bool, after: BookVal)
    requires Placed(books, rows, o, m, trades, left, resting, after)
    requires Pending(books, symbols, balances, residue, other, [], rows, InfoOf(symbols, m.symbol), o)
    ensures Pending(books[m := after], symbols, balances, residue, other, trades, rows[o.id := NewRow(o, m)],
                    InfoOf(symbols, m.symbol), Tail(left, resting))
  {
    var info := InfoOf(symbols, m.symbol);
    var rows1 := rows[o.id := NewRow(o, m)];
    forall user, asset
      ensures Frozen(balances, user, asset) ==
              Locked(books[m := after], symbols, user, asset) + Residue(residue, user, asset) + other(user, asset)
              + HoldSum(trades, rows1, info, user, asset) + OrdLock(Tail(left, resting), info, user, asset)
    {
      LockedWrite(books, symbols, m, after, user, asset);
      BookLockMoves(books, rows, o, m, trades, left, resting, after, info, user, asset);
      assert Frozen(balances, user, asset) ==
             Locked(books, symbols, user, asset) + Residue(residue, user, asset) + other(user, asset)
             + HoldSum([], rows, info, user, asset) + OrdLock(o, info, user, asset);
    }
  }

  lemma BookLockMoves(
    books: map<Market, BookVal>, rows: map<string, Row>, o: Ord, m: Market, trades: seq<Trade>, left: Ord,
    resting: bool, after: BookVal, info: Assets, user: string, asset: string)
    requires Placed(books, rows, o, m, trades, left, resting, after)
    ensures BookLock(books[m], info, user, asset) + OrdLock(o, info, user, asset) ==
            BookLock(after, info, user, asset) + OrdLock(Tail(left, resting), info, user, asset)
            + HoldSum(trades, rows[o.id := NewRow(o, m)], info, user, asset)
  {
    var rows1 := rows[o.id := NewRow(o, m)];
    assert BookAgrees(books[m], m, rows);
    MakersAfterPlace(books, rows, o, m, trades, left, resting, after);
    MatchMovesLock(o, Opposite(books[m], o.side), rows1, info, user, asset);
    OwnSideLock(books[m], o, left, resting, after, info, user, asset);
  }

  /** All trades of the match are fair to the buyer's limit. */
  lemma MatchIsFair(
    books: map<Market, BookVal>, rows: map<string, Row>, o: Ord, m: Market, trades: seq<Trade>, left: Ord,
    resting: bool, after: BookVal)
    requires Placed(books, rows, o, m, trades, left, resting, after)
    ensures Fair(trades, rows[o.id := NewRow(o, m)])
  {
    var rows1 := rows[o.id := NewRow(o, m)];
    var opposite := Opposite(books[m], o.side);
    assert BookAgrees(books[m], m, rows);
    MakersAfterPlace(books, rows, o, m, trades, left, resting, after);
    OrderBookProof.MatchIsGreedy(o, opposite);
    OrderBookProof.MatchPricesFairly(o, opposite);
    forall t | t in trades
      ensures t.quantity > 0.0 && 0.0 < t.price <= LimitOf(rows1, t.buyId)
    {
      var i :| 0 <= i < |trades| && trades[i] == t;
      assert OrderBookProof.FillsOne(o, opposite[i], t);
      assert OrderBookProof.PricedFairly(o, opposite[i], t);
      assert opposite[i] in opposite;
      IdCountMember(opposite, o.id);
    }
  }

  // ----- settling --------------------------------------------------------------------------

  lemma {:induction false} HoldsNonNegative(
    trades: seq<Trade>, rows: map<string, Row>, info: Assets, user: string, asset: string)
    requires Fair(trades, rows)
    ensures HoldSum(trades, rows, info, user, asset) >= 0.0
    decreases |trades|
  {
    if trades != [] {
      assert trades[0] in trades;
      assert forall t :: t in trades[1..] ==> t in trades;
      assert LimitOf(rows, trades[0].buyId) * trades[0].quantity >= 0.0;
      HoldsNonNegative(trades[1..], rows, info, user, asset);
    }
  }

  /** What a trade holds at the buyer's limit is what it releases plus the improvement. */
  lemma HoldSplits(t: Trade, limit: real, info: Assets, user: string, asset: string)
    requires t.quantity > 0.0 && t.price <= limit
    ensures (limit - t.price) * t.quantity >= 0.0
    ensures TradeHold(t, limit, info, user, asset) ==
            TradeHold(t, t.price, info, user, asset)
            + (if t.buyer == user && asset == info.quote then (limit - t.price) * t.quantity else 0.0)
  {
    assert (limit - t.price) * t.quantity == limit * t.quantity - t.price * t.quantity;
  }

  lemma OrdLockNonNegative(o: Ord, info: Assets, user: string, asset: string)
    requires o.remaining >= 0.0 && o.price >= 0.0
    ensures OrdLock(o, info, user, asset) >= 0.0
  {
    assert o.remaining * o.price >= 0.0;
  }

  lemma FirstHold(trades: seq<Trade>, rows: map<string, Row>, info: Assets, user: string, asset: string)
    requires trades != [] && Fair(trades, rows)
    ensures HoldSum(trades, rows, info, user, asset) ==
            TradeHold(trades[0], LimitOf(rows, trades[0].buyId), info, user, asset)
            + HoldSum(trades[1..], rows, info, user, asset)
    ensures HoldSum(trades[1..], rows, info, user, asset) >= 0.0
    ensures trades[0].quantity > 0.0 && 0.0 < trades[0].price <= LimitOf(rows, trades[0].buyId)
  {
    assert trades[0] in trades;
    assert forall t :: t in trades[1..] ==> t in trades;
    HoldsNonNegative(trades[1..], rows, info, user, asset);
  }

  /** While trades are pending, the next one always finds its collateral frozen. */
  lemma NextTradeCovered(
    books: map<Market, BookVal>, symbols: map<string, Assets>, rows: map<string, Row>, balances: map<Key, Account>,
    residue: map<Key, real>, other: (string, string) -> real, trades: seq<Trade>, rows1: map<string, Row>, info: Assets,
    tail: Ord)
    requires RowsAgree(books, rows) && Backing(residue, other)
    requires tail.remaining >= 0.0 && tail.price >= 0.0
    requires trades != [] && Fair(trades, rows1)
    requires Pending(books, symbols, balances, residue, other, trades, rows1, info, tail)
    ensures trades[0].price > 0.0 && trades[0].quantity > 0.0
    ensures EnoughFrozen(balances, trades[0], info)
  {
    FirstHold(trades, rows1, info, "", "");
    var t := trades[0];
    forall user, asset
      ensures Frozen(balances, user, asset) >= TradeHold(t, t.price, info, user, asset)
    {
      LockedNonNegative(books, symbols, rows, user, asset);
      FirstHold(trades, rows1, info, user, asset);
      HoldSplits(t, LimitOf(rows1, t.buyId), info, user, asset);
      OrdLockNonNegative(tail, info, user, asset);
    }
  }

  lemma ResidueGrows(residue: map<Key, real>, t: Trade, limit: real, info: Assets, user: string, asset: string)
    ensures Residue(WithImprovement(residue, t, limit, info), user, asset) ==
            Residue(residue, user, asset)
            + (if t.buyer == user && asset == info.quote then (limit - t.price) * t.quantity else 0.0)
  {
  }

  /** Settling a trade consumes its hold, up to the improvement, which stays frozen as residue. */
  lemma SettleExplains(
    books: map<Market, BookVal>, symbols: map<string, Assets>, s: Ledger, residue: map<Key, real>,
    other: (string, string) -> real, trades: seq<Trade>, rows: map<string, Row>, info: Assets, tail: Ord, id: string)
    requires trades != [] && Fair(trades, rows) && Backing(residue, other)
    requires Pending(books, symbols, s.balances, residue, other, trades, rows, info, tail)
    requires !HasRef(s.txns, "trade", id)
    requires Settle(s, id, TradeLegs(trades[0], info), TradeReleases(trades[0], info)).Ok?
    ensures var t := Settle(s, id, TradeLegs(trades[0], info), TradeReleases(trades[0], info)).value;
            var residue' := WithImprovement(residue, trades[0], LimitOf(rows, trades[0].buyId), info);
            && Pending(books, symbols, t.balances, residue', other, trades[1..], rows, info, tail)
            && t.txns == s.txns + [Txn("trade", id, TradeLegs(trades[0], info))]
            && Backing(residue', other)
  {
    var t := trades[0];
    var after := Settle(s, id, TradeLegs(t, info), TradeReleases(t, info)).value;
    forall user, asset
      ensures Frozen(after.balances, user, asset) ==
              Frozen(s.balances, user, asset) - TradeHold(t, t.price, info, user, asset)
    {
      SettleReleases(s, t, info, id, user, asset);
    }
    SettleReleases(s, t, info, id, "", "");
    HoldConsumed(books, symbols, s.balances, after.balances, residue, other, trades, rows, info, tail);
    FirstHold(trades, rows, info, "", "");
    ImprovementBacked(residue, other, t, LimitOf(rows, t.buyId), info);
  }

  lemma ImprovementBacked(residue: map<Key, real>, other: (string, string) -> real, t: Trade, limit: real, info: Assets)
    requires Backing(residue, other) && t.quantity > 0.0 && t.price <= limit
    ensures Backing(WithImprovement(residue, t, limit, info), other)
  {
    HoldSplits(t, limit, info, "", "");
    var residue' := WithImprovement(residue, t, limit, info);
    forall key | key in residue'
      ensures residue'[key] >= 0.0
    {
      if key == (t.buyer, info.quote) {
        assert Residue(residue, t.buyer, info.quote) >= 0.0;
      } else {
        assert residue'[key] == residue[key];
      }
    }
  }

  lemma HoldConsumed(
    books: map<Market, BookVal>, symbols: map<string, Assets>, balances: map<Key, Account>, after: map<Key, Account>,
    residue: map<Key, real>, other: (string, string) -> real, trades: seq<Trade>, rows: map<string, Row>, info: Assets,
    tail: Ord)
    requires trades != [] && Fair(trades, rows)
    requires Pending(books, symbols, balances, residue, other, trades, rows, info, tail)
    requires forall user, asset ::
               Frozen(after, user, asset) ==
                 Frozen(balances, user, asset) - TradeHold(trades[0], trades[0].price, info, user, asset)
    ensures Pending(books, symbols, after, WithImprovement(residue, trades[0], LimitOf(rows, trades[0].buyId), info),
                    other, trades[1..], rows, info, tail)
  {
    var t := trades[0];
    var limit := LimitOf(rows, t.buyId);
    var residue' := WithImprovement(residue, t, limit, info);
    forall user, asset
      ensures Frozen(after, user, asset) ==
              Locked(books, symbols, user, asset) + Residue(residue', user, asset) + other(user, asset)
              + HoldSum(trades[1..], rows, info, user, asset) + OrdLock(tail, info, user, asset)
    {
      FirstHold(trades, rows, info, user, asset);
      HoldSplits(t, limit, info, user, asset);
      ResidueGrows(residue, t, limit, info, user, asset);
    }
  }

  lemma SettleReleases(s: Ledger, t: Trade, info: Assets, id: string, user: string, asset: string)
    requires !HasRef(s.txns, "trade", id) && Settle(s, id, TradeLegs(t, info), TradeReleases(t, info)).Ok?
    ensures var after := Settle(s, id, TradeLegs(t, info), TradeReleases(t, info)).value;
            && Frozen(after.balances, user, asset) ==
               Frozen(s.balances, user, asset) - TradeHold(t, t.price, info, user, asset)
            && after.txns == s.txns + [Txn("trade", id, TradeLegs(t, info))]
  {
    AccountLedgerProof.SettleMoves(s, id, TradeLegs(t, info), TradeReleases(t, info), user, asset);
    ReleaseSums(t, info, user, asset);
  }

  // ----- releasing the rest ------------------------------------------------------------------

  /** The collateral of an order is what the order locks, and nothing else is. */
  lemma CollateralIsLock(o: Ord, info: Assets)
    requires o.remaining > 0.0 && (o.price > 0.0 || (o.price == 0.0 && o.side == Sell))
    ensures var c := CollateralForOrder(o.side, info, o.remaining, o.price);
            && c.Collateral? && c.amount > 0.0
            && forall user, asset ::
                 OrdLock(o, info, user, asset) == if user == o.user && asset == c.asset then c.amount else 0.0
  {
    if o.side == Buy {
      assert o.remaining * o.price > 0.0;
    }
  }

  /** Giving back a lock: the collateral of `o` leaves the frozen balance, in full. */
  lemma UnfreezeExplains(
    books: map<Market, BookVal>, symbols: map<string, Assets>, rows: map<string, Row>, s: Ledger,
    residue: map<Key, real>, other: (string, string) -> real, o: Ord, info: Assets, refType: string)
    requires RowsAgree(books, rows) && Backing(residue, other)
    requires Pending(books, symbols, s.balances, residue, other, [], rows, info, o)
    requires o.remaining > 0.0 && (o.price > 0.0 || (o.price == 0.0 && o.side == Sell))
    requires !HasRef(s.txns, refType, FullRef(refType, o.id, "unfreeze"))
    ensures var c := CollateralForOrder(o.side, info, o.remaining, o.price);
            && c.Collateral? && c.amount > 0.0
            && Unfreeze(s, o.user, c.asset, c.amount, refType, o.id).Ok?
            && Explained(books, symbols, Unfreeze(s, o.user, c.asset, c.amount, refType, o.id).value.balances, residue,
                         other)
  {
    var c := CollateralForOrder(o.side, info, o.remaining, o.price);
    CollateralIsLock(o, info);
    LockedNonNegative(books, symbols, rows, o.user, c.asset);
    assert Frozen(s.balances, o.user, c.asset) ==
           Locked(books, symbols, o.user, c.asset) + Residue(residue, o.user, c.asset) + other(o.user, c.asset)
           + HoldSum([], rows, info, o.user, c.asset) + OrdLock(o, info, o.user, c.asset);
    UnfreezeLowers(s, o.user, c.asset, c.amount, refType, o.id);
    var t := Unfreeze(s, o.user, c.asset, c.amount, refType, o.id).value;
    forall user, asset
      ensures Frozen(t.balances, user, asset) ==
              Locked(books, symbols, user, asset) + Residue(residue, user, asset) + other(user, asset)
    {
      assert Frozen(s.balances, user, asset) ==
             Locked(books, symbols, user, asset) + Residue(residue, user, asset) + other(user, asset)
             + HoldSum([], rows, info, user, asset) + OrdLock(o, info, user, asset);
    }
  }

  /** An unfreeze with enough frozen and an unused reference succeeds and moves just that amount. */
  lemma UnfreezeLowers(s: Ledger, user: string, asset: string, amount: real, refType: string, id: string)
    requires 0.0 < amount <= Frozen(s.balances, user, asset)
    requires !HasRef(s.txns, refType, FullRef(refType, id, "unfreeze"))
    ensures Unfreeze(s, user, asset, amount, refType, id).Ok?
    ensures var t := Unfreeze(s, user, asset, amount, refType, id).value;
            && (forall u, a :: Frozen(t.balances, u, a) ==
                               Frozen(s.balances, u, a) - if u == user && a == asset then amount else 0.0)
            && (forall u, a :: Available(t.balances, u, a) ==
                               Available(s.balances, u, a) + if u == user && a == asset then amount else 0.0)
            && |t.txns| == |s.txns| + 1 && t.txns[..|s.txns|] == s.txns
            && t.txns[|s.txns|].refType == refType && t.txns[|s.txns|].refId == FullRef(refType, id, "unfreeze")
  {
  }
}
