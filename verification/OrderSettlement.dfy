/** When exactly all fills of a placed order settle. */
module OrderSettlement {
  import opened AccountLedger
  import opened MoneyProof
  import opened OrderBook
  import opened OrderEngine
  import opened OrderFlow
  import opened PlaceProof
  import opened SettleProof
  import AccountLedgerProof

  /** What the legs of all these trades add to a user's available balance. */
  function NetOf(trades: seq<Trade>, info: Assets, user: string, asset: string): real {
    if trades == [] then 0.0
    else UserSum(TradeLegs(trades[0], info), user, asset) + NetOf(trades[1..], info, user, asset)
  }

  /** The payers of a trade have rows and, with what the earlier trades brought and took, the
      amounts they pay available. */
  predicate Funded(balances: map<Key, Account>, earlier: seq<Trade>, t: Trade, info: Assets) {
    && (t.buyer, info.base) in balances && (t.seller, info.quote) in balances
    && Available(balances, t.buyer, info.quote) + NetOf(earlier, info, t.buyer, info.quote) >= t.price * t.quantity
    && (t.buyer == t.seller
        || Available(balances, t.seller, info.base) + NetOf(earlier, info, t.seller, info.base) >= t.quantity)
  }

  predicate AllFunded(balances: map<Key, Account>, trades: seq<Trade>, info: Assets) {
    forall i :: 0 <= i < |trades| ==> Funded(balances, trades[..i], trades[i], info)
  }

  // ----- one settlement after another ----------------------------------------------------------

  ghost predicate Moved(before: map<Key, Account>, after: map<Key, Account>, t: Trade, info: Assets) {
    && after.Keys == before.Keys
    && forall user, asset :: Available(after, user, asset) ==
                             Available(before, user, asset) + UserSum(TradeLegs(t, info), user, asset)
  }

  lemma SettleMovesAll(s: Ledger, id: string, t: Trade, info: Assets)
    requires !HasRef(s.txns, "trade", id) && Settle(s, id, TradeLegs(t, info), TradeReleases(t, info)).Ok?
    requires AccountLedgerProof.NonNegative(s)
    ensures var after := Settle(s, id, TradeLegs(t, info), TradeReleases(t, info)).value;
            Moved(s.balances, after.balances, t, info) && AccountLedgerProof.NonNegative(after)
  {
    var after := Settle(s, id, TradeLegs(t, info), TradeReleases(t, info)).value;
    AccountLedgerProof.SettleMoves(s, id, TradeLegs(t, info), TradeReleases(t, info), "", "");
    forall user, asset
      ensures Available(after.balances, user, asset) ==
              Available(s.balances, user, asset) + UserSum(TradeLegs(t, info), user, asset)
    {
      AccountLedgerProof.SettleMoves(s, id, TradeLegs(t, info), TradeReleases(t, info), user, asset);
    }
  }

  lemma NetOfCons(t: Trade, rest: seq<Trade>, info: Assets, user: string, asset: string)
    ensures NetOf([t] + rest, info, user, asset) ==
            UserSum(TradeLegs(t, info), user, asset) + NetOf(rest, info, user, asset)
  {
    assert ([t] + rest)[1..] == rest;
  }

  /** Settling the first trade turns the condition on the others into their own. */
  lemma FundedShift(
    before: map<Key, Account>, after: map<Key, Account>, t: Trade, rest: seq<Trade>, next: Trade, info: Assets)
    requires Moved(before, after, t, info)
    ensures Funded(after, rest, next, info) <==> Funded(before, [t] + rest, next, info)
  {
    NetOfCons(t, rest, info, next.buyer, info.quote);
    NetOfCons(t, rest, info, next.seller, info.base);
    assert (next.buyer, info.base) in after <==> (next.buyer, info.base) in after.Keys;
    assert (next.seller, info.quote) in after <==> (next.seller, info.quote) in after.Keys;
  }

  lemma AllFundedShift(before: map<Key, Account>, after: map<Key, Account>, trades: seq<Trade>, info: Assets)
    requires trades != [] && Moved(before, after, trades[0], info)
    ensures AllFunded(before, trades, info) <==>
            Funded(before, [], trades[0], info) && AllFunded(after, trades[1..], info)
  {
    var tail := trades[1..];
    forall i | 0 <= i < |tail|
      ensures Funded(after, tail[..i], tail[i], info) <==> Funded(before, trades[..i + 1], trades[i + 1], info)
    {
      FundedShift(before, after, trades[0], tail[..i], tail[i], info);
      assert [trades[0]] + tail[..i] == trades[..i + 1];
    }
    assert trades[..0] == [];
    if AllFunded(before, trades, info) {
      assert Funded(before, trades[..0], trades[0], info);
      forall i | 0 <= i < |tail|
        ensures Funded(after, tail[..i], tail[i], info)
      {
        assert Funded(before, trades[..i + 1], trades[i + 1], info);
      }
    }
    if Funded(before, [], trades[0], info) && AllFunded(after, tail, info) {
      forall i | 0 <= i < |trades|
        ensures Funded(before, trades[..i], trades[i], info)
      {
        if i > 0 {
          assert Funded(after, tail[..i - 1], tail[i - 1], info);
        }
      }
    }
  }

  lemma FirstFunded(s: Ledger, id: string, t: Trade, info: Assets)
    requires t.price > 0.0 && t.quantity > 0.0 && EnoughFrozen(s.balances, t, info)
    requires !HasRef(s.txns, "trade", id) && info.base != info.quote && AccountLedgerProof.NonNegative(s)
    ensures Settle(s, id, TradeLegs(t, info), TradeReleases(t, info)).Ok? <==> Funded(s.balances, [], t, info)
  {
    SettlesExactly(s, id, t, info);
  }

  /** While the trades' collateral is in place, all of them settle if and only if every payer has
      what it pays available at its turn. */
  lemma {:induction false} SettlesAllExactly(
    books: map<Market, BookVal>, symbols: map<string, Assets>, rows: map<string, Row>, s: Ledger,
    residue: map<Key, real>, other: (string, string) -> real, trades: seq<Trade>, rows1: map<string, Row>, info: Assets,
    tail: Ord, ids: nat -> string, from: nat)
    requires RowsAgree(books, rows) && Backing(residue, other) && Fair(trades, rows1)
    requires tail.remaining >= 0.0 && tail.price >= 0.0
    requires Pending(books, symbols, s.balances, residue, other, trades, rows1, info, tail)
    requires FreshTradeIds(s.txns, ids, from) && info.base != info.quote && AccountLedgerProof.NonNegative(s)
    ensures SettleAll(s, trades, info, ids, from).Ok? <==> AllFunded(s.balances, trades, info)
    decreases |trades|
  {
    if trades != [] {
      var t := trades[0];
      NextTradeCovered(books, symbols, rows, s.balances, residue, other, trades, rows1, info, tail);
      FirstFunded(s, ids(from), t, info);
      var first := Settle(s, ids(from), TradeLegs(t, info), TradeReleases(t, info));
      if first.Ok? {
        SettleExplains(books, symbols, s, residue, other, trades, rows1, info, tail, ids(from));
        SettleMovesAll(s, ids(from), t, info);
        FreshAfterAppend(s.txns, Txn("trade", ids(from), TradeLegs(t, info)), ids, from);
        FairTail(trades, rows1);
        SettlesAllExactly(books, symbols, rows, first.value, WithImprovement(residue, t, LimitOf(rows1, t.buyId), info),
                          other, trades[1..], rows1, info, tail, ids, from + 1);
        AllFundedShift(s.balances, first.value.balances, trades, info);
      } else {
        NotAllFunded(s.balances, trades, info);
      }
    }
  }

  lemma NotAllFunded(balances: map<Key, Account>, trades: seq<Trade>, info: Assets)
    requires trades != [] && !Funded(balances, [], trades[0], info)
    ensures !AllFunded(balances, trades, info)
  {
    assert trades[..0] == [];
    assert !Funded(balances, trades[..0], trades[0], info);
  }

  // ----- a whole order ---------------------------------------------------------------------------

  /** A matched order goes through if and only if, with its collateral frozen, the payers of all of
      its fills have what they pay available in turn; nothing else can stop it. */
  lemma PlaceSettlesExactly(
    books: map<Market, BookVal>, symbols: map<string, Assets>, rows: map<string, Row>, s: Ledger,
    residue: map<Key, real>, other: (string, string) -> real, o: Ord, m: Market, trades: seq<Trade>, left: Ord,
    resting: bool, after: BookVal, ids: nat -> string, frozen: Ledger)
    requires FlowInv(books, symbols, rows, s, residue, other) && AccountLedgerProof.NonNegative(s)
    requires Placed(books, rows, o, m, trades, left, resting, after)
    requires FreshTradeIds(s.txns, ids, 0) && !UnfreezeUsed(s.txns, m.venue, o.id)
    requires var info := InfoOf(symbols, m.symbol);
             var c := CollateralForOrder(o.side, info, o.quantity, o.price);
             && info.base != info.quote && c.Collateral?
             && Freeze(s, o.user, c.asset, c.amount, RefType(m.venue), o.id) == Ok(frozen)
    ensures var info := InfoOf(symbols, m.symbol);
            LedgerAfterPlace(s, o, info, RefType(m.venue), trades, ids, left, resting).Ok?
            <==> AllFunded(frozen.balances, trades, info)
  {
    FillsSettleExactly(books, symbols, rows, s, residue, other, o, m, trades, left, resting, after, ids, frozen);
    PlaceMoney(books, symbols, rows, s, residue, other, o, m, trades, left, resting, after, ids);
    LastReleaseHarmless(frozen, InfoOf(symbols, m.symbol), RefType(m.venue), trades, ids, left, resting);
  }

  lemma FreezeKeepsNonNegative(s: Ledger, user: string, asset: string, amount: real, refType: string, refId: string)
    requires AccountLedgerProof.NonNegative(s) && Freeze(s, user, asset, amount, refType, refId).Ok?
    ensures AccountLedgerProof.NonNegative(Freeze(s, user, asset, amount, refType, refId).value)
  {
  }

  lemma FillsSettleExactly(
    books: map<Market, BookVal>, symbols: map<string, Assets>, rows: map<string, Row>, s: Ledger,
    residue: map<Key, real>, other: (string, string) -> real, o: Ord, m: Market, trades: seq<Trade>, left: Ord,
    resting: bool, after: BookVal, ids: nat -> string, frozen: Ledger)
    requires FlowInv(books, symbols, rows, s, residue, other) && AccountLedgerProof.NonNegative(s)
    requires Placed(books, rows, o, m, trades, left, resting, after)
    requires FreshTradeIds(s.txns, ids, 0) && !UnfreezeUsed(s.txns, m.venue, o.id)
    requires var info := InfoOf(symbols, m.symbol);
             var c := CollateralForOrder(o.side, info, o.quantity, o.price);
             && info.base != info.quote && c.Collateral?
             && Freeze(s, o.user, c.asset, c.amount, RefType(m.venue), o.id) == Ok(frozen)
    ensures var info := InfoOf(symbols, m.symbol);
            SettleAll(frozen, trades, info, ids, 0).Ok? <==> AllFunded(frozen.balances, trades, info)
  {
    var info, rows1 := InfoOf(symbols, m.symbol), rows[o.id := NewRow(o, m)];
    var c := CollateralForOrder(o.side, info, o.quantity, o.price);
    MatchedMoney(books, symbols, rows, s, residue, other, o, m, trades, left, resting, after, ids);
    FreezeKeepsNonNegative(s, o.user, c.asset, c.amount, RefType(m.venue), o.id);
    SettlesAllExactly(books[m := after], symbols, RowsAfterPlace(rows, o, m, trades, resting), frozen, residue, other,
                      trades, rows1, info, Tail(left, resting), ids, 0);
  }

  /** If the settlements go through, the release of the rest fails with none of the failures a
      settlement can have. */
  lemma LastReleaseHarmless(
    frozen: Ledger, info: Assets, refType: string, trades: seq<Trade>, ids: nat -> string, left: Ord, resting: bool)
    ensures var r := AfterFreeze(frozen, info, refType, trades, ids, left, resting);
            SettleAll(frozen, trades, info, ids, 0).Ok? && r.Err? ==>
              r.failure != NegativeAvailable && r.failure != MissingBalance
    ensures AfterFreeze(frozen, info, refType, trades, ids, left, resting).Ok? ==>
            SettleAll(frozen, trades, info, ids, 0).Ok?
  {
  }
}
