/** Cancelling an order, and the references behind every row. */
module CancelProof {
  import opened OrderBook
  import opened AccountLedger
  import opened OrderFlow
  import opened OrderFlowProof
  import opened PlaceProof
  import opened SettleProof
  import opened MoneyProof
  import OrderBookProof

  // ----- references after placing ------------------------------------------------------------

  /** Only the placed order's own unfreeze may have been recorded. */
  ghost predicate OnlyOwnUnfreeze(txns: seq<Txn>, txns': seq<Txn>, id: string) {
    forall venue, other :: other != id ==> UnfreezeUsed(txns', venue, other) == UnfreezeUsed(txns, venue, other)
  }

  lemma PlaceKeepsRefs(
    before: map<Market, BookVal>, rows: map<string, Row>, o: Ord, m: Market, trades: seq<Trade>, left: Ord,
    resting: bool, after: BookVal, txns: seq<Txn>, txns': seq<Txn>)
    requires Placed(before, rows, o, m, trades, left, resting, after)
    requires RefsAgree(before, rows, txns) && OnlyOwnUnfreeze(txns, txns', o.id)
    requires UnfreezeUsed(txns', m.venue, o.id) <==> !resting && left.remaining > 0.0
    ensures RefsAgree(before[m := after], RowsAfterPlace(rows, o, m, trades, resting), txns')
  {
    var books, final := before[m := after], RowsAfterPlace(rows, o, m, trades, resting);
    MakersAfterPlace(before, rows, o, m, trades, left, resting, after);
    forall id | id in final
      ensures RefAgrees(txns', id, final[id], Resting(books, id, final[id]))
    {
      RowsOkAfterPlace(before, rows, o, m, trades, left, resting, after, id);
      if id == o.id {
        TakerRef(before, rows, o, m, trades, left, resting, after);
      } else {
        assert RefAgrees(txns, id, rows[id], Resting(before, id, rows[id]));
        assert UnfreezeUsed(txns', rows[id].venue, id) == UnfreezeUsed(txns, rows[id].venue, id);
      }
    }
  }

  lemma TakerRef(
    before: map<Market, BookVal>, rows: map<string, Row>, o: Ord, m: Market, trades: seq<Trade>, left: Ord,
    resting: bool, after: BookVal)
    requires Placed(before, rows, o, m, trades, left, resting, after)
    ensures var final := RowsAfterPlace(rows, o, m, trades, resting);
            && final[o.id].venue == m.venue
            && (Resting(before[m := after], o.id, final[o.id]) <==> resting)
            && (final[o.id].typ == MarketOrder && final[o.id].status == PartiallyFilled ==>
                !resting && left.remaining > 0.0)
  {
    MakersAfterPlace(before, rows, o, m, trades, left, resting, after);
    MarketAgrees(before, rows, o, m, trades, left, resting, after);
    TakerRowOk(o, m, OrderBookProof.TotalQuantity(trades), left, resting);
  }

  // ----- cancelling ------------------------------------------------------------------------

  /** The resting order behind a row. */
  lemma RestingOrder(books: map<Market, BookVal>, rows: map<string, Row>, id: string) returns (k: nat)
    requires RowsAgree(books, rows) && id in rows && Resting(books, id, rows[id])
    ensures var m := Market(rows[id].venue, rows[id].symbol);
            var side := Same(books[m], rows[id].side);
            && k == IndexOf(side, id) < |side|
            && side[k].id == id && rows[id] == RowOf(side[k], m) && side[k].remaining > 0.0 && side[k].price > 0.0
            && IdCount(Opposite(books[m], rows[id].side), id) == 0
  {
    var m := Market(rows[id].venue, rows[id].symbol);
    var side := Same(books[m], rows[id].side);
    k := IndexOf(side, id);
    IndexCount(side, id);
    IdsApart(books, rows, m, rows[id].side, m, id);
    assert BookAgrees(books[m], m, rows);
    assert side[k] in side;
  }

  /** Cancelling takes exactly the one order out of its side. */
  lemma CancelTakesOut(books: map<Market, BookVal>, rows: map<string, Row>, id: string) returns (k: nat)
    requires RowsAgree(books, rows) && id in rows && Resting(books, id, rows[id])
    ensures var r := rows[id];
            var m := Market(r.venue, r.symbol);
            var after := AfterCancel(books[m], id);
            && k < |Same(books[m], r.side)| && Same(books[m], r.side)[k].id == id
            && rows[id] == RowOf(Same(books[m], r.side)[k], m)
            && Same(books[m], r.side)[k].remaining > 0.0 && Same(books[m], r.side)[k].price > 0.0
            && Same(after, r.side) == Without(Same(books[m], r.side), k)
            && Opposite(after, r.side) == Opposite(books[m], r.side)
  {
    k := RestingOrder(books, rows, id);
    var m := Market(rows[id].venue, rows[id].symbol);
    IndexCount(Opposite(books[m], rows[id].side), id);
  }

  lemma NotOnBook(b: BookVal, id: string)
    requires IdCount(b.bids, id) == 0 && IdCount(b.asks, id) == 0
    ensures AfterCancel(b, id) == b
  {
    IndexCount(b.bids, id);
    IndexCount(b.asks, id);
  }

  /** After the one order is gone, its id is gone from its side, and nothing else moved. */
  lemma CancelledSide(side: seq<Ord>, k: nat, m: Market, rows: map<string, Row>, id: string)
    requires k < |side| && side[k].id == id && id in rows && SideAgrees(side, m, rows) && UniqueIds(side)
    ensures SideAgrees(Without(side, k), m, CancelRows(rows, id)) && UniqueIds(Without(side, k))
    ensures IdCount(Without(side, k), id) == 0
    ensures forall other :: other != id ==> IdCount(Without(side, k), other) == IdCount(side, other)
  {
    UniqueAt(side, k);
    IdCountMember(Without(side, k), id);
    forall other | other != id
      ensures IdCount(Without(side, k), other) == IdCount(side, other)
    {
      TakenOut(side, k, Assets("", ""), "", "", other);
    }
    forall o | o in Without(side, k)
      ensures o in side && o.id != id
    {
    }
  }

  lemma OtherSideAgrees(side: seq<Ord>, m: Market, rows: map<string, Row>, id: string)
    requires SideAgrees(side, m, rows) && id in rows && IdCount(side, id) == 0
    ensures SideAgrees(side, m, CancelRows(rows, id))
  {
    IdCountMember(side, id);
  }

  /** Every book still agrees with its rows once a resting order was cancelled. */
  lemma CancelRestingBooks(books: map<Market, BookVal>, rows: map<string, Row>, id: string, n: Market)
    requires RowsAgree(books, rows) && id in rows && Resting(books, id, rows[id]) && n in books
    ensures var m := Market(rows[id].venue, rows[id].symbol);
            var books' := CancelBooks(books, m, id);
            && BookAgrees(books'[n], n, CancelRows(rows, id))
            && (forall other :: other != id ==>
                  IdCount(books'[n].bids, other) == IdCount(books[n].bids, other)
                  && IdCount(books'[n].asks, other) == IdCount(books[n].asks, other))
            && IdCount(books'[n].bids, id) == 0 && IdCount(books'[n].asks, id) == 0
  {
    var r := rows[id];
    var m := Market(r.venue, r.symbol);
    assert BookAgrees(books[n], n, rows) && BookAgrees(books[m], m, rows);
    IdsApart(books, rows, n, r.side, m, id);
    if n == m {
      var k := CancelTakesOut(books, rows, id);
      OrderBookProof.CancelKeepsBook(books[m], id);
      CancelledSide(Same(books[m], r.side), k, m, rows, id);
      OtherSideAgrees(Opposite(books[m], r.side), m, rows, id);
    } else {
      OtherSideAgrees(books[n].bids, n, rows, id);
      OtherSideAgrees(books[n].asks, n, rows, id);
    }
  }

  /** An order that does not rest is on no book at all. */
  lemma RestsNowhere(books: map<Market, BookVal>, rows: map<string, Row>, id: string, n: Market)
    requires RowsAgree(books, rows) && id in rows && !Resting(books, id, rows[id]) && n in books
    ensures IdCount(books[n].bids, id) == 0 && IdCount(books[n].asks, id) == 0
  {
    if IdCount(books[n].bids, id) > 0 {
      IdsApart(books, rows, n, Buy, n, id);
    } else if IdCount(books[n].asks, id) > 0 {
      IdsApart(books, rows, n, Sell, n, id);
    }
  }

  lemma CancelAbsentBooks(books: map<Market, BookVal>, rows: map<string, Row>, id: string, n: Market)
    requires RowsAgree(books, rows) && id in rows && !Resting(books, id, rows[id]) && n in books
    ensures AfterCancel(books[n], id) == books[n] && BookAgrees(books[n], n, CancelRows(rows, id))
  {
    RestsNowhere(books, rows, id, n);
    NotOnBook(books[n], id);
    assert BookAgrees(books[n], n, rows);
    OtherSideAgrees(books[n].bids, n, rows, id);
    OtherSideAgrees(books[n].asks, n, rows, id);
  }

  /** One book after the cancellation, whether or not the order rested. */
  lemma CancelBookAt(books: map<Market, BookVal>, rows: map<string, Row>, id: string, n: Market, other: string)
    requires RowsAgree(books, rows) && id in rows && n in books
    ensures var books' := CancelBooks(books, Market(rows[id].venue, rows[id].symbol), id);
            && BookAgrees(books'[n], n, CancelRows(rows, id))
            && IdCount(books'[n].bids, other) == (if other == id then 0 else IdCount(books[n].bids, other))
            && IdCount(books'[n].asks, other) == (if other == id then 0 else IdCount(books[n].asks, other))
  {
    if Resting(books, id, rows[id]) {
      CancelRestingBooks(books, rows, id, n);
    } else {
      CancelAbsentBooks(books, rows, id, n);
      RestsNowhere(books, rows, id, n);
    }
  }

  /** The cancelled order rests nowhere; every other order rests where it rested. */
  lemma CancelResting(books: map<Market, BookVal>, rows: map<string, Row>, id: string, other: string)
    requires RowsAgree(books, rows) && id in rows && other in rows
    ensures var books' := CancelBooks(books, Market(rows[id].venue, rows[id].symbol), id);
            Resting(books', other, CancelRows(rows, id)[other]) == (other != id && Resting(books, other, rows[other]))
  {
    var n := Market(rows[other].venue, rows[other].symbol);
    if n in books {
      CancelBookAt(books, rows, id, n, other);
    }
  }

  lemma CancelKeepsRows(books: map<Market, BookVal>, rows: map<string, Row>, id: string)
    requires RowsAgree(books, rows) && id in rows
    requires rows[id].status == New || rows[id].status == PartiallyFilled
    ensures RowsAgree(CancelBooks(books, Market(rows[id].venue, rows[id].symbol), id), CancelRows(rows, id))
  {
    var books', rows' := CancelBooks(books, Market(rows[id].venue, rows[id].symbol), id), CancelRows(rows, id);
    forall n | n in books'
      ensures BookAgrees(books'[n], n, rows')
    {
      CancelBookAt(books, rows, id, n, id);
    }
    forall other | other in rows'
      ensures RowOk(rows'[other], Resting(books', other, rows'[other]))
    {
      CancelResting(books, rows, id, other);
      assert RowOk(rows[other], Resting(books, other, rows[other]));
    }
  }

  lemma CancelKeepsRefs(
    books: map<Market, BookVal>, rows: map<string, Row>, id: string, txns: seq<Txn>, txns': seq<Txn>)
    requires RowsAgree(books, rows) && id in rows
    requires rows[id].status == New || rows[id].status == PartiallyFilled
    requires RefsAgree(books, rows, txns) && OnlyOwnUnfreeze(txns, txns', id)
    ensures RefsAgree(CancelBooks(books, Market(rows[id].venue, rows[id].symbol), id), CancelRows(rows, id), txns')
  {
    var rows' := CancelRows(rows, id);
    var books' := CancelBooks(books, Market(rows[id].venue, rows[id].symbol), id);
    forall other | other in rows'
      ensures RefAgrees(txns', other, rows'[other], Resting(books', other, rows'[other]))
    {
      CancelResting(books, rows, id, other);
      if other != id {
        assert RefAgrees(txns, other, rows[other], Resting(books, other, rows[other]));
        assert UnfreezeUsed(txns', rows[other].venue, other) == UnfreezeUsed(txns, rows[other].venue, other);
      }
    }
  }

  /** Cancelling a resting order takes its lock, and only its lock, out of the resting collateral. */
  lemma CancelFreesLock(
    books: map<Market, BookVal>, symbols: map<string, Assets>, rows: map<string, Row>, balances: map<Key, Account>,
    residue: map<Key, real>, other: (string, string) -> real, id: string) returns (o: Ord)
    requires RowsAgree(books, rows) && id in rows && Resting(books, id, rows[id])
    requires Explained(books, symbols, balances, residue, other)
    ensures var m := Market(rows[id].venue, rows[id].symbol);
            && rows[id] == RowOf(o, m) && o.id == id && o.remaining > 0.0 && o.price > 0.0
            && Pending(CancelBooks(books, m, id), symbols, balances, residue, other, [], rows,
                       InfoOf(symbols, m.symbol), o)
  {
    var r := rows[id];
    var m := Market(r.venue, r.symbol);
    var info := InfoOf(symbols, m.symbol);
    var k := CancelTakesOut(books, rows, id);
    o := Same(books[m], r.side)[k];
    forall user, asset
      ensures Frozen(balances, user, asset) ==
              Locked(CancelBooks(books, m, id), symbols, user, asset) + Residue(residue, user, asset)
                + other(user, asset)
              + HoldSum([], rows, info, user, asset) + OrdLock(o, info, user, asset)
    {
      LockedWrite(books, symbols, m, AfterCancel(books[m], id), user, asset);
      TakenOut(Same(books[m], r.side), k, info, user, asset, id);
      assert Frozen(balances, user, asset) ==
             Locked(books, symbols, user, asset) + Residue(residue, user, asset) + other(user, asset);
    }
  }
}
