/** Placing an order keeps rows and books in agreement. */
module PlaceProof {
  import opened OrderBook
  import opened OrderFlow
  import opened OrderFlowProof
  import OrderBookProof

  /** The order the service submits and the row it creates for it. */
  predicate FreshOrder(o: Ord, rows: map<string, Row>) {
    && o.id !in rows && o.remaining == o.quantity && o.quantity > 0.0
    && (o.price > 0.0 || (o.price == 0.0 && o.side == Sell))
  }

  function NewRow(o: Ord, m: Market): Row {
    Row(o.user, m.venue, m.symbol, o.side, if IsMarket(o) then MarketOrder else LimitOrder, New, o.price,
        o.quantity, 0.0)
  }

  /** The row of the incoming order once its fills are recorded. */
  function TakerRow(o: Ord, m: Market, filled: real, resting: bool): Row {
    NewRow(o, m).(filled := filled, status := TakerStatus(o.quantity, filled, resting))
  }

  /** All row updates of one placed order. */
  function RowsAfterPlace(
    rows: map<string, Row>, o: Ord, m: Market, trades: seq<Trade>, resting: bool)
    : map<string, Row>
  {
    var filled := FillMakers(rows[o.id := NewRow(o, m)], trades, o.id);
    filled[o.id := TakerRow(o, m, OrderBookProof.TotalQuantity(trades), resting)]
  }

  /** The two sides of a market never share an id, since the row fixes the side. */
  lemma IdsApart(books: map<Market, BookVal>, rows: map<string, Row>, m: Market, side: Side, n: Market, id: string)
    requires RowsAgree(books, rows) && m in books && n in books
    requires IdCount(Same(books[n], side), id) > 0
    ensures id in rows && Resting(books, id, rows[id]) && Market(rows[id].venue, rows[id].symbol) == n
            && rows[id].side == side
    ensures IdCount(Opposite(books[m], side), id) == 0
    ensures m != n ==> IdCount(Same(books[m], side), id) == 0
  {
    IdCountMember(Same(books[n], side), id);
    var o :| o in Same(books[n], side) && o.id == id;
    assert BookAgrees(books[n], n, rows);
    assert o.side == side && rows[id] == RowOf(o, n);
    IdCountMember(Opposite(books[m], side), id);
    IdCountMember(Same(books[m], side), id);
    assert BookAgrees(books[m], m, rows);
  }

  lemma UnknownIdAbsent(books: map<Market, BookVal>, rows: map<string, Row>, m: Market, id: string)
    requires RowsAgree(books, rows) && m in books && id !in rows
    ensures IdCount(books[m].bids, id) == 0 && IdCount(books[m].asks, id) == 0
  {
    IdCountMember(books[m].bids, id);
    IdCountMember(books[m].asks, id);
    assert BookAgrees(books[m], m, rows);
  }

  /** What matching leaves on the other side, and how much it filled. */
  lemma FillAmounts(o: Ord, opposite: seq<Ord>)
    requires o.remaining == o.quantity && o.quantity > 0.0 && OrderBookProof.AllPositive(opposite)
    ensures var mt := MatchAgainst(o, opposite);
            var filled := OrderBookProof.TotalQuantity(mt.trades);
            && 0.0 <= filled <= o.quantity
            && mt.incoming == o.(remaining := o.quantity - filled)
            && Entering(o) == o
  {
    OrderBookProof.MatchIsGreedy(o, opposite);
    OrderBookProof.TotalAtLeast(MatchAgainst(o, opposite).trades);
  }

  /** The side the incoming order may join. */
  lemma OwnSideAgrees(same: seq<Ord>, left: Ord, after: seq<Ord>, m: Market, rows: map<string, Row>)
    requires SideAgrees(same, m, rows) && UniqueIds(same) && IdCount(same, left.id) == 0
    requires multiset(after) == multiset(same + [left])
    requires left.id in rows && rows[left.id] == RowOf(left, m) && left.price > 0.0 && left.remaining <= left.quantity
    ensures SideAgrees(after, m, rows) && UniqueIds(after)
    ensures forall id :: IdCount(after, id) == IdCount(same, id) + if id == left.id then 1 else 0
  {
    forall id
      ensures IdCount(after, id) == IdCount(same, id) + if id == left.id then 1 else 0
    {
      Rearranged(after, same + [left], Assets("", ""), "", "", id);
      IdCountSplit(same, [left], id);
      assert [left][1..] == [];
    }
    forall o | o in after
      ensures o in same || o == left
    {
      assert o in multiset(same + [left]);
    }
  }

  /** Everything the rows' agreement needs to know about one placed order. */
  ghost predicate Placed(
    before: map<Market, BookVal>, rows: map<string, Row>, o: Ord, m: Market, trades: seq<Trade>, left: Ord,
    resting: bool, after: BookVal)
  {
    && RowsAgree(before, rows) && m in before && FreshOrder(o, rows)
    && MatchStep(before[m], o, trades, left, resting, after)
  }

  lemma MakersAfterPlace(
    before: map<Market, BookVal>, rows: map<string, Row>, o: Ord, m: Market, trades: seq<Trade>, left: Ord,
    resting: bool, after: BookVal)
    requires Placed(before, rows, o, m, trades, left, resting, after)
    ensures var rows1 := rows[o.id := NewRow(o, m)];
            && MakersUpdated(Opposite(before[m], o.side), Opposite(after, o.side), m, rows1,
                             FillMakers(rows1, trades, o.id))
            && SideAgrees(Opposite(before[m], o.side), m, rows1)
            && IdCount(Opposite(before[m], o.side), o.id) == 0 && IdCount(Same(before[m], o.side), o.id) == 0
    ensures 0.0 <= OrderBookProof.TotalQuantity(trades) <= o.quantity
    ensures left == o.(remaining := o.quantity - OrderBookProof.TotalQuantity(trades))
  {
    var opposite := Opposite(before[m], o.side);
    assert BookAgrees(before[m], m, rows);
    UnknownIdAbsent(before, rows, m, o.id);
    FillAmounts(o, opposite);
    IdCountMember(opposite, o.id);
    MatchUpdatesMakers(o, opposite, m, rows[o.id := NewRow(o, m)]);
  }

  /** The market the order was placed on agrees with the new rows. */
  lemma MarketAgrees(
    before: map<Market, BookVal>, rows: map<string, Row>, o: Ord, m: Market, trades: seq<Trade>, left: Ord,
    resting: bool, after: BookVal)
    requires Placed(before, rows, o, m, trades, left, resting, after)
    ensures BookAgrees(after, m, RowsAfterPlace(rows, o, m, trades, resting))
    ensures forall id :: IdCount(Same(after, o.side), id) ==
                         IdCount(Same(before[m], o.side), id) + if resting && id == o.id then 1 else 0
  {
    MakersAfterPlace(before, rows, o, m, trades, left, resting, after);
    var rows1 := rows[o.id := NewRow(o, m)];
    var rows2 := FillMakers(rows1, trades, o.id);
    var final := RowsAfterPlace(rows, o, m, trades, resting);
    var same, opposite := Same(before[m], o.side), Opposite(before[m], o.side);
    assert BookAgrees(before[m], m, rows);
    OrderBookProof.MatchKeepsBook(before[m], o, trades, left, resting, after);
    forall p | p in same
      ensures p.id in final && final[p.id] == rows[p.id]
    {
      IdCountMember(same, p.id);
      IdsApart(before, rows, m, o.side, m, p.id);
    }
    assert SideAgrees(same, m, final);
    forall p | p in Opposite(after, o.side)
      ensures p.id != o.id
    {
      IdCountMember(Opposite(after, o.side), p.id);
      assert o.id in rows1;
    }
    assert SideAgrees(Opposite(after, o.side), m, final);
    if resting {
      OwnSideAgrees(same, left, Same(after, o.side), m, final);
    }
  }

  /** Any other market is untouched. */
  lemma OtherMarketAgrees(
    before: map<Market, BookVal>, rows: map<string, Row>, o: Ord, m: Market, trades: seq<Trade>, left: Ord,
    resting: bool, after: BookVal, n: Market)
    requires Placed(before, rows, o, m, trades, left, resting, after) && n in before && n != m
    ensures BookAgrees(before[n], n, RowsAfterPlace(rows, o, m, trades, resting))
  {
    MakersAfterPlace(before, rows, o, m, trades, left, resting, after);
    var final := RowsAfterPlace(rows, o, m, trades, resting);
    assert BookAgrees(before[n], n, rows);
    forall p | p in before[n].bids
      ensures p.id in final && final[p.id] == rows[p.id]
    {
      IdCountMember(before[n].bids, p.id);
      IdsApart(before, rows, m, Buy, n, p.id);
    }
    forall p | p in before[n].asks
      ensures p.id in final && final[p.id] == rows[p.id]
    {
      IdCountMember(before[n].asks, p.id);
      IdsApart(before, rows, m, Sell, n, p.id);
    }
  }

  /** The incoming order's own row. */
  lemma TakerRowOk(o: Ord, m: Market, filled: real, left: Ord, resting: bool)
    requires o.quantity > 0.0 && 0.0 <= filled <= o.quantity
    requires o.price > 0.0 || (o.price == 0.0 && o.side == Sell)
    requires left == o.(remaining := o.quantity - filled) && resting == Rests(left)
    ensures RowOk(TakerRow(o, m, filled, resting), resting)
  {
  }

  /** What the placed order did to one row, and that the row is still right. */
  ghost predicate RowStep(
    before: map<Market, BookVal>, books: map<Market, BookVal>, rows: map<string, Row>, final: map<string, Row>,
    taker: string, id: string)
    requires id in final
  {
    && RowOk(final[id], Resting(books, id, final[id]))
    && (id != taker ==>
          && id in rows
          && (Resting(books, id, final[id]) ==> Resting(before, id, rows[id]))
          && (rows[id].typ == MarketOrder ==> final[id] == rows[id])
          && final[id].venue == rows[id].venue && final[id].typ == rows[id].typ)
  }

  lemma RowIsOk(books: map<Market, BookVal>, rows: map<string, Row>, id: string)
    requires RowsAgree(books, rows) && id in rows
    ensures RowOk(rows[id], Resting(books, id, rows[id]))
  {
  }

  lemma TakerStep(
    before: map<Market, BookVal>, rows: map<string, Row>, o: Ord, m: Market, trades: seq<Trade>, left: Ord,
    resting: bool, after: BookVal)
    requires Placed(before, rows, o, m, trades, left, resting, after)
    ensures RowStep(before, before[m := after], rows, RowsAfterPlace(rows, o, m, trades, resting), o.id, o.id)
  {
    MakersAfterPlace(before, rows, o, m, trades, left, resting, after);
    MarketAgrees(before, rows, o, m, trades, left, resting, after);
    TakerRowOk(o, m, OrderBookProof.TotalQuantity(trades), left, resting);
  }

  lemma MakerStep(
    before: map<Market, BookVal>, rows: map<string, Row>, o: Ord, m: Market, trades: seq<Trade>, left: Ord,
    resting: bool, after: BookVal, id: string)
    requires Placed(before, rows, o, m, trades, left, resting, after)
    requires id != o.id && IdCount(Opposite(before[m], o.side), id) > 0
    requires id in RowsAfterPlace(rows, o, m, trades, resting)
    ensures RowStep(before, before[m := after], rows, RowsAfterPlace(rows, o, m, trades, resting), o.id, id)
  {
    var final := RowsAfterPlace(rows, o, m, trades, resting);
    MakersAfterPlace(before, rows, o, m, trades, left, resting, after);
    IdsApart(before, rows, m, OrderBookProof.OtherSide(o.side), m, id);
    RowIsOk(before, rows, id);
    var now := Opposite(after, o.side);
    if IdCount(now, id) > 0 {
      MarketAgrees(before, rows, o, m, trades, left, resting, after);
      IdCountMember(now, id);
      RestingRowOk(after, m, final, OrderBookProof.OtherSide(o.side), id);
    }
  }

  lemma RestingRowOk(b: BookVal, m: Market, rows: map<string, Row>, side: Side, id: string)
    requires BookAgrees(b, m, rows) && IdCount(Same(b, side), id) > 0
    ensures id in rows && RowOk(rows[id], true) && rows[id].side == side && rows[id].typ == LimitOrder
  {
    IdCountMember(Same(b, side), id);
    var p :| p in Same(b, side) && p.id == id;
    assert rows[id] == RowOf(p, m);
  }

  lemma BystanderStep(
    before: map<Market, BookVal>, rows: map<string, Row>, o: Ord, m: Market, trades: seq<Trade>, left: Ord,
    resting: bool, after: BookVal, id: string)
    requires Placed(before, rows, o, m, trades, left, resting, after)
    requires id != o.id && IdCount(Opposite(before[m], o.side), id) == 0
    requires id in RowsAfterPlace(rows, o, m, trades, resting)
    ensures RowStep(before, before[m := after], rows, RowsAfterPlace(rows, o, m, trades, resting), o.id, id)
  {
    var final := RowsAfterPlace(rows, o, m, trades, resting);
    MakersAfterPlace(before, rows, o, m, trades, left, resting, after);
    assert final[id] == rows[id];
    assert IdCount(Opposite(after, o.side), id) == 0;
    SameCounts(before, rows, o, m, trades, left, resting, after, id);
    RowIsOk(before, rows, id);
  }

  lemma SameCounts(
    before: map<Market, BookVal>, rows: map<string, Row>, o: Ord, m: Market, trades: seq<Trade>, left: Ord,
    resting: bool, after: BookVal, id: string)
    requires Placed(before, rows, o, m, trades, left, resting, after) && id != o.id
    ensures IdCount(Same(after, o.side), id) == IdCount(Same(before[m], o.side), id)
  {
    MarketAgrees(before, rows, o, m, trades, left, resting, after);
  }

  lemma RowsOkAfterPlace(
    before: map<Market, BookVal>, rows: map<string, Row>, o: Ord, m: Market, trades: seq<Trade>, left: Ord,
    resting: bool, after: BookVal, id: string)
    requires Placed(before, rows, o, m, trades, left, resting, after)
    requires id in RowsAfterPlace(rows, o, m, trades, resting)
    ensures RowStep(before, before[m := after], rows, RowsAfterPlace(rows, o, m, trades, resting), o.id, id)
  {
    if id == o.id {
      TakerStep(before, rows, o, m, trades, left, resting, after);
    } else if IdCount(Opposite(before[m], o.side), id) > 0 {
      MakerStep(before, rows, o, m, trades, left, resting, after, id);
    } else {
      BystanderStep(before, rows, o, m, trades, left, resting, after, id);
    }
  }

  /** Rows and books agree after a placed order if they agreed before it. */
  lemma PlaceKeepsRows(
    before: map<Market, BookVal>, rows: map<string, Row>, o: Ord, m: Market, trades: seq<Trade>, left: Ord,
    resting: bool, after: BookVal)
    requires Placed(before, rows, o, m, trades, left, resting, after)
    ensures RowsAgree(before[m := after], RowsAfterPlace(rows, o, m, trades, resting))
  {
    var books, final := before[m := after], RowsAfterPlace(rows, o, m, trades, resting);
    MarketAgrees(before, rows, o, m, trades, left, resting, after);
    forall n | n in books
      ensures BookAgrees(books[n], n, final)
    {
      if n != m {
        OtherMarketAgrees(before, rows, o, m, trades, left, resting, after, n);
      }
    }
    forall id | id in final
      ensures RowOk(final[id], Resting(books, id, final[id]))
    {
      RowsOkAfterPlace(before, rows, o, m, trades, left, resting, after, id);
    }
  }
}
