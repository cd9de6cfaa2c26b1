/** What a placed order's row and the rows of the orders it fills say afterwards, in bare quantities. */
module OrderOutcome {
  import opened OrderBook
  import opened OrderFlow
  import opened PlaceProof
  import OrderBookProof

  // ----- the order itself ------------------------------------------------------------------------

  /** The row holds what was ordered, and `filled` of it is filled: its status is Filled when that is
      all, PartiallyFilled when it is some, and when it is nothing New or Cancelled, according to
      whether the order rests. */
  predicate Recorded(row: Row, o: Ord, m: Market, filled: real, resting: bool) {
    && row.user == o.user && row.venue == m.venue && row.symbol == m.symbol && row.side == o.side
    && row.price == o.price && row.quantity == o.quantity && (row.typ == MarketOrder <==> o.price == 0.0)
    && row.filled == filled && 0.0 <= filled <= o.quantity
    && (row.status == Filled <==> filled == o.quantity)
    && (row.status == PartiallyFilled <==> 0.0 < filled < o.quantity)
    && (row.status == New <==> filled == 0.0 && resting)
    && (row.status == Cancelled <==> filled == 0.0 && !resting)
  }

  lemma TakerRecorded(
    books: map<Market, BookVal>, rows: map<string, Row>, o: Ord, m: Market, trades: seq<Trade>, left: Ord,
    resting: bool, after: BookVal)
    requires Placed(books, rows, o, m, trades, left, resting, after)
    ensures var final := RowsAfterPlace(rows, o, m, trades, resting);
            o.id in final && Recorded(final[o.id], o, m, OrderBookProof.TotalQuantity(trades), resting)
  {
    MakersAfterPlace(books, rows, o, m, trades, left, resting, after);
  }

  /** Whether an order rests, and how much of it is filled, shows on the book before it. */
  lemma TakerFills(
    books: map<Market, BookVal>, rows: map<string, Row>, o: Ord, m: Market, trades: seq<Trade>, left: Ord,
    resting: bool, after: BookVal)
    requires Placed(books, rows, o, m, trades, left, resting, after)
    ensures var opposite := if o.side == Buy then books[m].asks else books[m].bids;
            var within := OrderBookProof.WithinLimit(o.side, o.price, opposite);
            && OrderBookProof.TotalQuantity(trades) == (if o.quantity <= within then o.quantity else within)
            && (resting <==> OrderBookProof.TotalQuantity(trades) < o.quantity && o.price != 0.0)
  {
    assert BookAgrees(books[m], m, rows);
    OrderBookProof.MatchFillsRightly(books[m], o, trades, left, resting, after);
  }

  /** What is left of a limit order stands on its own side of the book, with its price and time and
      the quantity not filled, and everything there before still does; else that side is unchanged. */
  lemma RestsOnBook(
    books: map<Market, BookVal>, rows: map<string, Row>, o: Ord, m: Market, trades: seq<Trade>, left: Ord,
    resting: bool, after: BookVal)
    requires Placed(books, rows, o, m, trades, left, resting, after)
    ensures var rest := Ord(o.id, o.user, o.side, o.price, o.quantity,
                            o.quantity - OrderBookProof.TotalQuantity(trades), o.createdAt);
            var before := if o.side == Buy then books[m].bids else books[m].asks;
            var now := if o.side == Buy then after.bids else after.asks;
            && left == rest && (resting ==> o.price != 0.0)
            && (resting ==> rest in now && multiset(now) == multiset(before) + multiset{rest})
            && (!resting ==> now == before)
  {
    MakersAfterPlace(books, rows, o, m, trades, left, resting, after);
    if resting {
      var now := if o.side == Buy then after.bids else after.asks;
      assert left in multiset(now);
    }
  }

  // ----- the orders it fills -----------------------------------------------------------------------

  /** What the trades fill of one order. */
  function FilledBy(trades: seq<Trade>, id: string): real {
    if trades == [] then 0.0
    else (if trades[0].buyId == id || trades[0].sellId == id then trades[0].quantity else 0.0)
         + FilledBy(trades[1..], id)
  }

  predicate OneSide(trades: seq<Trade>, taker: string) {
    forall i :: 0 <= i < |trades| ==>
      trades[i].quantity > 0.0 && ((trades[i].buyId == taker) != (trades[i].sellId == taker))
  }

  predicate FilledRow(before: Row, after: Row, more: real) {
    && after == before.(filled := before.filled + more, status := after.status)
    && after.status == if more == 0.0 then before.status
                       else if before.filled + more >= before.quantity then Filled else PartiallyFilled
  }

  lemma OneFill(rows: map<string, Row>, t: Trade, taker: string, id: string)
    requires id in rows && id != taker && (t.buyId == taker) != (t.sellId == taker) && t.quantity > 0.0
    ensures id in FillMaker(rows, t, taker)
    ensures FilledRow(rows[id], FillMaker(rows, t, taker)[id],
                      if t.buyId == id || t.sellId == id then t.quantity else 0.0)
  {
  }

  lemma FilledRowAgain(a: Row, b: Row, c: Row, x: real, y: real)
    requires FilledRow(a, b, x) && FilledRow(b, c, y) && x >= 0.0 && y >= 0.0
    ensures FilledRow(a, c, x + y)
  {
  }

  lemma {:induction false} MakersFilled(rows: map<string, Row>, trades: seq<Trade>, taker: string, id: string)
    requires id in rows && id != taker && OneSide(trades, taker)
    ensures FilledBy(trades, id) >= 0.0 && id in FillMakers(rows, trades, taker)
    ensures FilledRow(rows[id], FillMakers(rows, trades, taker)[id], FilledBy(trades, id))
    decreases |trades|
  {
    if trades != [] {
      var t, tail := trades[0], trades[1..];
      var next := FillMaker(rows, t, taker);
      assert forall i :: 0 <= i < |tail| ==> tail[i] == trades[i + 1];
      OneFill(rows, t, taker, id);
      MakersFilled(next, tail, taker, id);
      FilledRowAgain(rows[id], next[id], FillMakers(rows, trades, taker)[id],
                     if t.buyId == id || t.sellId == id then t.quantity else 0.0, FilledBy(tail, id));
    }
  }

  lemma TradesOneSide(
    books: map<Market, BookVal>, rows: map<string, Row>, o: Ord, m: Market, trades: seq<Trade>, left: Ord,
    resting: bool, after: BookVal)
    requires Placed(books, rows, o, m, trades, left, resting, after)
    ensures OneSide(trades, o.id)
  {
    var opposite := Opposite(books[m], o.side);
    assert BookAgrees(books[m], m, rows);
    OrderBookProof.MatchIsGreedy(o, opposite);
    OrderBookProof.MatchPricesFairly(o, opposite);
    forall i | 0 <= i < |trades|
      ensures trades[i].quantity > 0.0 && ((trades[i].buyId == o.id) != (trades[i].sellId == o.id))
    {
      assert OrderBookProof.FillsOne(o, opposite[i], trades[i]);
      assert OrderBookProof.PricedFairly(o, opposite[i], trades[i]);
      assert opposite[i] in opposite;
    }
  }

  /** Every other row is filled by exactly what the trades took of its order, becoming Filled or
      PartiallyFilled by it, and is otherwise as it was. */
  lemma MakersRecorded(
    books: map<Market, BookVal>, rows: map<string, Row>, o: Ord, m: Market, trades: seq<Trade>, left: Ord,
    resting: bool, after: BookVal, id: string)
    requires Placed(books, rows, o, m, trades, left, resting, after) && id in rows
    ensures var final := RowsAfterPlace(rows, o, m, trades, resting);
            id in final && FilledRow(rows[id], final[id], FilledBy(trades, id))
  {
    TradesOneSide(books, rows, o, m, trades, left, resting, after);
    MakersFilled(rows[o.id := NewRow(o, m)], trades, o.id, id);
  }
}
