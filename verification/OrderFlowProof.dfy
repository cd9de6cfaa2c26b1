/** How one match moves collateral and order rows. */
module OrderFlowProof {
  import opened OrderBook
  import opened RealSums
  import opened OrderFlow
  import OrderBookProof

  // ----- sums over a side do not depend on its order -----------------------------------------

  lemma {:induction false} SideLockSplit(a: seq<Ord>, b: seq<Ord>, info: Assets, user: string, asset: string)
    ensures SideLock(a + b, info, user, asset) == SideLock(a, info, user, asset) + SideLock(b, info, user, asset)
    decreases |a|
  {
    if a == [] {
      assert a + b == b;
    } else {
      assert (a + b)[1..] == a[1..] + b;
      SideLockSplit(a[1..], b, info, user, asset);
    }
  }

  lemma {:induction false} IdCountSplit(a: seq<Ord>, b: seq<Ord>, id: string)
    ensures IdCount(a + b, id) == IdCount(a, id) + IdCount(b, id)
    decreases |a|
  {
    if a == [] {
      assert a + b == b;
    } else {
      assert (a + b)[1..] == a[1..] + b;
      IdCountSplit(a[1..], b, id);
    }
  }

  /** Taking one element out of a side. */
  lemma TakenOut(os: seq<Ord>, k: nat, info: Assets, user: string, asset: string, id: string)
    requires k < |os|
    ensures SideLock(os, info, user, asset) ==
            OrdLock(os[k], info, user, asset) + SideLock(Without(os, k), info, user, asset)
    ensures IdCount(os, id) == (if os[k].id == id then 1 else 0) + IdCount(Without(os, k), id)
    ensures multiset(os) == multiset(Without(os, k)) + multiset{os[k]}
  {
    var front, back := os[..k], os[k..];
    assert os == front + back && back == [os[k]] + os[k + 1..] && back[1..] == os[k + 1..];
    SideLockSplit(front, back, info, user, asset);
    SideLockSplit(front, os[k + 1..], info, user, asset);
    IdCountSplit(front, back, id);
    IdCountSplit(front, os[k + 1..], id);
    assert multiset(os) == multiset(front) + multiset(back);
  }

  lemma WithoutElements(os: seq<Ord>, k: nat)
    requires k < |os|
    ensures multiset(Without(os, k)) == multiset(os) - multiset{os[k]} && |Without(os, k)| == |os| - 1
  {
    assert os == os[..k] + ([os[k]] + os[k + 1..]);
  }

  lemma {:induction false} Rearranged(a: seq<Ord>, b: seq<Ord>, info: Assets, user: string, asset: string, id: string)
    requires multiset(a) == multiset(b)
    ensures SideLock(a, info, user, asset) == SideLock(b, info, user, asset)
    ensures IdCount(a, id) == IdCount(b, id)
    decreases |a|
  {
    assert |multiset(a)| == |a| && |multiset(b)| == |b|;
    if a != [] {
      assert a[0] in multiset(a);
      var k :| 0 <= k < |b| && b[k] == a[0];
      TakenOut(a, 0, info, user, asset, id);
      TakenOut(b, k, info, user, asset, id);
      WithoutElements(a, 0);
      WithoutElements(b, k);
      Rearranged(Without(a, 0), Without(b, k), info, user, asset, id);
    }
  }

  lemma {:induction false} IdCountMember(os: seq<Ord>, id: string)
    ensures IdCount(os, id) > 0 <==> exists o :: o in os && o.id == id
    decreases |os|
  {
    if os != [] {
      IdCountMember(os[1..], id);
      assert forall o :: o in os <==> o == os[0] || o in os[1..];
    }
  }

  lemma {:induction false} IndexCount(os: seq<Ord>, id: string)
    ensures IdCount(os, id) == 0 <==> IndexOf(os, id) == |os|
    decreases |os|
  {
    if os != [] {
      IndexCount(os[1..], id);
    }
  }

  /** In a side with unique ids, the order at the first matching index is the only one. */
  lemma UniqueAt(os: seq<Ord>, k: nat)
    requires UniqueIds(os) && k < |os|
    ensures IdCount(Without(os, k), os[k].id) == 0
    ensures UniqueIds(Without(os, k))
  {
    forall id
      ensures IdCount(Without(os, k), id) <= 1 && (id == os[k].id ==> IdCount(Without(os, k), id) == 0)
    {
      TakenOut(os, k, Assets("", ""), "", "", id);
    }
  }

  lemma {:induction false} SideLockNonNegative(os: seq<Ord>, info: Assets, user: string, asset: string)
    requires forall o :: o in os ==> o.remaining >= 0.0 && o.price >= 0.0
    ensures SideLock(os, info, user, asset) >= 0.0
    decreases |os|
  {
    if os != [] {
      assert os[0] in os;
      SideLockNonNegative(os[1..], info, user, asset);
    }
  }

  // ----- one market among all --------------------------------------------------------------

  lemma LockedWrite(
    books: map<Market, BookVal>, symbols: map<string, Assets>, m: Market, b: BookVal, user: string, asset: string)
    requires m in books
    ensures var info := InfoOf(symbols, m.symbol);
            Locked(books[m := b], symbols, user, asset) ==
            Locked(books, symbols, user, asset) - BookLock(books[m], info, user, asset) + BookLock(b, info, user, asset)
  {
    var info := InfoOf(symbols, m.symbol);
    SumWrite(LockRows(books, symbols, user, asset), m, BookLock(b, info, user, asset));
    assert LockRows(books[m := b], symbols, user, asset) ==
           LockRows(books, symbols, user, asset)[m := BookLock(b, info, user, asset)];
  }

  lemma LockedNonNegative(
    books: map<Market, BookVal>, symbols: map<string, Assets>, rows: map<string, Row>, user: string, asset: string)
    requires RowsAgree(books, rows)
    ensures Locked(books, symbols, user, asset) >= 0.0
    ensures forall m :: m in books ==>
              0.0 <= BookLock(books[m], InfoOf(symbols, m.symbol), user, asset) <= Locked(books, symbols, user, asset)
  {
    forall m | m in books
      ensures BookLock(books[m], InfoOf(symbols, m.symbol), user, asset) >= 0.0
    {
      SideLockNonNegative(books[m].bids, InfoOf(symbols, m.symbol), user, asset);
      SideLockNonNegative(books[m].asks, InfoOf(symbols, m.symbol), user, asset);
    }
    SumNonNegative(LockRows(books, symbols, user, asset));
    forall m | m in books
      ensures BookLock(books[m], InfoOf(symbols, m.symbol), user, asset) <= Locked(books, symbols, user, asset)
    {
      assert LockRows(books, symbols, user, asset)[m] == BookLock(books[m], InfoOf(symbols, m.symbol), user, asset);
    }
  }

  // ----- matching moves collateral from orders to trades -------------------------------------

  /** The rows quote each order's own limit. */
  predicate LimitsKnown(incoming: Ord, opposite: seq<Ord>, rows: map<string, Row>) {
    && LimitOf(rows, incoming.id) == incoming.price
    && forall o :: o in opposite ==> LimitOf(rows, o.id) == o.price
  }

  lemma HoldSumCons(t: Trade, rest: seq<Trade>, rows: map<string, Row>, info: Assets, user: string, asset: string)
    ensures HoldSum([t] + rest, rows, info, user, asset) ==
            TradeHold(t, LimitOf(rows, t.buyId), info, user, asset) + HoldSum(rest, rows, info, user, asset)
  {
    assert ([t] + rest)[1..] == rest;
  }

  lemma SideLockCons(o: Ord, rest: seq<Ord>, info: Assets, user: string, asset: string)
    ensures SideLock([o] + rest, info, user, asset) == OrdLock(o, info, user, asset) + SideLock(rest, info, user, asset)
  {
    assert ([o] + rest)[1..] == rest;
  }

  /** What both sides had locked is what they still lock plus what the trades hold. */
  lemma {:induction false} MatchMovesLock(
    incoming: Ord, opposite: seq<Ord>, rows: map<string, Row>, info: Assets, user: string, asset: string)
    requires LimitsKnown(incoming, opposite, rows)
    requires forall o :: o in opposite ==> o.side == OrderBookProof.OtherSide(incoming.side)
    ensures var m := MatchAgainst(incoming, opposite);
            SideLock(opposite, info, user, asset) + OrdLock(incoming, info, user, asset) ==
            SideLock(m.opposite, info, user, asset) + OrdLock(m.incoming, info, user, asset)
            + HoldSum(m.trades, rows, info, user, asset)
    decreases |opposite|
  {
    if !(incoming.remaining <= 0.0 || opposite == [] || !Crosses(incoming, opposite[0])) {
      var best, tail := opposite[0], opposite[1..];
      var quantity := RMin(incoming.remaining, best.remaining);
      var trade := Fill(incoming, best, quantity);
      assert best in opposite;
      assert forall o :: o in tail ==> o in opposite;
      FillMovesLock(incoming, best, quantity, rows, info, user, asset);
      if best.remaining == quantity {
        var rest := MatchAgainst(Reduced(incoming, quantity), tail);
        MatchMovesLock(Reduced(incoming, quantity), tail, rows, info, user, asset);
        HoldSumCons(trade, rest.trades, rows, info, user, asset);
        assert OrdLock(Reduced(best, quantity), info, user, asset) == 0.0;
      } else {
        assert [trade] + [] == [trade];
        HoldSumCons(trade, [], rows, info, user, asset);
        SideLockCons(Reduced(best, quantity), tail, info, user, asset);
      }
    }
  }

  lemma FillMovesLock(
    incoming: Ord, best: Ord, quantity: real, rows: map<string, Row>, info: Assets, user: string, asset: string)
    requires LimitOf(rows, incoming.id) == incoming.price && LimitOf(rows, best.id) == best.price
    requires best.side == OrderBookProof.OtherSide(incoming.side)
    ensures var t := Fill(incoming, best, quantity);
            OrdLock(incoming, info, user, asset) + OrdLock(best, info, user, asset) ==
            OrdLock(Reduced(incoming, quantity), info, user, asset)
              + OrdLock(Reduced(best, quantity), info, user, asset)
            + TradeHold(t, LimitOf(rows, t.buyId), info, user, asset)
  {
    assert (incoming.remaining - quantity) * incoming.price ==
      incoming.remaining * incoming.price - quantity * incoming.price;
    assert (best.remaining - quantity) * best.price == best.remaining * best.price - quantity * best.price;
  }

  // ----- matching updates the makers' rows ---------------------------------------------------

  /** Filling a resting order by part of its remainder fills its row alike. */
  lemma FillRowAgrees(o: Ord, m: Market, quantity: real)
    requires 0.0 < quantity <= o.remaining <= o.quantity
    ensures quantity < o.remaining ==> FillRow(RowOf(o, m), quantity) == RowOf(Reduced(o, quantity), m)
    ensures quantity == o.remaining ==>
              FillRow(RowOf(o, m), quantity) == RowOf(o, m).(filled := o.quantity, status := Filled)
  {
  }

  lemma FillMakerRow(rows: map<string, Row>, incoming: Ord, best: Ord, quantity: real)
    requires best.id in rows && best.id != incoming.id
    ensures FillMaker(rows, Fill(incoming, best, quantity), incoming.id) ==
            rows[best.id := FillRow(rows[best.id], quantity)]
  {
  }

  /** After the makers' rows were updated: what is left of the opposite side agrees with its rows,
      fully consumed orders are FILLED, and no other row changed. */
  ghost predicate MakersUpdated(
    opposite: seq<Ord>, left: seq<Ord>, m: Market, rows: map<string, Row>, after: map<string, Row>)
  {
    && after.Keys == rows.Keys
    && SideAgrees(left, m, after) && UniqueIds(left)
    && forall id :: id in rows ==>
         && IdCount(left, id) <= IdCount(opposite, id)
         && (IdCount(opposite, id) == 0 ==> after[id] == rows[id])
         && (IdCount(opposite, id) > 0 && IdCount(left, id) == 0 ==>
               after[id] == rows[id].(filled := rows[id].quantity, status := Filled))
         && (IdCount(left, id) > 0 ==> after[id].(filled := rows[id].filled, status := rows[id].status) == rows[id])
  }

  lemma {:induction false} MatchUpdatesMakers(incoming: Ord, opposite: seq<Ord>, m: Market, rows: map<string, Row>)
    requires SideAgrees(opposite, m, rows) && UniqueIds(opposite) && OrderBookProof.AllPositive(opposite)
    requires IdCount(opposite, incoming.id) == 0
    ensures var mt := MatchAgainst(incoming, opposite);
            MakersUpdated(opposite, mt.opposite, m, rows, FillMakers(rows, mt.trades, incoming.id))
    decreases |opposite|
  {
    if !(incoming.remaining <= 0.0 || opposite == [] || !Crosses(incoming, opposite[0])) {
      var best, tail := opposite[0], opposite[1..];
      var quantity := RMin(incoming.remaining, best.remaining);
      var trade := Fill(incoming, best, quantity);
      assert best in opposite;
      IdCountMember(opposite, incoming.id);
      FillMakerRow(rows, incoming, best, quantity);
      FillRowAgrees(best, m, quantity);
      var next := rows[best.id := FillRow(rows[best.id], quantity)];
      TailAgrees(opposite, m, rows, next);
      if best.remaining == quantity {
        var rest := MatchAgainst(Reduced(incoming, quantity), tail);
        MatchUpdatesMakers(Reduced(incoming, quantity), tail, m, next);
        assert ([trade] + rest.trades)[1..] == rest.trades;
        FullStep(opposite, rest.opposite, m, rows, next, FillMakers(next, rest.trades, incoming.id));
      } else {
        assert [trade][1..] == [];
        PartialStep(opposite, quantity, m, rows, next);
      }
    }
  }

  /** Behind the front, nothing changes when the front's row is written. */
  lemma TailAgrees(opposite: seq<Ord>, m: Market, rows: map<string, Row>, next: map<string, Row>)
    requires opposite != [] && SideAgrees(opposite, m, rows) && UniqueIds(opposite)
             && OrderBookProof.AllPositive(opposite)
    requires opposite[0].id in next && next == rows[opposite[0].id := next[opposite[0].id]]
    ensures SideAgrees(opposite[1..], m, next) && UniqueIds(opposite[1..]) && OrderBookProof.AllPositive(opposite[1..])
    ensures IdCount(opposite[1..], opposite[0].id) == 0
    ensures forall id :: IdCount(opposite, id) == (if id == opposite[0].id then 1 else 0) + IdCount(opposite[1..], id)
  {
    var tail := opposite[1..];
    forall id
      ensures IdCount(tail, id) <= 1 && (id == opposite[0].id ==> IdCount(tail, id) == 0)
    {
      assert IdCount(opposite, id) <= 1;
    }
    IdCountMember(tail, opposite[0].id);
    assert forall o :: o in tail ==> o in opposite && o.id != opposite[0].id;
  }

  lemma FullStep(
    opposite: seq<Ord>, left: seq<Ord>, m: Market, rows: map<string, Row>, next: map<string, Row>,
    after: map<string, Row>)
    requires opposite != [] && opposite[0].id in rows
    requires next ==
             rows[opposite[0].id := rows[opposite[0].id].(filled := rows[opposite[0].id].quantity, status := Filled)]
    requires IdCount(opposite[1..], opposite[0].id) == 0
    requires forall id :: IdCount(opposite, id) == (if id == opposite[0].id then 1 else 0) + IdCount(opposite[1..], id)
    requires MakersUpdated(opposite[1..], left, m, next, after)
    ensures MakersUpdated(opposite, left, m, rows, after)
  {
    forall id | id in rows
      ensures IdCount(left, id) <= IdCount(opposite, id)
      ensures IdCount(opposite, id) == 0 ==> after[id] == rows[id]
      ensures IdCount(opposite, id) > 0 && IdCount(left, id) == 0 ==>
                after[id] == rows[id].(filled := rows[id].quantity, status := Filled)
      ensures IdCount(left, id) > 0 ==> after[id].(filled := rows[id].filled, status := rows[id].status) == rows[id]
    {
      assert id in next;
    }
  }

  lemma PartialStep(opposite: seq<Ord>, quantity: real, m: Market, rows: map<string, Row>, next: map<string, Row>)
    requires opposite != [] && opposite[0].id in rows && 0.0 < quantity < opposite[0].remaining
    requires SideAgrees(opposite, m, rows) && UniqueIds(opposite)
    requires next == rows[opposite[0].id := RowOf(Reduced(opposite[0], quantity), m)]
    requires SideAgrees(opposite[1..], m, next) && IdCount(opposite[1..], opposite[0].id) == 0
    requires forall id :: IdCount(opposite, id) == (if id == opposite[0].id then 1 else 0) + IdCount(opposite[1..], id)
    ensures MakersUpdated(opposite, [Reduced(opposite[0], quantity)] + opposite[1..], m, rows, next)
  {
    var left := [Reduced(opposite[0], quantity)] + opposite[1..];
    assert left[1..] == opposite[1..];
    assert opposite[0] in opposite;
    forall id
      ensures IdCount(left, id) == IdCount(opposite, id)
    {
    }
    assert rows[opposite[0].id] == RowOf(opposite[0], m);
  }
}
