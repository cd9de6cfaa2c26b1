/** The matching loop meets a declarative specification, and the specification admits nothing
    else; every call keeps the book sorted, positive and uncrossed. */
module OrderBookProof {
  import opened OrderBook

  // ----- the greedy specification ----------------------------------------------------------

  function TotalQuantity(trades: seq<Trade>): real {
    if trades == [] then 0.0 else trades[0].quantity + TotalQuantity(trades[1..])
  }

  /** Trades consume a prefix of the opposite side in priority order, each resting order fully
      except possibly the last; what was filled and what is left make up the incoming quantity;
      everything behind is untouched; and the loop stopped only because the order was filled or
      nothing crosses any more. */
  predicate Greedy(incoming: Ord, opposite: seq<Ord>, m: Matched) {
    && FillsPrefix(incoming, opposite, m.trades)
    && m.incoming == Reduced(incoming, TotalQuantity(m.trades))
    && RightlyStopped(incoming, opposite, m)
  }

  predicate FillsPrefix(incoming: Ord, opposite: seq<Ord>, trades: seq<Trade>) {
    && |trades| <= |opposite|
    && (trades != [] ==> incoming.remaining > 0.0)
    && (forall i :: 0 <= i < |trades| ==> FillsOne(incoming, opposite[i], trades[i]))
    && (forall i :: 0 <= i < |trades| - 1 ==> trades[i].quantity == opposite[i].remaining)
  }

  predicate FillsOne(incoming: Ord, best: Ord, t: Trade) {
    Crosses(incoming, best) && t == Fill(incoming, best, t.quantity) && 0.0 < t.quantity <= best.remaining
  }

  predicate RightlyStopped(incoming: Ord, opposite: seq<Ord>, m: Matched) {
    var n := |m.trades|;
    && n <= |opposite|
    && (incoming.remaining >= 0.0 ==> m.incoming.remaining >= 0.0)
    && (if n > 0 && m.trades[n - 1].quantity < opposite[n - 1].remaining
        then m.incoming.remaining == 0.0
             && m.opposite == [Reduced(opposite[n - 1], m.trades[n - 1].quantity)] + opposite[n..]
        else m.opposite == opposite[n..])
    && (m.incoming.remaining > 0.0 ==> m.opposite == [] || !Crosses(incoming, m.opposite[0]))
  }

  predicate AllPositive(os: seq<Ord>) {
    forall o :: o in os ==> o.remaining > 0.0
  }

  lemma {:induction false} MatchIsGreedy(incoming: Ord, opposite: seq<Ord>)
    requires AllPositive(opposite)
    ensures Greedy(incoming, opposite, MatchAgainst(incoming, opposite))
    decreases |opposite|
  {
    var m := MatchAgainst(incoming, opposite);
    if !(incoming.remaining <= 0.0 || opposite == [] || !Crosses(incoming, opposite[0])) {
      var quantity := RMin(incoming.remaining, opposite[0].remaining);
      if opposite[0].remaining == quantity {
        var next := Reduced(incoming, quantity);
        var rest := MatchAgainst(next, opposite[1..]);
        MatchIsGreedy(next, opposite[1..]);
        GreedyCons(incoming, opposite, quantity, rest);
      }
    }
  }

  lemma ConsFills(incoming: Ord, opposite: seq<Ord>, quantity: real, trades: seq<Trade>)
    requires opposite != [] && quantity == opposite[0].remaining && 0.0 < quantity <= incoming.remaining
    requires Crosses(incoming, opposite[0]) && FillsPrefix(Reduced(incoming, quantity), opposite[1..], trades)
    ensures FillsPrefix(incoming, opposite, [Fill(incoming, opposite[0], quantity)] + trades)
  {
    var all := [Fill(incoming, opposite[0], quantity)] + trades;
    forall i | 0 <= i < |all|
      ensures FillsOne(incoming, opposite[i], all[i]) && (i < |all| - 1 ==> all[i].quantity == opposite[i].remaining)
    {
      if i > 0 {
        assert FillsOne(Reduced(incoming, quantity), opposite[1..][i - 1], trades[i - 1]);
      }
    }
  }

  /** A full fill of the front followed by a greedy run over the rest is a greedy run. */
  lemma GreedyCons(incoming: Ord, opposite: seq<Ord>, quantity: real, rest: Matched)
    requires opposite != [] && quantity == opposite[0].remaining && 0.0 < quantity <= incoming.remaining
    requires Crosses(incoming, opposite[0])
    requires Greedy(Reduced(incoming, quantity), opposite[1..], rest)
    ensures Greedy(incoming, opposite, Prepend([Fill(incoming, opposite[0], quantity)], rest))
  {
    var trades := [Fill(incoming, opposite[0], quantity)] + rest.trades;
    assert trades[1..] == rest.trades;
    var n := |trades|;
    ConsFills(incoming, opposite, quantity, rest.trades);
    assert opposite[n..] == opposite[1..][n - 1..];
    ConsStops(incoming, opposite, quantity, rest, Prepend([Fill(incoming, opposite[0], quantity)], rest));
  }

  lemma ConsStops(incoming: Ord, opposite: seq<Ord>, quantity: real, rest: Matched, all: Matched)
    requires opposite != [] && quantity == opposite[0].remaining && 0.0 < quantity <= incoming.remaining
    requires all == Prepend([Fill(incoming, opposite[0], quantity)], rest)
    requires |rest.trades| < |opposite| && opposite[|all.trades|..] == opposite[1..][|rest.trades|..]
    requires RightlyStopped(Reduced(incoming, quantity), opposite[1..], rest)
    ensures RightlyStopped(incoming, opposite, all)
  {
    var n := |all.trades|;
    if n > 1 {
      assert all.trades[n - 1] == rest.trades[n - 2] && opposite[n - 1] == opposite[1..][n - 2];
    }
  }

  /** The specification leaves no choice: two greedy outcomes coincide. */
  lemma {:induction false} GreedyUnique(incoming: Ord, opposite: seq<Ord>, a: Matched, b: Matched)
    requires AllPositive(opposite)
    requires Greedy(incoming, opposite, a) && Greedy(incoming, opposite, b)
    ensures a == b
    decreases |opposite|
  {
    if a.trades == [] || b.trades == [] {
      NoTradeMeansNone(incoming, opposite, a, b);
      NoTradeMeansNone(incoming, opposite, b, a);
    } else {
      FirstQuantity(incoming, opposite, a);
      FirstQuantity(incoming, opposite, b);
      var quantity := RMin(incoming.remaining, opposite[0].remaining);
      if quantity == opposite[0].remaining {
        GreedyTail(incoming, opposite, a);
        GreedyTail(incoming, opposite, b);
        GreedyUnique(Reduced(incoming, quantity), opposite[1..], a.(trades := a.trades[1..]),
                     b.(trades := b.trades[1..]));
        assert a.trades == [a.trades[0]] + a.trades[1..];
        assert b.trades == [b.trades[0]] + b.trades[1..];
      } else {
        PartialIsLast(incoming, opposite, a);
        PartialIsLast(incoming, opposite, b);
      }
    }
  }

  lemma NoTradeMeansNone(incoming: Ord, opposite: seq<Ord>, a: Matched, b: Matched)
    requires Greedy(incoming, opposite, a) && Greedy(incoming, opposite, b) && a.trades == []
    ensures b.trades == [] && a == b
  {
  }

  lemma TotalAtLeast(trades: seq<Trade>)
    requires forall i :: 0 <= i < |trades| ==> trades[i].quantity > 0.0
    ensures TotalQuantity(trades) >= 0.0
    ensures trades != [] ==> TotalQuantity(trades) >= trades[0].quantity
    ensures |trades| > 1 ==> TotalQuantity(trades) > trades[0].quantity
  {
    if trades != [] {
      TotalAtLeast(trades[1..]);
    }
  }

  lemma FirstQuantity(incoming: Ord, opposite: seq<Ord>, m: Matched)
    requires Greedy(incoming, opposite, m) && m.trades != []
    ensures m.trades[0].quantity == RMin(incoming.remaining, opposite[0].remaining)
  {
    TotalAtLeast(m.trades);
    assert m.incoming.remaining == incoming.remaining - TotalQuantity(m.trades);
    if |m.trades| == 1 {
      assert m.trades[1..] == [];
    }
  }

  lemma PartialIsLast(incoming: Ord, opposite: seq<Ord>, m: Matched)
    requires Greedy(incoming, opposite, m) && m.trades != []
    requires m.trades[0].quantity < opposite[0].remaining
    ensures |m.trades| == 1
  {
  }

  lemma GreedyTail(incoming: Ord, opposite: seq<Ord>, m: Matched)
    requires Greedy(incoming, opposite, m) && m.trades != []
    requires m.trades[0].quantity == opposite[0].remaining
    ensures Greedy(Reduced(incoming, opposite[0].remaining), opposite[1..], m.(trades := m.trades[1..]))
  {
    var tail := m.trades[1..];
    var n := |m.trades|;
    forall i | 0 <= i < n - 1
      ensures FillsOne(Reduced(incoming, opposite[0].remaining), opposite[1..][i], tail[i])
      ensures i < n - 2 ==> tail[i].quantity == opposite[1..][i].remaining
    {
      assert FillsOne(incoming, opposite[i + 1], m.trades[i + 1]);
    }
    assert opposite[1..][n - 1..] == opposite[n..];
    TotalAtLeast(m.trades);
  }

  /** Every trade is between an order on each side of the book and respects both limits: the
      price is the seller's limit when there is one, else the buyer's. */
  predicate PricedFairly(incoming: Ord, best: Ord, t: Trade) {
    var buy, sell := if incoming.side == Buy then incoming else best, if incoming.side == Buy then best else incoming;
    && t.buyId == buy.id && t.sellId == sell.id && t.buyer == buy.user && t.seller == sell.user
    && t.price == (if IsMarket(sell) then buy.price else sell.price)
    && (!IsMarket(sell) ==> sell.price <= t.price)
    && (!IsMarket(buy) ==> t.price <= buy.price)
    && t.price != 0.0
  }

  lemma MatchPricesFairly(incoming: Ord, opposite: seq<Ord>)
    requires AllPositive(opposite)
    requires forall o :: o in opposite ==> !IsMarket(o)
    ensures var m := MatchAgainst(incoming, opposite);
            && |m.trades| <= |opposite|
            && forall i :: 0 <= i < |m.trades| ==> PricedFairly(incoming, opposite[i], m.trades[i])
  {
    MatchIsGreedy(incoming, opposite);
    var m := MatchAgainst(incoming, opposite);
    forall i | 0 <= i < |m.trades|
      ensures PricedFairly(incoming, opposite[i], m.trades[i])
    {
      assert opposite[i] in opposite;
      assert FillsOne(incoming, opposite[i], m.trades[i]);
    }
  }

  // ----- how much is filled ----------------------------------------------------------------

  /** What rests on `os` within a limit: all of it for a limit of zero, which is no limit. */
  function WithinLimit(side: Side, limit: real, os: seq<Ord>): real {
    if os == [] then 0.0
    else
      (if limit == 0.0 || (side == Buy && os[0].price <= limit) || (side == Sell && os[0].price >= limit)
       then os[0].remaining else 0.0)
      + WithinLimit(side, limit, os[1..])
  }

  /** Behind a best order beyond the limit there is nothing within it. */
  lemma {:induction false} NothingBehind(side: Side, limit: real, os: seq<Ord>)
    requires Sorted(OtherSide(side), os) && limit != 0.0
    requires os != [] ==> if side == Buy then os[0].price > limit else os[0].price < limit
    ensures WithinLimit(side, limit, os) == 0.0
    decreases |os|
  {
    if os != [] {
      var tail := os[1..];
      assert forall i :: 0 <= i < |tail| ==> tail[i] == os[i + 1];
      assert tail != [] ==> Before(OtherSide(side), os[0], os[1]);
      NothingBehind(side, limit, tail);
    }
  }

  lemma {:induction false} WithinLimitNonNegative(side: Side, limit: real, os: seq<Ord>)
    requires AllPositive(os)
    ensures WithinLimit(side, limit, os) >= 0.0
    decreases |os|
  {
    if os != [] {
      assert os[0] in os && forall o :: o in os[1..] ==> o in os;
      WithinLimitNonNegative(side, limit, os[1..]);
    }
  }

  /** An order takes the smaller of its quantity and of what rests within its limit; a market order
      takes whatever rests. */
  lemma {:induction false} FillsWhatCrosses(incoming: Ord, opposite: seq<Ord>)
    requires SideOk(OtherSide(incoming.side), opposite) && incoming.remaining >= 0.0
    ensures var within := WithinLimit(incoming.side, incoming.price, opposite);
            TotalQuantity(MatchAgainst(incoming, opposite).trades) ==
            if incoming.remaining <= within then incoming.remaining else within
    decreases |opposite|
  {
    assert AllPositive(opposite);
    WithinLimitNonNegative(incoming.side, incoming.price, opposite);
    if opposite != [] {
      assert opposite[0] in opposite;
      if incoming.remaining > 0.0 && Crosses(incoming, opposite[0]) {
        FillsFront(incoming, opposite);
      } else if incoming.remaining > 0.0 {
        NothingBehind(incoming.side, incoming.price, opposite);
      }
    }
  }

  lemma {:induction false} FillsFront(incoming: Ord, opposite: seq<Ord>)
    requires SideOk(OtherSide(incoming.side), opposite) && incoming.remaining > 0.0
    requires opposite != [] && Crosses(incoming, opposite[0])
    ensures var within := WithinLimit(incoming.side, incoming.price, opposite);
            TotalQuantity(MatchAgainst(incoming, opposite).trades) ==
            if incoming.remaining <= within then incoming.remaining else within
    decreases |opposite|, 0
  {
    var best, tail := opposite[0], opposite[1..];
    assert best in opposite && forall o :: o in tail ==> o in opposite;
    assert forall i :: 0 <= i < |tail| ==> tail[i] == opposite[i + 1];
    WithinLimitNonNegative(incoming.side, incoming.price, tail);
    var trades := MatchAgainst(incoming, opposite).trades;
    if best.remaining <= incoming.remaining {
      FillsWhatCrosses(Reduced(incoming, best.remaining), tail);
      assert trades[1..] == MatchAgainst(Reduced(incoming, best.remaining), tail).trades;
    } else {
      assert trades[1..] == [];
    }
  }

  /** What is left of an order stops at a price strictly beyond its limit, so a market order leaves
      nothing on the other side. */
  lemma StopsBeyondLimit(incoming: Ord, opposite: seq<Ord>)
    requires AllPositive(opposite)
    ensures var m := MatchAgainst(incoming, opposite);
            m.incoming.remaining > 0.0 && m.opposite != [] ==>
              && incoming.price != 0.0
              && if incoming.side == Buy then incoming.price < m.opposite[0].price
                 else incoming.price > m.opposite[0].price
  {
    MatchIsGreedy(incoming, opposite);
  }

  // ----- trades at the buyers' limits ------------------------------------------------------

  /** What the buyer of a fill against `best` was ready to pay. */
  function BuyerLimit(incoming: Ord, best: Ord): real { if incoming.side == Buy then incoming.price else best.price }

  /** Nothing crosses, or the incoming order has no limit, or the best price is its limit. */
  predicate MeetsBest(incoming: Ord, opposite: seq<Ord>) {
    opposite == [] || !Crosses(incoming, opposite[0]) || IsMarket(incoming) || opposite[0].price == incoming.price
  }

  /** Whether any buyer pays less than his limit shows in the best price before the match. */
  lemma BestDecides(incoming: Ord, opposite: seq<Ord>)
    requires SideOk(OtherSide(incoming.side), opposite) && incoming.remaining > 0.0
    requires incoming.side == Buy ==> !IsMarket(incoming)
    ensures var trades := MatchAgainst(incoming, opposite).trades;
            && |trades| <= |opposite|
            && ((forall i :: 0 <= i < |trades| ==> trades[i].price == BuyerLimit(incoming, opposite[i])) <==>
                MeetsBest(incoming, opposite))
  {
    MatchIsGreedy(incoming, opposite);
    MatchPricesFairly(incoming, opposite);
    var trades := MatchAgainst(incoming, opposite).trades;
    forall i | 0 <= i < |trades|
      ensures MeetsBest(incoming, opposite) ==> trades[i].price == BuyerLimit(incoming, opposite[i])
    {
      BetweenBestAndLimit(incoming, opposite, i, trades[i]);
    }
    if !MeetsBest(incoming, opposite) {
      assert trades != [];
      BetweenBestAndLimit(incoming, opposite, 0, trades[0]);
    }
  }

  /** A fill further back is at no better price than the best, and within the incoming limit. */
  lemma BetweenBestAndLimit(incoming: Ord, opposite: seq<Ord>, i: nat, t: Trade)
    requires SideOk(OtherSide(incoming.side), opposite) && (incoming.side == Buy ==> !IsMarket(incoming))
    requires i < |opposite| && FillsOne(incoming, opposite[i], t) && PricedFairly(incoming, opposite[i], t)
    ensures Crosses(incoming, opposite[0])
    ensures MeetsBest(incoming, opposite) ==> t.price == BuyerLimit(incoming, opposite[i])
    ensures i == 0 && !MeetsBest(incoming, opposite) ==> t.price < BuyerLimit(incoming, opposite[i])
  {
    assert opposite[0] in opposite && opposite[i] in opposite;
    assert i > 0 ==> Before(OtherSide(incoming.side), opposite[0], opposite[i]);
  }

  // ----- every book ------------------------------------------------------------------------

  function OtherSide(side: Side): Side { if side == Buy then Sell else Buy }

  /** What matching leaves of the opposite side. */
  lemma {:induction false} OppositeKept(incoming: Ord, opposite: seq<Ord>)
    requires SideOk(OtherSide(incoming.side), opposite)
    ensures var m := MatchAgainst(incoming, opposite);
            && SideOk(OtherSide(incoming.side), m.opposite)
            && (m.opposite != [] ==> opposite != [] && Before(OtherSide(incoming.side), opposite[0], m.opposite[0]))
            && (WithinQuantity(opposite) ==> WithinQuantity(m.opposite))
    decreases |opposite|
  {
    if !(incoming.remaining <= 0.0 || opposite == [] || !Crosses(incoming, opposite[0])) {
      var quantity := RMin(incoming.remaining, opposite[0].remaining);
      var tail := opposite[1..];
      assert opposite[0] in opposite;
      assert forall o :: o in tail ==> o in opposite;
      if opposite[0].remaining == quantity {
        OppositeKept(Reduced(incoming, quantity), tail);
        assert tail != [] ==> tail[0] == opposite[1];
      } else {
        assert forall i :: 1 <= i < |opposite| ==> tail[i - 1] == opposite[i];
      }
    }
  }

  lemma SortKeeps(side: Side, os: seq<Ord>, o: Ord, after: seq<Ord>)
    requires forall p :: p in os ==> p.side == side && p.remaining > 0.0 && p.price != 0.0
    requires o.side == side && o.remaining > 0.0 && o.price != 0.0
    requires SortedFrom(side, os + [o], after)
    ensures SideOk(side, after)
    ensures forall p :: p in after <==> p in os || p == o
    ensures |after| == |os| + 1
  {
    forall p
      ensures p in after <==> p in os || p == o
    {
      assert p in after <==> p in multiset(after);
      assert p in os + [o] <==> p in multiset(os + [o]);
    }
    assert |multiset(after)| == |multiset(os + [o])|;
  }

  /** Sorted, positive, and uncrossed before a call to `Match` means so after it. */
  lemma MatchKeepsBook(before: BookVal, incoming: Ord, trades: seq<Trade>, left: Ord, resting: bool, after: BookVal)
    requires WellFormed(before)
    requires MatchStep(before, incoming, trades, left, resting, after)
    ensures WellFormed(after)
  {
    var entered := Entering(incoming);
    var opposite := Opposite(before, incoming.side);
    OppositeKept(entered, opposite);
    MatchIsGreedy(entered, opposite);
    if resting {
      SortKeeps(incoming.side, Same(before, incoming.side), left, Same(after, incoming.side));
      RestingStaysUncrossed(before, left, after);
    }
  }

  /** The order that comes to rest crosses nothing, and the others did not before. */
  lemma RestingStaysUncrossed(before: BookVal, left: Ord, after: BookVal)
    requires WellFormed(before) && !IsMarket(left)
    requires var mine, other := Same(after, left.side), Opposite(after, left.side);
             && (forall p :: p in mine ==> p in Same(before, left.side) || p == left)
             && (other != [] ==> Opposite(before, left.side) != []
                                 && Before(OtherSide(left.side), Opposite(before, left.side)[0], other[0])
                                 && !Crosses(left, other[0]))
    ensures Uncrossed(after)
  {
    var mine, other := Same(after, left.side), Opposite(after, left.side);
    if mine != [] && other != [] {
      assert mine[0] in mine;
      var was := Same(before, left.side);
      if mine[0] in was {
        var i :| 0 <= i < |was| && was[i] == mine[0];
        assert i > 0 ==> Before(left.side, was[0], was[i]);
      }
    }
  }

  /** The outcome of a call in bare quantities and prices. `quantity` is what the order came in with:
      its remaining quantity, or all of it when nothing was recorded as remaining. */
  predicate RightlyFilled(
    before: BookVal, incoming: Ord, trades: seq<Trade>, left: Ord, resting: bool, after: BookVal)
  {
    var quantity := if incoming.remaining == 0.0 then incoming.quantity else incoming.remaining;
    var within := WithinLimit(incoming.side, incoming.price, if incoming.side == Buy then before.asks else before.bids);
    var ahead := if incoming.side == Buy then after.asks else after.bids;
    && TotalQuantity(trades) == (if quantity <= within then quantity else within)
    && left.remaining == quantity - TotalQuantity(trades)
    && (left.remaining > 0.0 && ahead != [] ==>
          && incoming.price != 0.0
          && if incoming.side == Buy then incoming.price < ahead[0].price else incoming.price > ahead[0].price)
    && (resting <==> left.remaining > 0.0 && incoming.price != 0.0)
  }

  /** A call trades the smaller of its order's quantity and of what rests within its limit, stops at
      prices strictly beyond the limit, and leaves the rest of a limit order on the book. */
  lemma MatchFillsRightly(
    before: BookVal, incoming: Ord, trades: seq<Trade>, left: Ord, resting: bool, after: BookVal)
    requires WellFormed(before) && incoming.quantity >= 0.0 && incoming.remaining >= 0.0
    requires MatchStep(before, incoming, trades, left, resting, after)
    ensures RightlyFilled(before, incoming, trades, left, resting, after)
  {
    var opposite := Opposite(before, incoming.side);
    FillsWhatCrosses(Entering(incoming), opposite);
    StopsBeyondLimit(Entering(incoming), opposite);
    MatchIsGreedy(Entering(incoming), opposite);
  }

  lemma MatchKeepsQuantities(
    before: BookVal, incoming: Ord, trades: seq<Trade>, left: Ord, resting: bool, after: BookVal)
    requires WellFormed(before) && WithinQuantity(before.bids) && WithinQuantity(before.asks)
    requires Entering(incoming).remaining <= incoming.quantity
    requires MatchStep(before, incoming, trades, left, resting, after)
    ensures WithinQuantity(after.bids) && WithinQuantity(after.asks)
  {
    var entered := Entering(incoming);
    OppositeKept(entered, Opposite(before, incoming.side));
    MatchIsGreedy(entered, Opposite(before, incoming.side));
    TotalAtLeast(trades);
    if resting {
      SortKeeps(incoming.side, Same(before, incoming.side), left, Same(after, incoming.side));
    }
  }

  lemma CancelKeepsBook(before: BookVal, id: string)
    requires WellFormed(before)
    ensures WellFormed(AfterCancel(before, id))
    ensures WithinQuantity(before.bids) && WithinQuantity(before.asks) ==>
              WithinQuantity(AfterCancel(before, id).bids) && WithinQuantity(AfterCancel(before, id).asks)
  {
    var i, j := IndexOf(before.bids, id), IndexOf(before.asks, id);
    if i < |before.bids| {
      HeadAfterRemoval(Buy, before.bids, i);
    } else if j < |before.asks| {
      HeadAfterRemoval(Sell, before.asks, j);
    }
  }

  /** Removing one order never improves the best price. */
  lemma HeadAfterRemoval(side: Side, os: seq<Ord>, k: nat)
    requires SideOk(side, os) && k < |os|
    ensures SideOk(side, Without(os, k))
    ensures Without(os, k) != [] ==> Before(side, os[0], Without(os, k)[0])
    ensures forall o :: o in Without(os, k) ==> o in os
  {
    var r := Without(os, k);
    forall i | 0 <= i < |r|
      ensures r[i] == os[if i < k then i else i + 1]
    {
    }
  }

  // ----- priority and cancelling -----------------------------------------------------------

  /** Better prices come first on both sides, and earlier orders first at one price. */
  lemma PriceTimePriority(b: BookVal, i: nat, j: nat)
    requires WellFormed(b) && i < j
    ensures j < |b.bids| ==> b.bids[i].price > b.bids[j].price
                             || (b.bids[i].price == b.bids[j].price && b.bids[i].createdAt <= b.bids[j].createdAt)
    ensures j < |b.asks| ==> b.asks[i].price < b.asks[j].price
                             || (b.asks[i].price == b.asks[j].price && b.asks[i].createdAt <= b.asks[j].createdAt)
  {
    assert j < |b.bids| ==> Before(Buy, b.bids[i], b.bids[j]);
    assert j < |b.asks| ==> Before(Sell, b.asks[i], b.asks[j]);
  }

  predicate FirstWith(os: seq<Ord>, id: string, k: nat) {
    k < |os| && os[k].id == id && forall i :: 0 <= i < k ==> os[i].id != id
  }

  predicate NoneWith(os: seq<Ord>, id: string) {
    forall i :: 0 <= i < |os| ==> os[i].id != id
  }

  /** A cancel takes out the first order with the id, looking at the bids before the asks, and
      nothing else. */
  lemma CancelTakesFirst(b: BookVal, id: string, k: nat)
    ensures FirstWith(b.bids, id, k) ==>
              AfterCancel(b, id) == BookVal(b.bids[..k] + b.bids[k + 1..], b.asks) && Holds(b, id)
    ensures NoneWith(b.bids, id) && FirstWith(b.asks, id, k) ==>
              AfterCancel(b, id) == BookVal(b.bids, b.asks[..k] + b.asks[k + 1..]) && Holds(b, id)
    ensures NoneWith(b.bids, id) && NoneWith(b.asks, id) ==> AfterCancel(b, id) == b && !Holds(b, id)
  {
    var i, j := IndexOf(b.bids, id), IndexOf(b.asks, id);
    assert FirstWith(b.bids, id, k) ==> i == k;
    assert FirstWith(b.asks, id, k) ==> j == k;
  }

  // ----- every sequence of calls -----------------------------------------------------------

  datatype BookEvent =
    | MatchEvent(incoming: Ord, trades: seq<Trade>, left: Ord, resting: bool, after: BookVal)
    | CancelEvent(id: string)

  /** Calls that may take the book from `start` to `end`, whatever sorting does with ties. An
      incoming order's remaining quantity is at most its quantity. */
  predicate BookRun(start: BookVal, events: seq<BookEvent>, end: BookVal)
    decreases |events|
  {
    if events == [] then end == start
    else
      match events[0]
      case MatchEvent(incoming, trades, left, resting, after) =>
        && Entering(incoming).remaining <= incoming.quantity
        && MatchStep(start, incoming, trades, left, resting, after)
        && BookRun(after, events[1..], end)
      case CancelEvent(id) => BookRun(AfterCancel(start, id), events[1..], end)
  }

  /** After any sequence of `Match` and `Cancel` calls from an empty book both sides are in
      price-time order, no order is empty or above its quantity, and the book is uncrossed. */
  lemma {:induction false} BookRunKeeps(start: BookVal, events: seq<BookEvent>, end: BookVal)
    requires WellFormed(start) && WithinQuantity(start.bids) && WithinQuantity(start.asks)
    requires BookRun(start, events, end)
    ensures WellFormed(end) && WithinQuantity(end.bids) && WithinQuantity(end.asks)
    decreases |events|
  {
    if events != [] {
      match events[0]
      case MatchEvent(incoming, trades, left, resting, after) =>
        MatchKeepsBook(start, incoming, trades, left, resting, after);
        MatchKeepsQuantities(start, incoming, trades, left, resting, after);
        BookRunKeeps(after, events[1..], end);
      case CancelEvent(id) =>
        CancelKeepsBook(start, id);
        BookRunKeeps(AfterCancel(start, id), events[1..], end);
    }
  }
}
