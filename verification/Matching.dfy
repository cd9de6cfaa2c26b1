/** The in-memory book: shared order objects whose remaining quantity is changed in place. */
module Matching {
  import opened OrderBook
  import opened Depth
  import opened Sequences
  import OrderBookProof

  class Order {
    const id: string
    const user: string
    const side: Side
    const price: real
    const quantity: real
    const createdAt: int
    var remaining: real

    constructor (id: string, user: string, side: Side, price: real, quantity: real, createdAt: int)
      ensures Val() == Ord(id, user, side, price, quantity, quantity, createdAt)
    {
      this.id, this.user, this.side, this.price := id, user, side, price;
      this.quantity, this.createdAt, remaining := quantity, createdAt, quantity;
    }

    /** An order as it stood when its book was last written down. */
    constructor Restored(v: Ord)
      ensures Val() == v
    {
      id, user, side, price := v.id, v.user, v.side, v.price;
      quantity, createdAt, remaining := v.quantity, v.createdAt, v.remaining;
    }

    function Val(): Ord
      reads this
    {
      Ord(id, user, side, price, quantity, remaining, createdAt)
    }
  }

  function Vals(os: seq<Order>): (vs: seq<Ord>)
    reads os
    ensures |vs| == |os|
    ensures forall i :: 0 <= i < |os| ==> vs[i] == os[i].Val()
  {
    seq(|os|, i requires 0 <= i < |os| reads os => os[i].Val())
  }

  ghost predicate Different(os: seq<Order>) {
    forall i, j :: 0 <= i < j < |os| ==> os[i] != os[j]
  }

  lemma BeforeTransitive(side: Side, a: Ord, b: Ord, c: Ord)
    requires Before(side, a, b) && Before(side, b, c)
    ensures Before(side, a, c)
  {
  }

  lemma BeforeTotal(side: Side, a: Ord, b: Ord)
    ensures Before(side, a, b) || Before(side, b, a)
  {
  }

  /** Putting `v` between what goes before it and what it goes before keeps the order. */
  lemma InsertSorted(side: Side, vs: seq<Ord>, k: nat, v: Ord)
    requires k <= |vs| && Sorted(side, vs)
    requires k > 0 ==> Before(side, vs[k - 1], v)
    requires k < |vs| ==> Before(side, v, vs[k])
    ensures Sorted(side, InsertAt(vs, k, v))
  {
    forall i | 0 <= i < |vs|
      ensures i < k ==> Before(side, vs[i], v)
      ensures i >= k ==> Before(side, v, vs[i])
    {
      if i < k - 1 {
        BeforeTransitive(side, vs[i], vs[k - 1], v);
      } else if i > k {
        BeforeTransitive(side, v, vs[k], vs[i]);
      }
    }
  }

  /** Put `o` behind every order that goes before it. */
  method Insert(os: seq<Order>, o: Order, side: Side) returns (r: seq<Order>)
    requires Sorted(side, Vals(os))
    ensures multiset(r) == multiset(os) + multiset{o}
    ensures multiset(Vals(r)) == multiset(Vals(os)) + multiset{o.Val()}
    ensures Sorted(side, Vals(r))
  {
    var k := |os|;
    while k > 0 && !Before(side, os[k - 1].Val(), o.Val())
      invariant 0 <= k <= |os|
      invariant k < |os| ==> Before(side, o.Val(), os[k].Val())
    {
      BeforeTotal(side, os[k - 1].Val(), o.Val());
      k := k - 1;
    }
    r := InsertAt(os, k, o);
    InsertSorted(side, Vals(os), k, o.Val());
    ValsInsert(os, k, o);
    InsertSameElements(os, k, o);
    InsertSameElements(Vals(os), k, o.Val());
  }

  lemma ValsInsert(os: seq<Order>, k: nat, o: Order)
    requires k <= |os|
    ensures Vals(InsertAt(os, k, o)) == InsertAt(Vals(os), k, o.Val())
  {
  }

  /** Any sort by the comparator will do; callers learn only that the result is a sorted
      rearrangement, so orders that tie may come out either way. */
  method SortOrders(os: seq<Order>, side: Side) returns (r: seq<Order>)
    ensures multiset(r) == multiset(os)
    ensures SortedFrom(side, Vals(os), Vals(r))
  {
    r := [];
    for i := 0 to |os|
      invariant multiset(r) == multiset(os[..i])
      invariant multiset(Vals(r)) == multiset(Vals(os)[..i])
      invariant Sorted(side, Vals(r))
    {
      TakeOneMore(os, i);
      TakeOneMore(Vals(os), i);
      r := Insert(r, os[i], side);
    }
    assert os[..|os|] == os && Vals(os)[..|os|] == Vals(os);
  }

  lemma TakeOneMore<T>(s: seq<T>, i: nat)
    requires i < |s|
    ensures multiset(s[..i + 1]) == multiset(s[..i]) + multiset{s[i]}
  {
    assert s[..i + 1] == s[..i] + [s[i]];
  }

  class Book {
    var bids: seq<Order>
    var asks: seq<Order>
    var history: seq<Trade>

    function View(): BookVal
      reads this`bids, this`asks, bids, asks
    {
      BookVal(Vals(bids), Vals(asks))
    }

    /** No order object is listed twice. */
    ghost predicate ListedOnce()
      reads this`bids, this`asks
    {
      Different(bids) && Different(asks) && forall o :: o in asks ==> o !in bids
    }

    ghost predicate Valid()
      reads this, bids, asks
    {
      ListedOnce() && WellFormed(View()) && |history| <= 500
    }

    constructor ()
      ensures Valid() && bids == [] && asks == [] && history == []
    {
      bids, asks, history := [], [], [];
    }

    /** The book that `v` describes, with an order object of its own for every entry. */
    constructor Restored(v: BookVal)
      requires WellFormed(v)
      ensures Valid() && View() == v && fresh(bids) && fresh(asks)
    {
      var mine := RestoreOrders(v.bids);
      var theirs := RestoreOrders(v.asks);
      bids, asks, history := mine, theirs, [];
      new;
      assert Vals(bids) == v.bids && Vals(asks) == v.asks;
    }

    /** Reslice one side; neither side's orders change. */
    method SetBids(side: seq<Order>)
      modifies this`bids
      ensures bids == side && Vals(bids) == old(Vals(side)) && Vals(asks) == old(Vals(asks))
    {
      bids := side;
    }

    method SetAsks(side: seq<Order>)
      modifies this`asks
      ensures asks == side && Vals(asks) == old(Vals(side)) && Vals(bids) == old(Vals(bids))
    {
      asks := side;
    }

    /** Fill `buy` from the front of the asks. The order handed back is `buy` itself, or none
        when it was filled. */
    method MatchBuy(buy: Order) returns (trades: seq<Trade>, rest: Order?)
      requires Valid() && buy !in bids && buy !in asks && buy.side == Buy
      modifies this`asks, asks, buy
      ensures var m := MatchAgainst(old(buy.Val()), old(Vals(asks)));
              trades == m.trades && buy.Val() == m.incoming && Vals(asks) == m.opposite
      ensures rest == if buy.remaining == 0.0 then null else buy
      ensures Different(asks) && forall o :: o in asks ==> o in old(asks)
      ensures Vals(bids) == old(Vals(bids))
    {
      var left;
      trades, left := FillQueue(buy, asks);
      SetAsks(left);
      rest := if buy.remaining == 0.0 then null else buy;
    }

    /** Fill `sell` from the front of the bids. */
    method MatchSell(sell: Order) returns (trades: seq<Trade>, rest: Order?)
      requires Valid() && sell !in bids && sell !in asks && sell.side == Sell
      modifies this`bids, bids, sell
      ensures var m := MatchAgainst(old(sell.Val()), old(Vals(bids)));
              trades == m.trades && sell.Val() == m.incoming && Vals(bids) == m.opposite
      ensures rest == if sell.remaining == 0.0 then null else sell
      ensures Different(bids) && forall o :: o in bids ==> o in old(bids)
      ensures Vals(asks) == old(Vals(asks))
    {
      var left;
      trades, left := FillQueue(sell, bids);
      SetBids(left);
      rest := if sell.remaining == 0.0 then null else sell;
    }

    /** Add `o` to its side and sort that side. */
    method InsertResting(o: Order)
      requires ListedOnce() && o !in bids && o !in asks
      modifies this`bids, this`asks
      ensures ListedOnce()
      ensures forall p :: p in bids || p in asks ==> p in old(bids) || p in old(asks) || p == o
      ensures SortedFrom(o.side, Same(old(View()), o.side) + [o.Val()], Same(View(), o.side))
      ensures Opposite(View(), o.side) == Opposite(old(View()), o.side)
    {
      if o.side == Buy {
        var sorted := AppendAndSort(bids, o, Buy);
        SetBids(sorted);
      } else {
        var sorted := AppendAndSort(asks, o, Sell);
        SetAsks(sorted);
      }
    }

    method Record(trades: seq<Trade>)
      requires |history| <= 500
      modifies this`history
      ensures history == Recent(old(history) + trades) && |history| <= 500
    {
      if |trades| > 0 {
        history := history + trades;
        if |history| > 500 {
          history := history[|history| - 500..];
        }
      } else {
        assert history + trades == history;
      }
    }

    /** Match against the other side; nothing rests yet. */
    method MatchOpposite(incoming: Order) returns (trades: seq<Trade>, rest: Order?)
      requires Valid() && incoming !in bids && incoming !in asks
      modifies this`bids, this`asks, bids, asks, incoming
      ensures var m := MatchAgainst(old(incoming.Val()), Opposite(old(View()), incoming.side));
              && trades == m.trades && incoming.Val() == m.incoming
              && Opposite(View(), incoming.side) == m.opposite
              && Same(View(), incoming.side) == Same(old(View()), incoming.side)
      ensures rest == if incoming.remaining == 0.0 then null else incoming
      ensures Different(bids) && Different(asks)
      ensures forall o :: o in bids ==> o in old(bids)
      ensures forall o :: o in asks ==> o in old(asks)
    {
      if incoming.side == Buy {
        trades, rest := MatchBuy(incoming);
      } else {
        trades, rest := MatchSell(incoming);
      }
    }

    /** Match an order and rest what is left of it, unless it was a market order. */
    method Match(incoming: Order) returns (trades: seq<Trade>, resting: Order?)
      requires Valid() && incoming !in bids && incoming !in asks
      modifies this, bids, asks, incoming
      ensures Valid()
      ensures MatchStep(old(View()), old(incoming.Val()), trades, incoming.Val(), resting != null, View())
      ensures resting == null || resting == incoming
      ensures history == Recent(old(history) + trades)
      ensures incoming.quantity >= 0.0 && old(incoming.remaining) >= 0.0 ==>
                OrderBookProof.RightlyFilled(old(View()), old(incoming.Val()), trades, incoming.Val(), resting != null,
                                             View())
      ensures forall o :: o in bids || o in asks ==> o in old(bids) || o in old(asks) || o == incoming
    {
      ghost var before, entering := View(), incoming.Val();
      trades, resting := MatchAndRest(incoming);
      Record(trades);
      if entering.quantity >= 0.0 && entering.remaining >= 0.0 {
        OrderBookProof.MatchFillsRightly(before, entering, trades, incoming.Val(), resting != null, View());
      }
    }

    method MatchAndRest(incoming: Order) returns (trades: seq<Trade>, resting: Order?)
      requires Valid() && incoming !in bids && incoming !in asks
      modifies this`bids, this`asks, bids, asks, incoming
      ensures ListedOnce() && WellFormed(View())
      ensures MatchStep(old(View()), old(incoming.Val()), trades, incoming.Val(), resting != null, View())
      ensures resting == null || resting == incoming
      ensures forall o :: o in bids || o in asks ==> o in old(bids) || o in old(asks) || o == incoming
    {
      ghost var before, entering := View(), incoming.Val();
      if incoming.remaining == 0.0 {
        incoming.remaining := incoming.quantity;
      }
      assert View() == before && incoming.Val() == Entering(entering);
      var rest;
      trades, rest := MatchOpposite(incoming);
      ghost var between := View();
      resting := null;
      if rest != null && rest.remaining > 0.0 && rest.price != 0.0 {
        InsertResting(rest);
        resting := rest;
      }
      StepFromParts(before, entering, trades, incoming.Val(), between, resting != null, View());
      OrderBookProof.MatchKeepsBook(before, entering, trades, incoming.Val(), resting != null, View());
    }

    /** The best `levels` price levels of each side. */
    method Depth(levels: nat) returns (bidLevels: seq<PriceLevel>, askLevels: seq<PriceLevel>)
      ensures DepthOf(View().bids, levels, Buy, bidLevels) && DepthOf(View().asks, levels, Sell, askLevels)
    {
      bidLevels := AggregateSide(Vals(bids), levels, Buy);
      askLevels := AggregateSide(Vals(asks), levels, Sell);
    }

    /** Remove the first resting order with that id, bids searched first. */
    method Cancel(id: string) returns (removed: Order?)
      requires Valid()
      modifies this`bids, this`asks
      ensures Valid()
      ensures View() == AfterCancel(old(View()), id)
      ensures forall o :: o in bids || o in asks ==> o in old(bids) || o in old(asks)
      ensures removed != null <==> Holds(old(View()), id)
      ensures removed != null ==> removed.id == id && (removed in old(bids) || removed in old(asks))
    {
      OrderBookProof.CancelKeepsBook(View(), id);
      removed := Remove(id);
    }

    method Remove(id: string) returns (removed: Order?)
      requires ListedOnce()
      modifies this`bids, this`asks
      ensures ListedOnce()
      ensures View() == AfterCancel(old(View()), id)
      ensures forall o :: o in bids || o in asks ==> o in old(bids) || o in old(asks)
      ensures removed != null <==> Holds(old(View()), id)
      ensures removed != null ==> removed.id == id && (removed in old(bids) || removed in old(asks))
    {
      var left;
      removed, left := RemoveById(bids, id);
      if removed != null {
        SetBids(left);
        return;
      }
      removed, left := RemoveById(asks, id);
      SetAsks(left);
    }
  }

  /** Matching against one side, then perhaps resting on the other, is one step of the book. */
  lemma StepFromParts(before: BookVal, incoming: Ord, trades: seq<Trade>, left: Ord, between: BookVal, resting: bool,
                      after: BookVal)
    requires var m := MatchAgainst(Entering(incoming), Opposite(before, incoming.side));
             && trades == m.trades && left == m.incoming && Opposite(between, incoming.side) == m.opposite
             && Same(between, incoming.side) == Same(before, incoming.side)
    requires resting == Rests(left)
    requires if resting then Opposite(after, incoming.side) == Opposite(between, incoming.side)
                             && SortedFrom(incoming.side, Same(between, incoming.side) + [left],
                                           Same(after, incoming.side))
             else after == between
    ensures MatchStep(before, incoming, trades, left, resting, after)
  {
  }

  method RestoreOrders(vs: seq<Ord>) returns (os: seq<Order>)
    ensures Vals(os) == vs && Different(os) && fresh(os)
  {
    os := [];
    for i := 0 to |vs|
      invariant |os| == i && fresh(os)
      invariant Different(os)
      invariant forall j :: 0 <= j < i ==> os[j].Val() == vs[j]
    {
      var o := new Order.Restored(vs[i]);
      os := os + [o];
    }
    assert Vals(os) == vs;
  }

  /** The trade history keeps the latest 500. */
  function Recent(trades: seq<Trade>): seq<Trade> {
    if |trades| > 500 then trades[|trades| - 500..] else trades
  }

  /** Of a history, the last trades and at most 500 of them. */
  lemma HistoryKeepsLatest(trades: seq<Trade>, k: nat)
    ensures |Recent(trades)| == if |trades| <= 500 then |trades| else 500
    ensures k < |trades| && k < 500 ==> Recent(trades)[|Recent(trades)| - 1 - k] == trades[|trades| - 1 - k]
  {
  }

  method AppendAndSort(os: seq<Order>, o: Order, side: Side) returns (r: seq<Order>)
    requires Different(os) && o !in os
    ensures Different(r) && (forall p :: p in r <==> p in os || p == o)
    ensures SortedFrom(side, Vals(os) + [o.Val()], Vals(r))
  {
    r := SortOrders(os + [o], side);
    DifferentAfterSort(os, o, r);
    assert Vals(os + [o]) == Vals(os) + [o.Val()];
  }

  lemma IndexIs(vs: seq<Ord>, id: string, k: nat)
    requires k <= |vs| && (k < |vs| ==> vs[k].id == id)
    requires forall i :: 0 <= i < k ==> vs[i].id != id
    ensures k == IndexOf(vs, id)
  {
  }

  method FindOrder(os: seq<Order>, id: string) returns (k: nat)
    ensures k == IndexOf(Vals(os), id)
  {
    k := 0;
    while k < |os| && os[k].id != id
      invariant 0 <= k <= |os|
      invariant forall i :: 0 <= i < k ==> os[i].id != id
    {
      k := k + 1;
    }
    IndexIs(Vals(os), id, k);
  }

  /** Drop the first order with that id, if any. */
  method RemoveById(os: seq<Order>, id: string) returns (removed: Order?, left: seq<Order>)
    requires Different(os)
    ensures Different(left) && forall o :: o in left ==> o in os
    ensures var k := IndexOf(Vals(os), id);
            if k < |os| then removed == os[k] && removed.id == id && Vals(left) == Without(Vals(os), k)
            else removed == null && left == os
  {
    var k := FindOrder(os, id);
    removed, left := null, os;
    if k < |os| {
      removed, left := os[k], os[..k] + os[k + 1..];
      assert Vals(left) == Without(Vals(os), k);
      assert Vals(os)[k] == os[k].Val();
    }
  }

  /** Being listed once, as a property of the multiset. */
  lemma {:induction false} DifferentCounts<T>(s: seq<T>)
    ensures (forall i, j :: 0 <= i < j < |s| ==> s[i] != s[j]) <==> (forall x :: multiset(s)[x] <= 1)
  {
    if s != [] {
      var head, tail := s[0], s[1..];
      assert s == [head] + tail;
      DifferentCounts(tail);
      assert head in tail <==> multiset(tail)[head] > 0;
      assert multiset(s) == multiset{head} + multiset(tail);
      if forall i, j :: 0 <= i < j < |s| ==> s[i] != s[j] {
        assert forall j :: 0 <= j < |tail| ==> tail[j] == s[j + 1];
        assert head !in tail;
        assert forall x :: multiset(s)[x] <= 1;
      }
      if forall x :: multiset(s)[x] <= 1 {
        assert multiset(s)[head] == 1 + multiset(tail)[head];
        assert forall x :: multiset(tail)[x] <= multiset(s)[x];
        assert head !in tail;
        forall i, j | 0 <= i < j < |s|
          ensures s[i] != s[j]
        {
          if i == 0 {
            assert s[j] == tail[j - 1];
          } else {
            assert s[i] == tail[i - 1] && s[j] == tail[j - 1];
          }
        }
      }
    }
  }

  /** A rearrangement with one new element still lists everything once. */
  lemma DifferentAfterSort<T>(s: seq<T>, o: T, r: seq<T>)
    requires forall i, j :: 0 <= i < j < |s| ==> s[i] != s[j]
    requires o !in s && multiset(r) == multiset(s + [o])
    ensures forall i, j :: 0 <= i < j < |r| ==> r[i] != r[j]
    ensures forall x :: x in r <==> x in s || x == o
  {
    DifferentCounts(s);
    DifferentCounts(r);
    assert o !in multiset(s);
    assert multiset(r) == multiset(s) + multiset{o};
    forall x
      ensures x in r <==> x in s || x == o
    {
      assert x in r <==> x in multiset(r);
      assert x in s <==> x in multiset(s);
    }
  }

  /** The matching loop of both sides: fill `incoming` from the front of `opposite` while it has
      quantity left and the front crosses. */
  method FillQueue(incoming: Order, opposite: seq<Order>) returns (trades: seq<Trade>, left: seq<Order>)
    requires Different(opposite) && incoming !in opposite
    requires forall v :: v in Vals(opposite) ==> v.remaining > 0.0
    modifies incoming, opposite
    ensures var m := MatchAgainst(old(incoming.Val()), old(Vals(opposite)));
            trades == m.trades && incoming.Val() == m.incoming && Vals(left) == m.opposite
    ensures Different(left) && forall o :: o in left ==> o in opposite
  {
    trades, left := [], opposite;
    ghost var goal := Resume([], incoming.Val(), Vals(opposite));
    ResumeFromNothing(incoming.Val(), Vals(opposite));
    while incoming.remaining > 0.0 && |left| > 0
      invariant Different(left) && forall o :: o in left ==> o in opposite
      invariant OrderBookProof.AllPositive(Vals(left))
      invariant Resume(trades, incoming.Val(), Vals(left)) == goal
      decreases |left|, if incoming.remaining > 0.0 then 1 else 0
    {
      if !Crosses(incoming.Val(), left[0].Val()) {
        break;
      }
      assert left[0] in left;
      ghost var here, front := incoming.Val(), Vals(left);
      PositiveSide(front);
      var fill;
      fill, left := FillFront(incoming, left);
      StepOfMatch(here, front, trades);
      trades := trades + [fill];
    }
    ResumeStops(trades, incoming.Val(), Vals(left));
  }

  /** Trade the smaller of the two remaining quantities; both orders shrink. `incoming` and
      `best` name the same two orders by their part in the match. */
  method FillAgainst(buyer: Order, seller: Order, ghost incoming: Order, ghost best: Order) returns (t: Trade)
    requires buyer != seller
    requires if incoming.side == Buy then incoming == buyer && best == seller else incoming == seller && best == buyer
    modifies buyer, seller
    ensures var quantity := RMin(old(incoming.remaining), old(best.remaining));
            && t == Fill(old(incoming.Val()), old(best.Val()), quantity)
            && incoming.Val() == Reduced(old(incoming.Val()), quantity)
            && best.Val() == Reduced(old(best.Val()), quantity)
  {
    var quantity := RMin(buyer.remaining, seller.remaining);
    t := FillOf(buyer.Val(), seller.Val(), quantity);
    buyer.remaining := buyer.remaining - quantity;
    seller.remaining := seller.remaining - quantity;
  }

  /** Fill `incoming` against the front of `opposite` and drop the front once it is used up. */
  method FillFront(incoming: Order, opposite: seq<Order>) returns (t: Trade, left: seq<Order>)
    requires opposite != [] && Different(opposite) && incoming !in opposite
    requires incoming.remaining > 0.0 && OrderBookProof.AllPositive(Vals(opposite))
    modifies incoming, opposite[0]
    ensures var quantity := RMin(old(incoming.remaining), old(opposite[0].remaining));
            && t == Fill(old(incoming.Val()), old(opposite[0].Val()), quantity)
            && incoming.Val() == Reduced(old(incoming.Val()), quantity)
            && Vals(left) == Leftover(old(Vals(opposite)), quantity)
            && (old(opposite[0].remaining) == quantity ==> |left| < |opposite|)
            && (old(opposite[0].remaining) != quantity ==> |left| == |opposite| && incoming.remaining == 0.0)
    ensures Different(left) && forall o :: o in left ==> o in opposite
    ensures OrderBookProof.AllPositive(Vals(left))
  {
    var best := opposite[0];
    ghost var before := Vals(opposite);
    assert best.Val() in before;
    if incoming.side == Buy {
      t := FillAgainst(incoming, best, incoming, best);
    } else {
      t := FillAgainst(best, incoming, incoming, best);
    }
    left := if best.remaining == 0.0 then opposite[1..] else opposite;
    ghost var quantity := RMin(old(incoming.remaining), old(best.remaining));
    assert Vals(opposite)[1..] == before[1..];
    LeftoverPositive(before, quantity);
    assert Vals(left) == Leftover(before, quantity);
  }

  /** The opposite side once `quantity` was taken from its front. */
  function Leftover(opposite: seq<Ord>, quantity: real): seq<Ord>
    requires opposite != []
  {
    if opposite[0].remaining == quantity then opposite[1..] else [Reduced(opposite[0], quantity)] + opposite[1..]
  }

  lemma LeftoverPositive(opposite: seq<Ord>, quantity: real)
    requires opposite != [] && OrderBookProof.AllPositive(opposite) && quantity <= opposite[0].remaining
    ensures OrderBookProof.AllPositive(Leftover(opposite, quantity))
  {
    assert opposite[0] in opposite;
    assert forall o :: o in opposite[1..] ==> o in opposite;
  }

  lemma PositiveSide(vs: seq<Ord>)
    requires forall o :: o in vs ==> o.remaining > 0.0
    ensures OrderBookProof.AllPositive(vs)
    ensures vs != [] ==> vs[0].remaining > 0.0
  {
  }

  /** The whole outcome, seen after `done` trades: those, then what the rest of the run yields. */
  function Resume(done: seq<Trade>, incoming: Ord, opposite: seq<Ord>): Matched {
    Prepend(done, MatchAgainst(incoming, opposite))
  }

  lemma ResumeFromNothing(incoming: Ord, opposite: seq<Ord>)
    ensures Resume([], incoming, opposite) == MatchAgainst(incoming, opposite)
  {
    assert [] + MatchAgainst(incoming, opposite).trades == MatchAgainst(incoming, opposite).trades;
  }

  /** One turn of the loop is one unfolding of the specification. */
  lemma StepOfMatch(incoming: Ord, opposite: seq<Ord>, done: seq<Trade>)
    requires incoming.remaining > 0.0 && opposite != [] && Crosses(incoming, opposite[0])
    requires opposite[0].remaining > 0.0
    ensures var quantity := RMin(incoming.remaining, opposite[0].remaining);
            var trade := Fill(incoming, opposite[0], quantity);
            Resume(done, incoming, opposite) ==
            Resume(done + [trade], Reduced(incoming, quantity), Leftover(opposite, quantity))
  {
    var quantity := RMin(incoming.remaining, opposite[0].remaining);
    var trade := Fill(incoming, opposite[0], quantity);
    if opposite[0].remaining == quantity {
      var tail := MatchAgainst(Reduced(incoming, quantity), opposite[1..]).trades;
      assert done + ([trade] + tail) == done + [trade] + tail;
    } else {
      assert done + [trade] + [] == done + [trade];
    }
  }

  lemma ResumeStops(done: seq<Trade>, incoming: Ord, opposite: seq<Ord>)
    requires incoming.remaining <= 0.0 || opposite == [] || !Crosses(incoming, opposite[0])
    ensures Resume(done, incoming, opposite) == Matched(done, incoming, opposite)
  {
    assert done + [] == done;
  }
}
