/** Aggregated depth: what the levels shown to users say about the book. */
module Depth {
  import opened OrderBook
  import opened Sequences

  datatype PriceLevel = PriceLevel(price: real, quantity: real)

  predicate Better(side: Side, a: real, b: real) { if side == Buy then a > b else a < b }

  /** Quantity resting at one price. */
  function QuantityAt(os: seq<Ord>, price: real): real {
    if os == [] then 0.0
    else QuantityAt(os[..|os| - 1], price) + if os[|os| - 1].price == price then os[|os| - 1].remaining else 0.0
  }

  predicate Quoted(os: seq<Ord>, price: real) {
    exists o :: o in os && o.remaining != 0.0 && o.price == price
  }

  predicate StrictlyOrdered(side: Side, prices: seq<real>) {
    forall i, j :: 0 <= i < j < |prices| ==> Better(side, prices[i], prices[j])
  }

  /** The depth of one side: at most `levels` levels, best first, one per price, each carrying the
      whole quantity at its price; a quoted price is missing only when the levels ran out, and
      then it is worse than every level shown. */
  predicate DepthOf(os: seq<Ord>, levels: nat, side: Side, out: seq<PriceLevel>) {
    && |out| <= levels
    && (forall i, j :: 0 <= i < j < |out| ==> Better(side, out[i].price, out[j].price))
    && (forall l :: l in out ==> Quoted(os, l.price) && l.quantity == QuantityAt(os, l.price))
    && (forall o :: o in os && o.remaining != 0.0 ==>
          || (exists l :: l in out && l.price == o.price)
          || (|out| == levels && forall l :: l in out ==> Better(side, l.price, o.price)))
  }

  // ----- computing it ----------------------------------------------------------------------

  /** Sort distinct prices, best first. */
  method SortPrices(prices: seq<real>, side: Side) returns (r: seq<real>)
    requires forall i, j :: 0 <= i < j < |prices| ==> prices[i] != prices[j]
    ensures StrictlyOrdered(side, r)
    ensures forall p :: p in r <==> p in prices
  {
    r := [];
    for i := 0 to |prices|
      invariant StrictlyOrdered(side, r)
      invariant forall p :: p in r <==> p in prices[..i]
    {
      var p := prices[i];
      assert p !in r;
      var k := |r|;
      while k > 0 && Better(side, p, r[k - 1])
        invariant 0 <= k <= |r|
        invariant forall j :: k <= j < |r| ==> Better(side, p, r[j])
      {
        k := k - 1;
      }
      InsertOrdered(side, r, k, p);
      assert prices[..i + 1] == prices[..i] + [p];
      r := InsertAt(r, k, p);
    }
    assert prices[..|prices|] == prices;
  }

  lemma InsertOrdered(side: Side, r: seq<real>, k: nat, p: real)
    requires k <= |r| && StrictlyOrdered(side, r) && p !in r
    requires forall j :: k <= j < |r| ==> Better(side, p, r[j])
    requires k > 0 ==> !Better(side, p, r[k - 1])
    ensures StrictlyOrdered(side, InsertAt(r, k, p))
    ensures forall q :: q in InsertAt(r, k, p) <==> q in r || q == p
  {
    InsertMembers(r, k, p);
    forall i, j | 0 <= i < j < |InsertAt(r, k, p)|
      ensures Better(side, InsertAt(r, k, p)[i], InsertAt(r, k, p)[j])
    {
      InsertIndex(r, k, p, i);
      InsertIndex(r, k, p, j);
      if i < k {
        BetterThanInserted(side, r, k, p, i);
      }
    }
  }

  lemma BetterThanInserted(side: Side, r: seq<real>, k: nat, p: real, i: nat)
    requires i < k <= |r| && StrictlyOrdered(side, r) && p !in r && !Better(side, p, r[k - 1])
    ensures Better(side, r[i], p)
  {
    assert r[k - 1] in r;
  }

  /** What rests at each price, and the prices in the order they come up. */
  method GroupByPrice(os: seq<Ord>) returns (byPrice: map<real, real>, prices: seq<real>)
    ensures Distinct(prices) && forall p :: p in prices <==> p in byPrice
    ensures forall p :: p in byPrice <==> Quoted(os, p)
    ensures forall p :: p in byPrice ==> byPrice[p] == QuantityAt(os, p)
  {
    byPrice, prices := map[], [];
    for i := 0 to |os|
      invariant Distinct(prices)
      invariant forall p :: p in prices <==> p in byPrice
      invariant forall p :: p in byPrice <==> Quoted(os[..i], p)
      invariant forall p :: p in byPrice ==> byPrice[p] == QuantityAt(os[..i], p)
    {
      var o := os[i];
      OneMore(os, i);
      if o.remaining != 0.0 {
        if o.price !in byPrice {
          prices := prices + [o.price];
        }
        byPrice := byPrice[o.price := (if o.price in byPrice then byPrice[o.price] else 0.0) + o.remaining];
      }
    }
    assert os[..|os|] == os;
  }

  /** Group by price, sort the prices, keep the best `levels`. */
  method AggregateSide(os: seq<Ord>, levels: nat, side: Side) returns (out: seq<PriceLevel>)
    ensures DepthOf(os, levels, side, out)
  {
    var byPrice, prices := GroupByPrice(os);
    var sorted := SortPrices(prices, side);
    assert forall p :: p in sorted ==> p in byPrice;
    ghost var all := sorted;
    if |sorted| > levels {
      sorted := sorted[..levels];
    }
    out := [];
    for i := 0 to |sorted|
      invariant |out| == i
      invariant forall j :: 0 <= j < i ==> out[j] == PriceLevel(sorted[j], byPrice[sorted[j]])
    {
      out := out + [PriceLevel(sorted[i], byPrice[sorted[i]])];
    }
    CutToLevels(os, levels, side, all, out);
  }

  /** Keeping the best `levels` of all quoted prices gives the depth. */
  lemma CutToLevels(os: seq<Ord>, levels: nat, side: Side, all: seq<real>, out: seq<PriceLevel>)
    requires StrictlyOrdered(side, all) && forall p :: p in all <==> Quoted(os, p)
    requires |out| == if |all| > levels then levels else |all|
    requires forall j :: 0 <= j < |out| ==> out[j] == PriceLevel(all[j], QuantityAt(os, all[j]))
    ensures DepthOf(os, levels, side, out)
  {
    forall o | o in os && o.remaining != 0.0
      ensures || (exists l :: l in out && l.price == o.price)
              || (|out| == levels && forall l :: l in out ==> Better(side, l.price, o.price))
    {
      assert Quoted(os, o.price);
      var j :| 0 <= j < |all| && all[j] == o.price;
      if j < |out| {
        assert out[j] in out;
      }
    }
    forall l | l in out
      ensures Quoted(os, l.price) && l.quantity == QuantityAt(os, l.price)
    {
      var j :| 0 <= j < |out| && out[j] == l;
      assert all[j] in all;
    }
  }

  predicate Distinct(prices: seq<real>) {
    forall i, j :: 0 <= i < j < |prices| ==> prices[i] != prices[j]
  }

  /** One more order changes only its own price. */
  lemma OneMore(os: seq<Ord>, i: nat)
    requires i < |os|
    ensures forall p ::
            QuantityAt(os[..i + 1], p) == QuantityAt(os[..i], p) + if os[i].price == p then os[i].remaining else 0.0
    ensures forall p :: Quoted(os[..i + 1], p) <==> Quoted(os[..i], p) || (os[i].remaining != 0.0 && os[i].price == p)
    ensures !Quoted(os[..i], os[i].price) ==> QuantityAt(os[..i], os[i].price) == 0.0
  {
    var longer := os[..i + 1];
    assert longer[..i] == os[..i] && longer == os[..i] + [os[i]];
    if !Quoted(os[..i], os[i].price) {
      UnquotedIsZero(os[..i], os[i].price);
    }
  }

  lemma {:induction false} UnquotedIsZero(os: seq<Ord>, price: real)
    requires forall o :: o in os ==> o.remaining == 0.0 || o.price != price
    ensures QuantityAt(os, price) == 0.0
  {
    if os != [] {
      assert os[|os| - 1] in os;
      assert forall o :: o in os[..|os| - 1] ==> o in os;
      UnquotedIsZero(os[..|os| - 1], price);
    }
  }

  // ----- what it says ----------------------------------------------------------------------

  /** The first level is the head of the book. */
  lemma FirstLevelIsBest(os: seq<Ord>, levels: nat, side: Side, out: seq<PriceLevel>)
    requires SideOk(side, os) && os != [] && levels > 0
    requires DepthOf(os, levels, side, out)
    ensures out != [] && out[0].price == os[0].price
  {
    assert os[0] in os;
    if out != [] {
      assert out[0] in out;
      assert Quoted(os, out[0].price);
      var o :| o in os && o.remaining != 0.0 && o.price == out[0].price;
      var i :| 0 <= i < |os| && os[i] == o;
      assert i > 0 ==> Before(side, os[0], os[i]);
    }
  }

  function TotalRemaining(os: seq<Ord>): real {
    if os == [] then 0.0 else TotalRemaining(os[..|os| - 1]) + os[|os| - 1].remaining
  }

  function LevelSum(out: seq<PriceLevel>): real {
    if out == [] then 0.0 else LevelSum(out[..|out| - 1]) + out[|out| - 1].quantity
  }

  function SumAt(os: seq<Ord>, out: seq<PriceLevel>): real {
    if out == [] then 0.0 else SumAt(os, out[..|out| - 1]) + QuantityAt(os, out[|out| - 1].price)
  }

  lemma {:induction false} LevelsAreSums(os: seq<Ord>, out: seq<PriceLevel>)
    requires forall j :: 0 <= j < |out| ==> out[j].quantity == QuantityAt(os, out[j].price)
    ensures LevelSum(out) == SumAt(os, out)
    decreases |out|
  {
    if out != [] {
      LevelsAreSums(os, out[..|out| - 1]);
    }
  }

  /** One more order adds its remaining quantity to the one level that shows its price. */
  lemma {:induction false} SumAtGrows(os: seq<Ord>, out: seq<PriceLevel>)
    requires os != [] && forall i, j :: 0 <= i < j < |out| ==> out[i].price != out[j].price
    ensures var last := os[|os| - 1];
            SumAt(os, out) == SumAt(os[..|os| - 1], out) +
            if exists j :: 0 <= j < |out| && out[j].price == last.price then last.remaining else 0.0
    decreases |out|
  {
    if out != [] {
      var front, last := out[..|out| - 1], os[|os| - 1];
      SumAtGrows(os, front);
      assert forall j :: 0 <= j < |front| ==> front[j] == out[j];
      if out[|front|].price == last.price {
        assert !exists j :: 0 <= j < |front| && front[j].price == last.price;
      } else if exists j :: 0 <= j < |out| && out[j].price == last.price {
        var j :| 0 <= j < |out| && out[j].price == last.price;
        assert front[j].price == last.price;
      }
    }
  }

  lemma {:induction false} SumAtNothing(out: seq<PriceLevel>)
    ensures SumAt([], out) == 0.0
    decreases |out|
  {
    if out != [] {
      SumAtNothing(out[..|out| - 1]);
    }
  }

  lemma {:induction false} AllLevelsSum(os: seq<Ord>, out: seq<PriceLevel>)
    requires forall i, j :: 0 <= i < j < |out| ==> out[i].price != out[j].price
    requires forall i :: 0 <= i < |os| && os[i].remaining != 0.0 ==>
               exists j :: 0 <= j < |out| && out[j].price == os[i].price
    ensures SumAt(os, out) == TotalRemaining(os)
    decreases |os|
  {
    if os == [] {
      SumAtNothing(out);
    } else {
      SumAtGrows(os, out);
      AllLevelsSum(os[..|os| - 1], out);
    }
  }

  /** As long as the levels did not run out, they add up to everything that rests on the side. */
  lemma DepthAddsUp(os: seq<Ord>, levels: nat, side: Side, out: seq<PriceLevel>)
    requires DepthOf(os, levels, side, out) && |out| < levels
    ensures LevelSum(out) == TotalRemaining(os)
  {
    forall j | 0 <= j < |out|
      ensures out[j].quantity == QuantityAt(os, out[j].price)
    {
      assert out[j] in out;
    }
    forall i | 0 <= i < |os| && os[i].remaining != 0.0
      ensures exists j :: 0 <= j < |out| && out[j].price == os[i].price
    {
      assert os[i] in os;
      var l :| l in out && l.price == os[i].price;
      var j :| 0 <= j < |out| && out[j] == l;
    }
    LevelsAreSums(os, out);
    AllLevelsSum(os, out);
  }

  /** The midpoint of the first levels lies strictly between best bid and best ask. */
  lemma MidBetween(b: BookVal, levels: nat, bids: seq<PriceLevel>, asks: seq<PriceLevel>)
    requires WellFormed(b) && b.bids != [] && b.asks != [] && levels > 0
    requires DepthOf(b.bids, levels, Buy, bids) && DepthOf(b.asks, levels, Sell, asks)
    ensures bids != [] && asks != []
    ensures var mid := (bids[0].price + asks[0].price) / 2.0;
            b.bids[0].price < mid < b.asks[0].price
  {
    FirstLevelIsBest(b.bids, levels, Buy, bids);
    FirstLevelIsBest(b.asks, levels, Sell, asks);
  }
}
