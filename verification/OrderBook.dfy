/** One symbol's order book on values: how an incoming order is filled, and what every book
    keeps from call to call. */
module OrderBook {

  datatype Side = Buy | Sell

  /** An incoming or resting order; a market order carries price zero. */
  datatype Ord = Ord(id: string, user: string, side: Side, price: real, quantity: real, remaining: real, createdAt: int)

  datatype Trade = Trade(buyId: string, sellId: string, buyer: string, seller: string, price: real, quantity: real)

  datatype BookVal = BookVal(bids: seq<Ord>, asks: seq<Ord>)

  predicate IsMarket(o: Ord) { o.price == 0.0 }

  function RMin(a: real, b: real): real { if a <= b then a else b }

  // ----- filling one pair ------------------------------------------------------------------

  /** The seller's price, or the buyer's when the seller has none. */
  function TradePrice(buy: Ord, sell: Ord): real {
    var first := if IsMarket(sell) then buy.price else sell.price;
    var second := if first == 0.0 then sell.price else first;
    if second == 0.0 then buy.price else second
  }

  function FillOf(buy: Ord, sell: Ord, quantity: real): Trade {
    Trade(buy.id, sell.id, buy.user, sell.user, TradePrice(buy, sell), quantity)
  }

  function Fill(incoming: Ord, best: Ord, quantity: real): Trade {
    if incoming.side == Buy then FillOf(incoming, best, quantity) else FillOf(best, incoming, quantity)
  }

  function Reduced(o: Ord, quantity: real): Ord { o.(remaining := o.remaining - quantity) }

  /** May `incoming` trade with the best order on the other side? */
  predicate Crosses(incoming: Ord, best: Ord) {
    IsMarket(incoming) || if incoming.side == Buy then incoming.price >= best.price else incoming.price <= best.price
  }

  // ----- the matching loop -----------------------------------------------------------------

  datatype Matched = Matched(trades: seq<Trade>, incoming: Ord, opposite: seq<Ord>)

  function Prepend(trades: seq<Trade>, m: Matched): Matched { m.(trades := trades + m.trades) }

  /** Fill from the front while quantity is left and the front crosses. */
  function MatchAgainst(incoming: Ord, opposite: seq<Ord>): Matched
    decreases |opposite|
  {
    if incoming.remaining <= 0.0 || opposite == [] || !Crosses(incoming, opposite[0]) then
      Matched([], incoming, opposite)
    else
      var best := opposite[0];
      var quantity := RMin(incoming.remaining, best.remaining);
      var trade := Fill(incoming, best, quantity);
      if best.remaining == quantity then
        Prepend([trade], MatchAgainst(Reduced(incoming, quantity), opposite[1..]))
      else
        Matched([trade], Reduced(incoming, quantity), [Reduced(best, quantity)] + opposite[1..])
  }

  // ----- a whole call ----------------------------------------------------------------------

  /** Price-time priority: best price first, earlier first within a price. */
  predicate Before(side: Side, a: Ord, b: Ord) {
    if a.price == b.price then a.createdAt <= b.createdAt
    else if side == Buy then a.price > b.price else a.price < b.price
  }

  predicate Sorted(side: Side, os: seq<Ord>) {
    forall i, j :: 0 <= i < j < |os| ==> Before(side, os[i], os[j])
  }

  /** Sorting keeps the orders and puts them in priority order; ties may fall either way. */
  predicate SortedFrom(side: Side, before: seq<Ord>, after: seq<Ord>) {
    multiset(after) == multiset(before) && Sorted(side, after)
  }

  function Opposite(b: BookVal, side: Side): seq<Ord> { if side == Buy then b.asks else b.bids }
  function Same(b: BookVal, side: Side): seq<Ord> { if side == Buy then b.bids else b.asks }

  function Entering(o: Ord): Ord { if o.remaining == 0.0 then o.(remaining := o.quantity) else o }

  predicate Rests(o: Ord) { o.remaining > 0.0 && !IsMarket(o) }

  /** `Match(incoming)` may take the book from `before` to `after`, returning `trades` and,
      when `resting`, the order it left on the book. */
  predicate MatchStep(before: BookVal, incoming: Ord, trades: seq<Trade>, left: Ord, resting: bool, after: BookVal) {
    var m := MatchAgainst(Entering(incoming), Opposite(before, incoming.side));
    && trades == m.trades && left == m.incoming && resting == Rests(left)
    && Opposite(after, incoming.side) == m.opposite
    && if resting then SortedFrom(incoming.side, Same(before, incoming.side) + [left], Same(after, incoming.side))
       else Same(after, incoming.side) == Same(before, incoming.side)
  }

  /** `Cancel(id)`: the first resting order with that id, bids searched before asks. */
  function IndexOf(os: seq<Ord>, id: string): (k: nat)
    ensures k <= |os|
    ensures k < |os| ==> os[k].id == id
    ensures forall i :: 0 <= i < k ==> os[i].id != id
  {
    if os == [] || os[0].id == id then 0 else 1 + IndexOf(os[1..], id)
  }

  function Without(os: seq<Ord>, k: nat): seq<Ord>
    requires k < |os|
  {
    os[..k] + os[k + 1..]
  }

  /** Some order with that id rests on the book. */
  predicate Holds(b: BookVal, id: string) {
    IndexOf(b.bids, id) < |b.bids| || IndexOf(b.asks, id) < |b.asks|
  }

  function AfterCancel(b: BookVal, id: string): BookVal {
    var i, j := IndexOf(b.bids, id), IndexOf(b.asks, id);
    if i < |b.bids| then b.(bids := Without(b.bids, i))
    else if j < |b.asks| then b.(asks := Without(b.asks, j))
    else b
  }

  // ----- what every book keeps -------------------------------------------------------------

  predicate SideOk(side: Side, os: seq<Ord>) {
    && Sorted(side, os)
    && forall o :: o in os ==> o.side == side && o.remaining > 0.0 && o.price != 0.0
  }

  /** Best bid strictly below best ask. */
  predicate Uncrossed(b: BookVal) {
    b.bids != [] && b.asks != [] ==> b.bids[0].price < b.asks[0].price
  }

  predicate WellFormed(b: BookVal) {
    SideOk(Buy, b.bids) && SideOk(Sell, b.asks) && Uncrossed(b)
  }

  predicate WithinQuantity(os: seq<Ord>) {
    forall o :: o in os ==> o.remaining <= o.quantity
  }
}
