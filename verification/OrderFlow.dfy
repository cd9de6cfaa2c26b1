/** Orders, collateral and settlement on values: what the order service keeps in its rows, what
    it freezes, and how both follow the book. */
module OrderFlow {
  import opened OrderBook
  import opened AccountLedger
  import opened RealSums

  datatype Venue = CEX | DEX
  datatype OrderType = LimitOrder | MarketOrder
  datatype Status = New | PartiallyFilled | Filled | Cancelled

  /** Books are kept per venue and symbol. */
  datatype Market = Market(venue: Venue, symbol: string)

  datatype Assets = Assets(base: string, quote: string)

  /** A row of the order table; the price of a market order is absent, here zero. */
  datatype Row = Row(
    user: string, venue: Venue, symbol: string, side: Side, typ: OrderType, status: Status,
    price: real, quantity: real, filled: real)

  function RefType(venue: Venue): string { if venue == CEX then "cex_order" else "dex_order" }

  // ----- collateral ------------------------------------------------------------------------

  datatype Collateral = Unsupported | Collateral(asset: string, amount: real)

  /** Buys lock quote at the limit price, sells lock base; a market buy is refused. */
  function CollateralForOrder(side: Side, info: Assets, quantity: real, price: real): Collateral {
    if side == Sell then Collateral(info.base, quantity)
    else if price == 0.0 then Unsupported
    else Collateral(info.quote, quantity * price)
  }

  /** What a resting order locks of `asset` for `user`. */
  function OrdLock(o: Ord, info: Assets, user: string, asset: string): real {
    if o.user != user then 0.0
    else if o.side == Buy then (if asset == info.quote then o.remaining * o.price else 0.0)
    else if asset == info.base then o.remaining else 0.0
  }

  function SideLock(os: seq<Ord>, info: Assets, user: string, asset: string): real {
    if os == [] then 0.0 else OrdLock(os[0], info, user, asset) + SideLock(os[1..], info, user, asset)
  }

  function BookLock(b: BookVal, info: Assets, user: string, asset: string): real {
    SideLock(b.bids, info, user, asset) + SideLock(b.asks, info, user, asset)
  }

  function InfoOf(symbols: map<string, Assets>, symbol: string): Assets {
    if symbol in symbols then symbols[symbol] else Assets("", "")
  }

  ghost function LockRows(books: map<Market, BookVal>, symbols: map<string, Assets>, user: string, asset: string)
    : map<Market, real>
  {
    map m | m in books :: BookLock(books[m], InfoOf(symbols, m.symbol), user, asset)
  }

  /** Collateral of all of a user's resting orders, over all venues and symbols. */
  ghost function Locked(books: map<Market, BookVal>, symbols: map<string, Assets>, user: string, asset: string): real {
    SumOver(LockRows(books, symbols, user, asset))
  }

  // ----- settlement of a trade ---------------------------------------------------------------

  function TradeLegs(t: Trade, info: Assets): seq<Entry> {
    LegsFor(t.buyer, t.seller, info, t.price * t.quantity, t.quantity)
  }

  function LegsFor(buyer: string, seller: string, info: Assets, notional: real, quantity: real): seq<Entry> {
    [Entry(buyer, info.quote, -notional), Entry(buyer, info.base, quantity),
     Entry(seller, info.base, -quantity), Entry(seller, info.quote, notional)]
  }

  function TradeReleases(t: Trade, info: Assets): seq<Entry> {
    [Entry(t.buyer, info.quote, t.price * t.quantity), Entry(t.seller, info.base, t.quantity)]
  }

  /** What the two orders of a trade had locked for its quantity; `limit` is the buyer's price. */
  function TradeHold(t: Trade, limit: real, info: Assets, user: string, asset: string): real {
    (if t.buyer == user && asset == info.quote then limit * t.quantity else 0.0)
    + (if t.seller == user && asset == info.base then t.quantity else 0.0)
  }

  function LimitOf(rows: map<string, Row>, id: string): real {
    if id in rows then rows[id].price else 0.0
  }

  function HoldSum(trades: seq<Trade>, rows: map<string, Row>, info: Assets, user: string, asset: string): real {
    if trades == [] then 0.0
    else TradeHold(trades[0], LimitOf(rows, trades[0].buyId), info, user, asset)
         + HoldSum(trades[1..], rows, info, user, asset)
  }

  /** Collateral that stays frozen although nothing needs it: what buyers had locked above the
      trade price. */
  function Residue(residue: map<Key, real>, user: string, asset: string): real {
    if (user, asset) in residue then residue[(user, asset)] else 0.0
  }

  function WithImprovement(residue: map<Key, real>, t: Trade, limit: real, info: Assets): map<Key, real> {
    residue[(t.buyer, info.quote) := Residue(residue, t.buyer, info.quote) + (limit - t.price) * t.quantity]
  }

  function AfterTrades(
    residue: map<Key, real>, trades: seq<Trade>, rows: map<string, Row>, info: Assets)
    : map<Key, real>
    decreases |trades|
  {
    if trades == [] then residue
    else AfterTrades(WithImprovement(residue, trades[0], LimitOf(rows, trades[0].buyId), info), trades[1..], rows, info)
  }

  // ----- order rows ------------------------------------------------------------------------

  function FillRow(r: Row, quantity: real): Row {
    r.(filled := r.filled + quantity,
       status := if r.filled + quantity >= r.quantity then Filled else PartiallyFilled)
  }

  function FillIfMaker(rows: map<string, Row>, id: string, taker: string, quantity: real): map<string, Row> {
    if id != taker && id in rows then rows[id := FillRow(rows[id], quantity)] else rows
  }

  function FillMaker(rows: map<string, Row>, t: Trade, taker: string): map<string, Row> {
    FillIfMaker(FillIfMaker(rows, t.buyId, taker, t.quantity), t.sellId, taker, t.quantity)
  }

  function FillMakers(rows: map<string, Row>, trades: seq<Trade>, taker: string): map<string, Row>
    decreases |trades|
  {
    if trades == [] then rows else FillMakers(FillMaker(rows, trades[0], taker), trades[1..], taker)
  }

  /** The status the service writes for the incoming order. */
  function TakerStatus(quantity: real, filled: real, resting: bool): Status {
    if !resting && filled < quantity && filled == 0.0 then Cancelled
    else if filled >= quantity then Filled
    else if filled > 0.0 then PartiallyFilled
    else New
  }

  function CancelRows(rows: map<string, Row>, id: string): map<string, Row>
    requires id in rows
  {
    rows[id := rows[id].(status := Cancelled)]
  }

  /** Cancelling on one market's book. */
  function CancelBooks(books: map<Market, BookVal>, m: Market, id: string): map<Market, BookVal> {
    if m in books then books[m := AfterCancel(books[m], id)] else books
  }

  // ----- agreement of rows and books ---------------------------------------------------------

  /** The row a resting order must have. */
  function RowOf(o: Ord, m: Market): Row {
    Row(o.user, m.venue, m.symbol, o.side, LimitOrder, if o.remaining == o.quantity then New else PartiallyFilled,
        o.price, o.quantity, o.quantity - o.remaining)
  }

  function IdCount(os: seq<Ord>, id: string): nat {
    if os == [] then 0 else (if os[0].id == id then 1 else 0) + IdCount(os[1..], id)
  }

  ghost predicate UniqueIds(os: seq<Ord>) {
    forall id :: IdCount(os, id) <= 1
  }

  predicate SideAgrees(os: seq<Ord>, m: Market, rows: map<string, Row>) {
    forall o :: o in os ==> o.id in rows && rows[o.id] == RowOf(o, m) && o.price > 0.0 && o.remaining <= o.quantity
  }

  ghost predicate BookAgrees(b: BookVal, m: Market, rows: map<string, Row>) {
    WellFormed(b) && SideAgrees(b.bids, m, rows) && SideAgrees(b.asks, m, rows) && UniqueIds(b.bids)
      && UniqueIds(b.asks)
  }

  /** Does the order rest in its own venue's book? */
  predicate Resting(books: map<Market, BookVal>, id: string, r: Row) {
    var m := Market(r.venue, r.symbol);
    m in books && IdCount(Same(books[m], r.side), id) > 0
  }

  predicate RowOk(r: Row, resting: bool) {
    && 0.0 <= r.filled <= r.quantity && r.quantity > 0.0
    && (if r.typ == LimitOrder then r.price > 0.0 else r.price == 0.0 && r.side == Sell && r.status != New)
    && (r.status == Filled <==> r.filled == r.quantity)
    && (r.status == New ==> r.filled == 0.0)
    && (r.status == PartiallyFilled ==> r.filled > 0.0)
    && (resting <==> r.typ == LimitOrder && (r.status == New || r.status == PartiallyFilled))
  }

  ghost predicate RowsAgree(books: map<Market, BookVal>, rows: map<string, Row>) {
    && (forall m :: m in books ==> BookAgrees(books[m], m, rows))
    && (forall id :: id in rows ==> RowOk(rows[id], Resting(books, id, rows[id])))
  }

  /** A resting order has not been unfrozen yet; a partly filled market order has. */
  predicate RefAgrees(txns: seq<Txn>, id: string, r: Row, resting: bool) {
    var used := HasRef(txns, RefType(r.venue), FullRef(RefType(r.venue), id, "unfreeze"));
    (resting ==> !used) && (r.typ == MarketOrder && r.status == PartiallyFilled ==> used)
  }

  ghost predicate RefsAgree(books: map<Market, BookVal>, rows: map<string, Row>, txns: seq<Txn>) {
    forall id :: id in rows ==> RefAgrees(txns, id, rows[id], Resting(books, id, rows[id]))
  }

  /** Neither the improvement nor what else is frozen is ever negative. */
  ghost predicate Backing(residue: map<Key, real>, other: (string, string) -> real) {
    && (forall key :: key in residue ==> residue[key] >= 0.0)
    && (forall user, asset :: other(user, asset) >= 0.0)
  }

  /** A user's frozen balance is the collateral of resting orders, plus the improvement left
      behind by fills, plus whatever else the account holds frozen. */
  ghost predicate Explained(
    books: map<Market, BookVal>, symbols: map<string, Assets>, balances: map<Key, Account>,
    residue: map<Key, real>, other: (string, string) -> real)
  {
    forall user, asset :: Frozen(balances, user, asset) ==
                          Locked(books, symbols, user, asset) + Residue(residue, user, asset) + other(user, asset)
  }

  ghost predicate FlowInv(
    books: map<Market, BookVal>, symbols: map<string, Assets>, rows: map<string, Row>, ledger: Ledger,
    residue: map<Key, real>, other: (string, string) -> real)
  {
    && (forall m :: m in books ==> m.symbol in symbols)
    && RowsAgree(books, rows)
    && RefsAgree(books, rows, ledger.txns)
    && Explained(books, symbols, ledger.balances, residue, other)
    && Backing(residue, other)
  }
}
