/** What any sequence of opens, closes, liquidations and funding payments keeps. */
module PerpDeskProof {
  import opened AccountLedger
  import opened AccountLedgerProof
  import opened Decimals
  import opened PerpDesk
  import opened Perps
  import opened RealArithmetic
  import opened RealSums
  import SettleProof

  // ----- open margin -----------------------------------------------------------------------

  function QuoteOf(contracts: map<string, Contract>, symbol: string): string {
    if symbol in contracts then contracts[symbol].quote else ""
  }

  function MarginIn(slot: Slot, p: PositionRow, contracts: map<string, Contract>, user: string, asset: string): real {
    if slot.0 == user && QuoteOf(contracts, slot.1) == asset then p.margin else 0.0
  }

  ghost function MarginRows(
    positions: map<Slot, Position>, contracts: map<string, Contract>, user: string, asset: string)
    : map<Slot, real>
  {
    map slot | slot in positions :: MarginIn(slot, positions[slot], contracts, user, asset)
  }

  /** The margins of all of a user's open positions quoted in `asset`. */
  ghost function OpenMargin(
    positions: map<Slot, Position>, contracts: map<string, Contract>, user: string, asset: string)
    : real
  {
    SumOver(MarginRows(positions, contracts, user, asset))
  }

  lemma OpenMarginWrite(
    positions: map<Slot, Position>, contracts: map<string, Contract>, slot: Slot, p: Position, user: string,
    asset: string)
    ensures OpenMargin(positions[slot := p], contracts, user, asset) ==
            OpenMargin(positions, contracts, user, asset)
            - (if slot in positions then MarginIn(slot, positions[slot], contracts, user, asset) else 0.0)
            + MarginIn(slot, p, contracts, user, asset)
  {
    var rows := MarginRows(positions, contracts, user, asset);
    SumWrite(rows, slot, MarginIn(slot, p, contracts, user, asset));
    assert MarginRows(positions[slot := p], contracts, user, asset) ==
      rows[slot := MarginIn(slot, p, contracts, user, asset)];
  }

  lemma OpenMarginDelete(
    positions: map<Slot, Position>, contracts: map<string, Contract>, slot: Slot, user: string, asset: string)
    requires slot in positions
    ensures OpenMargin(positions - {slot}, contracts, user, asset) ==
            OpenMargin(positions, contracts, user, asset) - MarginIn(slot, positions[slot], contracts, user, asset)
  {
    var rows := MarginRows(positions, contracts, user, asset);
    SumDelete(rows, slot);
    assert MarginRows(positions - {slot}, contracts, user, asset) == rows - {slot};
  }

  /** No single margin exceeds the user's open margin. */
  lemma MarginWithin(positions: map<Slot, Position>, contracts: map<string, Contract>, slot: Slot)
    requires slot in positions
    ensures positions[slot].margin <= OpenMargin(positions, contracts, slot.0, QuoteOf(contracts, slot.1))
  {
    var rows := MarginRows(positions, contracts, slot.0, QuoteOf(contracts, slot.1));
    SumNonNegative(rows);
    assert rows[slot] == positions[slot].margin;
  }

  // ----- the invariant ---------------------------------------------------------------------

  /** A user's frozen balance is the margin of the open positions plus whatever else is frozen. */
  ghost predicate MarginExplained(d: Desk, contracts: map<string, Contract>, other: (string, string) -> real) {
    forall user, asset :: Frozen(d.ledger.balances, user, asset) ==
                          OpenMargin(d.positions, contracts, user, asset) + other(user, asset)
  }

  predicate RowsOnGrid(positions: map<Slot, Position>, contracts: map<string, Contract>) {
    forall slot :: slot in positions ==> slot.1 in contracts && OnGrid(positions[slot].margin)
  }

  ghost predicate DeskInv(d: Desk, contracts: map<string, Contract>, other: (string, string) -> real) {
    && RowsOnGrid(d.positions, contracts)
    && MarginExplained(d, contracts, other)
    && forall user, asset :: other(user, asset) >= 0.0
  }

  predicate UnfreezeUnused(txns: seq<Txn>, id: string) {
    !HasRef(txns, REF_TYPE, FullRef(REF_TYPE, id, "unfreeze"))
  }

  // ----- account calls -----------------------------------------------------------------------

  lemma FreezeMoves(
    s: Ledger, owner: string, held: string, amount: real, refType: string, id: string, user: string, asset: string)
    requires Freeze(s, owner, held, amount, refType, id).Ok?
    ensures var t := Freeze(s, owner, held, amount, refType, id).value;
            Frozen(t.balances, user, asset) ==
            Frozen(s.balances, user, asset) + if (user, asset) == (owner, held) then amount else 0.0
  {
  }

  lemma UnfreezeMoves(
    s: Ledger, owner: string, held: string, amount: real, refType: string, id: string, user: string, asset: string)
    requires Unfreeze(s, owner, held, amount, refType, id).Ok?
    ensures var t := Unfreeze(s, owner, held, amount, refType, id).value;
            && Frozen(t.balances, user, asset) ==
               Frozen(s.balances, user, asset) - (if (user, asset) == (owner, held) then amount else 0.0)
            && Available(t.balances, user, asset) ==
               Available(s.balances, user, asset) + if (user, asset) == (owner, held) then amount else 0.0
  {
  }

  /** Booking profit moves only available balances, by opposite amounts. */
  lemma BookMoves(s: Ledger, owner: string, house: string, amount: real, tradeId: string, user: string, asset: string)
    requires !HasRef(s.txns, "trade", tradeId) && Book(s, owner, house, amount, tradeId).Ok?
    ensures var t := Book(s, owner, house, amount, tradeId).value;
            && Frozen(t.balances, user, asset) == Frozen(s.balances, user, asset)
            && Available(t.balances, user, asset) ==
               Available(s.balances, user, asset)
               + (if (user, asset) == (owner, BOOKING) then amount else 0.0)
               - (if (user, asset) == (house, BOOKING) then amount else 0.0)
  {
    if amount != 0.0 {
      SettleMoves(s, tradeId, BookLegs(owner, house, amount), [], user, asset);
      TwoEntries(Entry(owner, BOOKING, amount), Entry(house, BOOKING, -amount), user, asset);
    }
  }

  /** Booking never moves a frozen balance, whether the reference is new or replayed. */
  lemma BookKeepsFrozen(
    s: Ledger, owner: string, house: string, amount: real, tradeId: string, user: string, asset: string)
    requires Book(s, owner, house, amount, tradeId).Ok?
    ensures Frozen(Book(s, owner, house, amount, tradeId).value.balances, user, asset) ==
            Frozen(s.balances, user, asset)
  {
    if !HasRef(s.txns, "trade", tradeId) {
      BookMoves(s, owner, house, amount, tradeId, user, asset);
    }
  }

  // ----- opening -------------------------------------------------------------------------------

  lemma InitialMarginOnGrid(notional: real, leverage: int)
    ensures OnGrid(InitialMargin(notional, leverage))
  {
    RoundOnGrid(notional / (if leverage < 1 then 1 else leverage) as real);
  }

  /** Taking a fresh freeze back restores every balance. */
  lemma UnfreezeUndoes(s: Ledger, user: string, asset: string, amount: real, id: string)
    requires Freeze(s, user, asset, amount, REF_TYPE, id).Ok? && UnfreezeUnused(s.txns, id)
    requires Frozen(s.balances, user, asset) >= 0.0
    ensures var r := Unfreeze(Freeze(s, user, asset, amount, REF_TYPE, id).value, user, asset, amount, REF_TYPE, id);
            r.Ok? && r.value.balances == s.balances
  {
    var t := Freeze(s, user, asset, amount, REF_TYPE, id).value;
    SettleProof.FreezeIsNotUnfreeze(REF_TYPE, id, id);
    assert UnfreezeUnused(t.txns, id);
  }

  /** An open is done or refused. Either way frozen balances stay explained, and a refusal, late as
      it may come, changes no position and no balance. */
  lemma OpenKeepsInv(
    d: Desk, contracts: map<string, Contract>, marks: map<string, real>, other: (string, string) -> real, slot: Slot,
    side: PositionSide, size: real, leverage: int, newId: string, freezeId: string)
    requires DeskInv(d, contracts, other) && UnfreezeUnused(d.ledger.txns, freezeId)
    ensures var r := Open(d, contracts, marks, slot, side, size, leverage, newId, freezeId);
            && !r.outcome.Interrupted?
            && (r.outcome.Refused? ==> r.desk.positions == d.positions && r.desk.ledger.balances == d.ledger.balances)
            && DeskInv(r.desk, contracts, other)
  {
    var r := Open(d, contracts, marks, slot, side, size, leverage, newId, freezeId);
    if r.outcome == Done {
      OpenDone(d, contracts, marks, other, slot, side, size, leverage, newId, freezeId);
    } else if r.outcome == Refused(RowCheck) {
      FrozenNonNegative(d, contracts, other, slot.0, contracts[slot.1].quote);
      var margin := MarginFor(size, marks[slot.1], leverage);
      UnfreezeUndoes(d.ledger, slot.0, contracts[slot.1].quote, margin, freezeId);
    }
  }

  lemma FrozenNonNegative(
    d: Desk, contracts: map<string, Contract>, other: (string, string) -> real, user: string, asset: string)
    requires DeskInv(d, contracts, other)
    ensures Frozen(d.ledger.balances, user, asset) >= 0.0
  {
    SumNonNegative(MarginRows(d.positions, contracts, user, asset));
  }

  lemma OpenRowsOnGrid(
    d: Desk, contracts: map<string, Contract>, marks: map<string, real>, slot: Slot, side: PositionSide, size: real,
    leverage: int, newId: string, freezeId: string)
    requires RowsOnGrid(d.positions, contracts)
    requires Open(d, contracts, marks, slot, side, size, leverage, newId, freezeId).outcome == Done
    ensures RowsOnGrid(Open(d, contracts, marks, slot, side, size, leverage, newId, freezeId).desk.positions, contracts)
  {
    InitialMarginOnGrid(Notional(size, marks[slot.1]), leverage);
    if slot in d.positions {
      GridDifference(d.positions[slot].margin, MarginFor(size, marks[slot.1], leverage));
    }
  }

  lemma OpenDone(
    d: Desk, contracts: map<string, Contract>, marks: map<string, real>, other: (string, string) -> real, slot: Slot,
    side: PositionSide, size: real, leverage: int, newId: string, freezeId: string)
    requires DeskInv(d, contracts, other)
    requires Open(d, contracts, marks, slot, side, size, leverage, newId, freezeId).outcome == Done
    ensures DeskInv(Open(d, contracts, marks, slot, side, size, leverage, newId, freezeId).desk, contracts, other)
  {
    var r := Open(d, contracts, marks, slot, side, size, leverage, newId, freezeId);
    var margin := MarginFor(size, marks[slot.1], leverage);
    OpenRowsOnGrid(d, contracts, marks, slot, side, size, leverage, newId, freezeId);
    forall user, asset
      ensures Frozen(r.desk.ledger.balances, user, asset) ==
              OpenMargin(r.desk.positions, contracts, user, asset) + other(user, asset)
    {
      FreezeMoves(d.ledger, slot.0, contracts[slot.1].quote, margin, REF_TYPE, freezeId, user, asset);
      OpenMarginWrite(d.positions, contracts, slot, r.desk.positions[slot], user, asset);
    }
  }

  /** The margin times the leverage is the notional, up to half a step for each unit of leverage. */
  lemma MarginTimesLeverage(size: real, mark: real, leverage: int)
    requires leverage >= 1
    ensures var gap := MarginFor(size, mark, leverage) * leverage as real - size * mark;
            -Slack(leverage as real) <= gap <= Slack(leverage as real)
  {
    var notional, lev := size * mark, leverage as real;
    RoundError(notional / lev);
    QuotientTimes(notional, lev);
    ScaledError(MarginFor(size, mark, leverage), notional / lev, HALF_STEP, lev, notional);
  }

  /** A carried out open locks, out of the user's available balance and of no other, exactly what
      the position's margin grew by; a position keeps its id and side and takes the new leverage. */
  lemma OpenLocks(
    d: Desk, contracts: map<string, Contract>, marks: map<string, real>, slot: Slot, side: PositionSide, size: real,
    leverage: int, newId: string, freezeId: string, user: string, asset: string)
    requires Open(d, contracts, marks, slot, side, size, leverage, newId, freezeId).outcome == Done
    ensures var e := Open(d, contracts, marks, slot, side, size, leverage, newId, freezeId).desk;
            && slot in e.positions && slot.1 in contracts && slot.1 in marks
            && 1 <= leverage <= contracts[slot.1].maxLeverage
            && var row, margin := e.positions[slot], MarginFor(size, marks[slot.1], leverage);
            && row.side == side && row.leverage == leverage
            && row.id == (if slot in d.positions then d.positions[slot].id else newId)
            && row.margin == (if slot in d.positions then d.positions[slot].margin else 0.0) + margin
            && (forall other :: other != slot ==>
                  (other in e.positions <==> other in d.positions)
                  && (other in d.positions ==> e.positions[other] == d.positions[other]))
            && Available(e.ledger.balances, user, asset) ==
               Available(d.ledger.balances, user, asset)
               - if (user, asset) == (slot.0, contracts[slot.1].quote) then margin else 0.0
  {
  }

  // ----- closing -------------------------------------------------------------------------------

  predicate Closable(d: Desk, slot: Slot, size: real) {
    slot in d.positions && 0.0 < size <= d.positions[slot].size
  }

  function ReleaseOf(d: Desk, slot: Slot, size: real): real
    requires slot in d.positions
  {
    MarginRelease(d.positions[slot].margin, size, d.positions[slot].size)
  }

  /** The margin to be given back is always frozen: only a release that rounds to nothing and a
      reference already used, which is the position's own id, can refuse it. */
  lemma MarginIsThere(
    d: Desk, contracts: map<string, Contract>, other: (string, string) -> real, slot: Slot, size: real)
    requires DeskInv(d, contracts, other) && Closable(d, slot, size)
    ensures Unfreeze(d.ledger, slot.0, contracts[slot.1].quote, ReleaseOf(d, slot, size), REF_TYPE,
                     d.positions[slot].id).Ok?
            <==> ReleaseOf(d, slot, size) > 0.0 && UnfreezeUnused(d.ledger.txns, d.positions[slot].id)
  {
    var p := d.positions[slot];
    MarginReleaseBounds(p.margin, size, p.size);
    MarginWithin(d.positions, contracts, slot);
    assert Frozen(d.ledger.balances, slot.0, contracts[slot.1].quote) >= p.margin;
  }

  /** A close that is done keeps frozen balances explained and margins on the grid; a refused one
      changes nothing; an interrupted one has lost the invariant by exactly the margin given back. */
  lemma CloseKeepsInv(
    d: Desk, contracts: map<string, Contract>, other: (string, string) -> real, slot: Slot, size: real, mark: real,
    house: string, tradeId: string)
    requires DeskInv(d, contracts, other) && Closable(d, slot, size)
    ensures var r := CloseSize(d, contracts, slot, size, mark, house, tradeId);
            && (r.outcome.Done? ==> DeskInv(r.desk, contracts, other))
            && (r.outcome.Refused? ==> r.desk == d)
            && (r.outcome.Interrupted? ==> !MarginExplained(r.desk, contracts, other))
  {
    var r := CloseSize(d, contracts, slot, size, mark, house, tradeId);
    if r.outcome.Done? {
      CloseDone(d, contracts, other, slot, size, mark, house, tradeId);
    } else if r.outcome.Interrupted? {
      var quote := contracts[slot.1].quote;
      CloseFrozen(d, contracts, slot, size, mark, house, tradeId, slot.0, quote);
      assert Frozen(r.desk.ledger.balances, slot.0, quote) <
             OpenMargin(d.positions, contracts, slot.0, quote) + other(slot.0, quote);
    }
  }

  /** Unless refused, a close lowers one frozen balance, by the margin given back. */
  lemma CloseFrozen(
    d: Desk, contracts: map<string, Contract>, slot: Slot, size: real, mark: real, house: string, tradeId: string,
    user: string, asset: string)
    requires slot in d.positions && !CloseSize(d, contracts, slot, size, mark, house, tradeId).outcome.Refused?
    ensures var r := CloseSize(d, contracts, slot, size, mark, house, tradeId);
            && slot.1 in contracts && ReleaseOf(d, slot, size) > 0.0
            && Frozen(r.desk.ledger.balances, user, asset) ==
               Frozen(d.ledger.balances, user, asset)
               - if (user, asset) == (slot.0, contracts[slot.1].quote) then ReleaseOf(d, slot, size) else 0.0
  {
    var p := d.positions[slot];
    var quote, release := contracts[slot.1].quote, ReleaseOf(d, slot, size);
    UnfreezeMoves(d.ledger, slot.0, quote, release, REF_TYPE, p.id, user, asset);
    var freed := Unfreeze(d.ledger, slot.0, quote, release, REF_TYPE, p.id).value;
    var pnl := ProfitOf(p, size, mark);
    if Book(freed, slot.0, house, pnl, tradeId).Ok? {
      BookKeepsFrozen(freed, slot.0, house, pnl, tradeId, user, asset);
    }
  }

  lemma CloseDone(
    d: Desk, contracts: map<string, Contract>, other: (string, string) -> real, slot: Slot, size: real, mark: real,
    house: string, tradeId: string)
    requires DeskInv(d, contracts, other) && Closable(d, slot, size)
    requires CloseSize(d, contracts, slot, size, mark, house, tradeId).outcome.Done?
    ensures DeskInv(CloseSize(d, contracts, slot, size, mark, house, tradeId).desk, contracts, other)
  {
    var r, p := CloseSize(d, contracts, slot, size, mark, house, tradeId), d.positions[slot];
    MarginReleaseBounds(p.margin, size, p.size);
    forall user, asset
      ensures Frozen(r.desk.ledger.balances, user, asset) ==
              OpenMargin(r.desk.positions, contracts, user, asset) + other(user, asset)
    {
      CloseFrozen(d, contracts, slot, size, mark, house, tradeId, user, asset);
      if p.size - size <= 0.0 {
        OpenMarginDelete(d.positions, contracts, slot, user, asset);
      } else {
        OpenMarginWrite(d.positions, contracts, slot, r.desk.positions[slot], user, asset);
      }
    }
  }

  /** What a close pays: its margin and profit to the user, the profit's opposite to the house, and
      nothing to anyone else. */
  lemma ClosePays(
    d: Desk, contracts: map<string, Contract>, slot: Slot, size: real, mark: real, house: string, tradeId: string,
    user: string, asset: string)
    requires slot in d.positions && !HasRef(d.ledger.txns, "trade", tradeId)
    requires CloseSize(d, contracts, slot, size, mark, house, tradeId).outcome.Done?
    ensures var r, p := CloseSize(d, contracts, slot, size, mark, house, tradeId), d.positions[slot];
            var pnl := ProfitOf(p, size, mark);
            Available(r.desk.ledger.balances, user, asset) ==
            Available(d.ledger.balances, user, asset)
            + (if (user, asset) == (slot.0, contracts[slot.1].quote) then ReleaseOf(d, slot, size) else 0.0)
            + (if (user, asset) == (slot.0, BOOKING) then pnl else 0.0)
            - (if (user, asset) == (house, BOOKING) then pnl else 0.0)
  {
    var p := d.positions[slot];
    var quote, release := contracts[slot.1].quote, ReleaseOf(d, slot, size);
    UnfreezeMoves(d.ledger, slot.0, quote, release, REF_TYPE, p.id, user, asset);
    var freed := Unfreeze(d.ledger, slot.0, quote, release, REF_TYPE, p.id).value;
    BookMoves(freed, slot.0, house, ProfitOf(p, size, mark), tradeId, user, asset);
  }

  /** A full close gives back exactly the margin that is left and deletes the position, although
      the margin is computed by a rounded division; every other position is untouched. */
  lemma FullCloseReturnsAll(
    d: Desk, contracts: map<string, Contract>, other: (string, string) -> real, slot: Slot, mark: real, house: string,
    tradeId: string)
    requires DeskInv(d, contracts, other) && slot in d.positions
    ensures var p := d.positions[slot];
            var r := CloseSize(d, contracts, slot, p.size, mark, house, tradeId);
            && ReleaseOf(d, slot, p.size) == p.margin
            && (r.outcome.Done? ==> r.desk.positions == d.positions - {slot})
            && r.outcome != Interrupted(RowCheck)
  {
    var p := d.positions[slot];
    MarginReleaseBounds(p.margin, p.size, p.size);
  }

  // ----- every sequence of requests ----------------------------------------------------------

  datatype World = World(desk: Desk, marks: map<string, real>)

  datatype Act =
    | OpenAct(slot: Slot, side: PositionSide, size: real, leverage: int, newId: string, freezeId: string)
    | CloseAct(slot: Slot, amount: Amount, tradeId: string)
    | LiquidateAct(slot: Slot, tradeId: string)
    | FundAct(slot: Slot, rate: real, tradeId: string)
    | MarkAct(symbol: string, price: real)

  function Do(w: World, contracts: map<string, Contract>, house: string, act: Act): Step {
    match act
    case OpenAct(slot, side, size, leverage, newId, freezeId) =>
      Open(w.desk, contracts, w.marks, slot, side, size, leverage, newId, freezeId)
    case CloseAct(slot, amount, tradeId) => Close(w.desk, contracts, w.marks, slot, amount, house, tradeId)
    case LiquidateAct(slot, tradeId) => Liquidate(w.desk, contracts, w.marks, slot, house, tradeId)
    case FundAct(slot, rate, tradeId) => ApplyFunding(w.desk, w.marks, slot, rate, house, tradeId)
    case MarkAct(symbol, price) => Step(Done, w.desk)
  }

  function After(w: World, contracts: map<string, Contract>, house: string, act: Act): World {
    World(Do(w, contracts, house, act).desk, if act.MarkAct? then w.marks[act.symbol := act.price] else w.marks)
  }

  function RunDesk(w: World, contracts: map<string, Contract>, house: string, acts: seq<Act>): World
    decreases |acts|
  {
    if acts == [] then w
    else After(RunDesk(w, contracts, house, acts[..|acts| - 1]), contracts, house, acts[|acts| - 1])
  }

  /** No request of the run stops half way, and every add uses a new freeze reference. */
  predicate Undisturbed(w: World, contracts: map<string, Contract>, house: string, acts: seq<Act>)
    decreases |acts|
  {
    acts == [] ||
    (var before, act := RunDesk(w, contracts, house, acts[..|acts| - 1]), acts[|acts| - 1];
     && Undisturbed(w, contracts, house, acts[..|acts| - 1])
     && !Do(before, contracts, house, act).outcome.Interrupted?
     && (act.OpenAct? ==> UnfreezeUnused(before.desk.ledger.txns, act.freezeId)))
  }

  lemma FundingKeepsInv(
    d: Desk, contracts: map<string, Contract>, marks: map<string, real>, other: (string, string) -> real, slot: Slot,
    rate: real, house: string, tradeId: string)
    requires DeskInv(d, contracts, other)
    ensures DeskInv(ApplyFunding(d, marks, slot, rate, house, tradeId).desk, contracts, other)
  {
    var r := ApplyFunding(d, marks, slot, rate, house, tradeId);
    if r.outcome.Done? {
      var p := d.positions[slot];
      forall user, asset
        ensures Frozen(r.desk.ledger.balances, user, asset) == Frozen(d.ledger.balances, user, asset)
      {
        BookKeepsFrozen(d.ledger, slot.0, house, FundingPayment(p.side, p.size, marks[slot.1], rate), tradeId, user,
                        asset);
      }
    }
  }

  /** Funding at a positive rate takes size times mark times rate from a long and gives it to a
      short; the house is on the other side. */
  lemma FundingPays(
    d: Desk, marks: map<string, real>, slot: Slot, rate: real, house: string, tradeId: string)
    requires slot in d.positions && slot.1 in marks && slot.0 != house && !HasRef(d.ledger.txns, "trade", tradeId)
    requires ApplyFunding(d, marks, slot, rate, house, tradeId).outcome == Done
    ensures var e, p := ApplyFunding(d, marks, slot, rate, house, tradeId).desk, d.positions[slot];
            var paid := p.size * marks[slot.1] * rate;
            && e.positions == d.positions
            && Available(e.ledger.balances, slot.0, BOOKING) ==
               (if p.side == Long then Available(d.ledger.balances, slot.0, BOOKING) - paid
                else Available(d.ledger.balances, slot.0, BOOKING) + paid)
            && Available(e.ledger.balances, house, BOOKING) ==
               (if p.side == Long then Available(d.ledger.balances, house, BOOKING) + paid
                else Available(d.ledger.balances, house, BOOKING) - paid)
  {
    var p := d.positions[slot];
    var payment := FundingPayment(p.side, p.size, marks[slot.1], rate);
    BookMoves(d.ledger, slot.0, house, payment, tradeId, slot.0, BOOKING);
    BookMoves(d.ledger, slot.0, house, payment, tradeId, house, BOOKING);
  }

  lemma StepKeepsDesk(
    w: World, contracts: map<string, Contract>, other: (string, string) -> real, house: string, act: Act)
    requires DeskInv(w.desk, contracts, other) && !Do(w, contracts, house, act).outcome.Interrupted?
    requires act.OpenAct? ==> UnfreezeUnused(w.desk.ledger.txns, act.freezeId)
    ensures DeskInv(Do(w, contracts, house, act).desk, contracts, other)
  {
    match act
    case OpenAct(slot, side, size, leverage, newId, freezeId) =>
      OpenKeepsInv(w.desk, contracts, w.marks, other, slot, side, size, leverage, newId, freezeId);
    case CloseAct(slot, amount, tradeId) =>
      if slot in w.desk.positions && slot.1 in w.marks && !(amount.Part? && amount.size <= 0.0) {
        var size := CloseAmount(w.desk.positions[slot], amount);
        CloseKeepsInv(w.desk, contracts, other, slot, size, w.marks[slot.1], house, tradeId);
      }
    case LiquidateAct(slot, tradeId) =>
      if slot in w.desk.positions && slot.1 in w.marks {
        CloseKeepsInv(w.desk, contracts, other, slot, w.desk.positions[slot].size, w.marks[slot.1], house, tradeId);
      }
    case FundAct(slot, rate, tradeId) =>
      FundingKeepsInv(w.desk, contracts, w.marks, other, slot, rate, house, tradeId);
    case MarkAct(symbol, price) =>
  }

  /** Over every run no request of which stops half way: margins stay on the grid, and each user's
      frozen balance is the sum of the open margins plus what was frozen for other reasons. */
  lemma {:induction false} RunKeepsDesk(
    w: World, contracts: map<string, Contract>, other: (string, string) -> real, house: string, acts: seq<Act>)
    requires DeskInv(w.desk, contracts, other) && Undisturbed(w, contracts, house, acts)
    ensures DeskInv(RunDesk(w, contracts, house, acts).desk, contracts, other)
    decreases |acts|
  {
    if acts != [] {
      RunKeepsDesk(w, contracts, other, house, acts[..|acts| - 1]);
      StepKeepsDesk(RunDesk(w, contracts, house, acts[..|acts| - 1]), contracts, other, house, acts[|acts| - 1]);
    }
  }

  // ----- one close per position id -------------------------------------------------------------

  /** The position's id has served as an unfreeze reference. */
  predicate Spent(d: Desk, slot: Slot) {
    slot in d.positions && !UnfreezeUnused(d.ledger.txns, d.positions[slot].id)
  }

  /** No request removes a transaction from the ledger. */
  lemma DoKeepsTxns(w: World, contracts: map<string, Contract>, house: string, act: Act, t: Txn)
    requires t in w.desk.ledger.txns
    ensures t in Do(w, contracts, house, act).desk.ledger.txns
  {
  }

  lemma DoKeepsRef(w: World, contracts: map<string, Contract>, house: string, act: Act, id: string)
    requires !UnfreezeUnused(w.desk.ledger.txns, id)
    ensures !UnfreezeUnused(Do(w, contracts, house, act).desk.ledger.txns, id)
  {
    var t :| t in w.desk.ledger.txns && t.refType == REF_TYPE && t.refId == FullRef(REF_TYPE, id, "unfreeze");
    DoKeepsTxns(w, contracts, house, act, t);
  }

  predicate NoSmaller(d: Desk, e: Desk, slot: Slot)
    requires slot in d.positions && slot in e.positions
  {
    var p, q := d.positions[slot], e.positions[slot];
    q.id == p.id && q.side == p.side && q.size >= p.size && q.margin >= p.margin
  }

  lemma SpentStep(w: World, contracts: map<string, Contract>, house: string, act: Act, slot: Slot)
    requires Spent(w.desk, slot)
    ensures Spent(Do(w, contracts, house, act).desk, slot)
    ensures NoSmaller(w.desk, Do(w, contracts, house, act).desk, slot)
    ensures (act.CloseAct? || act.LiquidateAct?) && act.slot == slot ==> Do(w, contracts, house, act).outcome.Refused?
  {
    DoKeepsRef(w, contracts, house, act, w.desk.positions[slot].id);
  }

  /** Once its id has been used to unfreeze, a position can never be closed or liquidated: whatever
      is requested and however prices move, it stays open with no less size and margin. */
  lemma {:induction false} SpentForever(
    w: World, contracts: map<string, Contract>, house: string, acts: seq<Act>, slot: Slot)
    requires Spent(w.desk, slot)
    ensures var end := RunDesk(w, contracts, house, acts).desk; Spent(end, slot) && NoSmaller(w.desk, end, slot)
    decreases |acts|
  {
    if acts != [] {
      SpentForever(w, contracts, house, acts[..|acts| - 1], slot);
      SpentStep(RunDesk(w, contracts, house, acts[..|acts| - 1]), contracts, house, acts[|acts| - 1], slot);
    }
  }

  /** A partial close spends the id: the rest of the position is stuck. */
  lemma PartialCloseSpends(w: World, contracts: map<string, Contract>, house: string, act: Act)
    requires act.CloseAct? && act.slot in w.desk.positions && Do(w, contracts, house, act).outcome.Done?
    ensures var e := Do(w, contracts, house, act).desk; act.slot in e.positions ==> Spent(e, act.slot)
  {
    var d, slot, e := w.desk, act.slot, Do(w, contracts, house, act).desk;
    var p := d.positions[slot];
    if slot in e.positions {
      var size := act.amount.size;
      var t := Txn(REF_TYPE, FullRef(REF_TYPE, p.id, "unfreeze"),
                   [Entry(slot.0, contracts[slot.1].quote, ReleaseOf(d, slot, size)),
                    Entry(slot.0, contracts[slot.1].quote, -ReleaseOf(d, slot, size))]);
      assert t in e.ledger.txns;
    }
  }

  // ----- conservation ----------------------------------------------------------------------------

  lemma FreezeHeld(s: Ledger, owner: string, held: string, amount: real, refType: string, id: string, asset: string)
    requires Freeze(s, owner, held, amount, refType, id).Ok?
    ensures Held(Freeze(s, owner, held, amount, refType, id).value.balances, asset) == Held(s.balances, asset)
  {
    HeldFallsByReleases(s, FreezeOp(owner, held, amount, refType, id), asset);
  }

  lemma UnfreezeHeld(s: Ledger, owner: string, held: string, amount: real, refType: string, id: string, asset: string)
    requires Unfreeze(s, owner, held, amount, refType, id).Ok?
    ensures Held(Unfreeze(s, owner, held, amount, refType, id).value.balances, asset) == Held(s.balances, asset)
  {
    HeldFallsByReleases(s, UnfreezeOp(owner, held, amount, refType, id), asset);
  }

  lemma BookHeld(s: Ledger, owner: string, house: string, amount: real, tradeId: string, asset: string)
    requires Book(s, owner, house, amount, tradeId).Ok?
    ensures Held(Book(s, owner, house, amount, tradeId).value.balances, asset) == Held(s.balances, asset)
  {
    if amount != 0.0 {
      HeldFallsByReleases(s, SettleOp(tradeId, BookLegs(owner, house, amount), []), asset);
    }
  }

  /** Whatever its outcome, a request neither creates nor destroys any of an asset: perpetual
      profit only moves between users and the house. */
  lemma DoConserves(w: World, contracts: map<string, Contract>, house: string, act: Act, asset: string)
    ensures Held(Do(w, contracts, house, act).desk.ledger.balances, asset) == Held(w.desk.ledger.balances, asset)
  {
    match act
    case OpenAct(slot, side, size, leverage, newId, freezeId) =>
      OpenConserves(w.desk, contracts, w.marks, slot, side, size, leverage, newId, freezeId, asset);
    case CloseAct(slot, amount, tradeId) =>
      if slot in w.desk.positions && slot.1 in w.marks {
        var size := CloseAmount(w.desk.positions[slot], amount);
        CloseConserves(w.desk, contracts, slot, size, w.marks[slot.1], house, tradeId, asset);
      }
    case LiquidateAct(slot, tradeId) =>
      if slot in w.desk.positions && slot.1 in w.marks {
        CloseConserves(w.desk, contracts, slot, w.desk.positions[slot].size, w.marks[slot.1], house, tradeId, asset);
      }
    case FundAct(slot, rate, tradeId) =>
      if ApplyFunding(w.desk, w.marks, slot, rate, house, tradeId).outcome.Done? {
        var p := w.desk.positions[slot];
        BookHeld(w.desk.ledger, slot.0, house, FundingPayment(p.side, p.size, w.marks[slot.1], rate), tradeId, asset);
      }
    case MarkAct(symbol, price) =>
  }

  lemma OpenConserves(
    d: Desk, contracts: map<string, Contract>, marks: map<string, real>, slot: Slot, side: PositionSide, size: real,
    leverage: int, newId: string, freezeId: string, asset: string)
    ensures Held(Open(d, contracts, marks, slot, side, size, leverage, newId, freezeId).desk.ledger.balances, asset) ==
            Held(d.ledger.balances, asset)
  {
    if slot.1 in contracts && slot.1 in marks {
      var margin, quote := MarginFor(size, marks[slot.1], leverage), contracts[slot.1].quote;
      var frozen := Freeze(d.ledger, slot.0, quote, margin, REF_TYPE, freezeId);
      if frozen.Ok? {
        FreezeHeld(d.ledger, slot.0, quote, margin, REF_TYPE, freezeId, asset);
        if Unfreeze(frozen.value, slot.0, quote, margin, REF_TYPE, freezeId).Ok? {
          UnfreezeHeld(frozen.value, slot.0, quote, margin, REF_TYPE, freezeId, asset);
        }
      }
    }
  }

  lemma CloseConserves(
    d: Desk, contracts: map<string, Contract>, slot: Slot, size: real, mark: real, house: string, tradeId: string,
    asset: string)
    requires slot in d.positions
    ensures Held(CloseSize(d, contracts, slot, size, mark, house, tradeId).desk.ledger.balances, asset) ==
            Held(d.ledger.balances, asset)
  {
    var r, p := CloseSize(d, contracts, slot, size, mark, house, tradeId), d.positions[slot];
    if !r.outcome.Refused? {
      var quote, release := contracts[slot.1].quote, ReleaseOf(d, slot, size);
      UnfreezeHeld(d.ledger, slot.0, quote, release, REF_TYPE, p.id, asset);
      var freed := Unfreeze(d.ledger, slot.0, quote, release, REF_TYPE, p.id).value;
      var pnl := ProfitOf(p, size, mark);
      if Book(freed, slot.0, house, pnl, tradeId).Ok? {
        BookHeld(freed, slot.0, house, pnl, tradeId, asset);
      }
    }
  }

  lemma {:induction false} RunConserves(
    w: World, contracts: map<string, Contract>, house: string, acts: seq<Act>, asset: string)
    ensures Held(RunDesk(w, contracts, house, acts).desk.ledger.balances, asset) == Held(w.desk.ledger.balances, asset)
    decreases |acts|
  {
    if acts != [] {
      RunConserves(w, contracts, house, acts[..|acts| - 1], asset);
      DoConserves(RunDesk(w, contracts, house, acts[..|acts| - 1]), contracts, house, acts[|acts| - 1], asset);
    }
  }
}
