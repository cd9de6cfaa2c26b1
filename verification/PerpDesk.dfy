/** Perpetual positions on values: the table of open positions next to the account ledger, and what
    opening, closing, liquidating and funding do to both. */
module PerpDesk {
  import opened AccountLedger
  import opened Perps

  datatype Contract = Contract(quote: string, maxLeverage: int, maintRate: real)

  datatype PositionRow =
    PositionRow(id: string, side: PositionSide, size: real, entry: real, leverage: int, margin: real)

  /** The row checks of the position table. */
  predicate Checked(p: PositionRow) {
    p.size > 0.0 && p.margin > 0.0 && 1 <= p.leverage <= 100
  }

  type Position = p: PositionRow | Checked(p) witness PositionRow("", Long, 1.0, 1.0, 1, 1.0)

  /** One position per user and symbol. */
  type Slot = (string, string)

  datatype Desk = Desk(positions: map<Slot, Position>, ledger: Ledger)

  const REF_TYPE := "perp_margin"

  /** Profit and funding are always booked in this asset, whatever the contract's quote. */
  const BOOKING := "USDT"

  datatype Problem =
    | UnknownMarket | BadLeverage | BadSize | NoMark | FlipSide | NoPosition
    | AccountError(failure: Failure) | RowCheck

  /** A refusal leaves the desk as it was, up to a freeze that is taken back; an interruption
      stops half way. */
  datatype Outcome = Done | Refused(problem: Problem) | Interrupted(problem: Problem)

  datatype Step = Step(outcome: Outcome, desk: Desk)

  // ----- opening ---------------------------------------------------------------------------

  /** The row written for an open: new, or the old one grown at the blended entry price and with
      the leverage of this request. */
  function Grown(positions: map<Slot, Position>, slot: Slot, side: PositionSide, size: real, mark: real,
                 leverage: int, margin: real, newId: string): PositionRow
  {
    if slot in positions then
      var p := positions[slot];
      PositionRow(p.id, p.side, p.size + size, WeightedEntryPrice(p.size, p.entry, size, mark), leverage,
                  p.margin + margin)
    else PositionRow(newId, side, size, mark, leverage, margin)
  }

  function MarginFor(size: real, mark: real, leverage: int): real {
    InitialMargin(Notional(size, mark), leverage)
  }

  function Open(d: Desk, contracts: map<string, Contract>, marks: map<string, real>, slot: Slot, side: PositionSide,
                size: real, leverage: int, newId: string, freezeId: string): Step
  {
    var symbol := slot.1;
    if symbol !in contracts then Step(Refused(UnknownMarket), d)
    else if leverage < 1 || leverage > contracts[symbol].maxLeverage then Step(Refused(BadLeverage), d)
    else if size <= 0.0 then Step(Refused(BadSize), d)
    else if symbol !in marks then Step(Refused(NoMark), d)
    else if slot in d.positions && d.positions[slot].side != side then Step(Refused(FlipSide), d)
    else
      var margin := MarginFor(size, marks[symbol], leverage);
      var quote := contracts[symbol].quote;
      var frozen := Freeze(d.ledger, slot.0, quote, margin, REF_TYPE, freezeId);
      if frozen.Err? then Step(Refused(AccountError(frozen.failure)), d)
      else
        var row := Grown(d.positions, slot, side, size, marks[symbol], leverage, margin, newId);
        if Checked(row) then Step(Done, Desk(d.positions[slot := row], frozen.value))
        else
          var undone := Unfreeze(frozen.value, slot.0, quote, margin, REF_TYPE, freezeId);
          Step(Refused(RowCheck), Desk(d.positions, if undone.Ok? then undone.value else frozen.value))
  }

  // ----- closing ---------------------------------------------------------------------------

  /** Two opposite legs between the user and the house, and no release. */
  function BookLegs(user: string, house: string, amount: real): seq<Entry> {
    [Entry(user, BOOKING, amount), Entry(house, BOOKING, -amount)]
  }

  /** Nothing is posted for an amount of zero. */
  function Book(s: Ledger, user: string, house: string, amount: real, tradeId: string): Result<Ledger> {
    if amount == 0.0 then Ok(s) else Settle(s, tradeId, BookLegs(user, house, amount), [])
  }

  function ProfitOf(p: Position, size: real, mark: real): real {
    UnrealizedPnL(p.side, size, p.entry, mark)
  }

  function CloseSize(d: Desk, contracts: map<string, Contract>, slot: Slot, size: real, mark: real, house: string,
                     tradeId: string): Step
    requires slot in d.positions
  {
    var p := d.positions[slot];
    if slot.1 !in contracts then Step(Refused(UnknownMarket), d)
    else
      var pnl := ProfitOf(p, size, mark);
      var release := MarginRelease(p.margin, size, p.size);
      var freed := Unfreeze(d.ledger, slot.0, contracts[slot.1].quote, release, REF_TYPE, p.id);
      if freed.Err? then Step(Refused(AccountError(freed.failure)), d)
      else
        var booked := Book(freed.value, slot.0, house, pnl, tradeId);
        if booked.Err? then Step(Interrupted(AccountError(booked.failure)), Desk(d.positions, freed.value))
        else if p.size - size <= 0.0 then Step(Done, Desk(d.positions - {slot}, booked.value))
        else
          var row := PositionRow(p.id, p.side, p.size - size, p.entry, p.leverage, p.margin - release);
          if Checked(row) then Step(Done, Desk(d.positions[slot := row], booked.value))
          else Step(Interrupted(RowCheck), Desk(d.positions, booked.value))
  }

  datatype Amount = Everything | Part(size: real)

  /** An amount beyond the position is the whole position. */
  function CloseAmount(p: Position, amount: Amount): real {
    if amount.Part? && amount.size <= p.size then amount.size else p.size
  }

  function Close(d: Desk, contracts: map<string, Contract>, marks: map<string, real>, slot: Slot, amount: Amount,
                 house: string, tradeId: string): Step
  {
    if slot !in d.positions then Step(Refused(NoPosition), d)
    else if slot.1 !in marks then Step(Refused(NoMark), d)
    else if amount.Part? && amount.size <= 0.0 then Step(Refused(BadSize), d)
    else CloseSize(d, contracts, slot, CloseAmount(d.positions[slot], amount), marks[slot.1], house, tradeId)
  }

  function Liquidate(d: Desk, contracts: map<string, Contract>, marks: map<string, real>, slot: Slot, house: string,
                     tradeId: string): Step
  {
    if slot !in d.positions then Step(Refused(NoPosition), d)
    else if slot.1 !in marks then Step(Refused(NoMark), d)
    else CloseSize(d, contracts, slot, d.positions[slot].size, marks[slot.1], house, tradeId)
  }

  // ----- funding ---------------------------------------------------------------------------

  function ApplyFunding(
    d: Desk, marks: map<string, real>, slot: Slot, rate: real, house: string, tradeId: string)
    : Step
  {
    if slot !in d.positions then Step(Refused(NoPosition), d)
    else if slot.1 !in marks then Step(Refused(NoMark), d)
    else
      var p := d.positions[slot];
      var booked := Book(d.ledger, slot.0, house, FundingPayment(p.side, p.size, marks[slot.1], rate), tradeId);
      if booked.Err? then Step(Refused(AccountError(booked.failure)), d)
      else Step(Done, Desk(d.positions, booked.value))
  }

  // ----- risk --------------------------------------------------------------------------------

  /** Both the risk report and the scanner compute this ratio. */
  function RatioOf(p: PositionRow, c: Contract, mark: real): real {
    RatioAt(p.side, p.size, p.entry, p.margin, c.maintRate, mark)
  }
}
