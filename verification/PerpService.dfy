/** The perpetual engine over its position table and the account store, and the scanner that calls
    it. Each method is its value-level step, run against the two tables. */
module PerpService {
  import opened AccountLedger
  import opened Accounts
  import opened Liquidation
  import opened PerpDesk
  import opened PerpDeskProof
  import opened Perps
  import ScanOutcome

  datatype Risk = Risk(pnl: real, equity: real, maintenance: real, ratio: real, liquidationRisk: bool)

  class PerpEngine {
    const account: AccountStore
    const contracts: map<string, Contract>
    const house: string
    var positions: map<Slot, Position>
    var marks: map<string, real>

    function State(): World
      reads this, account
    {
      World(Desk(positions, account.State()), marks)
    }

    constructor (account: AccountStore, contracts: map<string, Contract>, house: string)
      ensures this.account == account && this.contracts == contracts && this.house == house
      ensures positions == map[] && marks == map[]
    {
      this.account, this.contracts, this.house := account, contracts, house;
      positions, marks := map[], map[];
    }

    method SetMarkPrice(symbol: string, price: real)
      modifies this`marks
      ensures State() == After(old(State()), contracts, house, MarkAct(symbol, price))
      ensures marks == old(marks)[symbol := price]
    {
      marks := marks[symbol := price];
    }

    /** Insert or replace a row; the row checks decide. */
    method UpsertPosition(slot: Slot, row: PositionRow) returns (ok: bool)
      modifies this`positions
      ensures ok == Checked(row)
      ensures positions == if Checked(row) then old(positions)[slot := row] else old(positions)
    {
      ok := Checked(row);
      if ok {
        positions := positions[slot := row];
      }
    }

    method Open(slot: Slot, side: PositionSide, size: real, leverage: int, newId: string, freezeId: string)
      returns (r: Outcome)
      modifies this`positions, account
      ensures Step(r, State().desk) ==
              Do(old(State()), contracts, house, OpenAct(slot, side, size, leverage, newId, freezeId))
    {
      var symbol := slot.1;
      if symbol !in contracts {
        return Refused(UnknownMarket);
      }
      if leverage < 1 || leverage > contracts[symbol].maxLeverage {
        return Refused(BadLeverage);
      }
      if size <= 0.0 {
        return Refused(BadSize);
      }
      if symbol !in marks {
        return Refused(NoMark);
      }
      if slot in positions && positions[slot].side != side {
        return Refused(FlipSide);
      }
      var mark, quote := marks[symbol], contracts[symbol].quote;
      var margin := InitialMargin(Notional(size, mark), leverage);
      var frozen := account.Freeze(REF_TYPE, slot.0, quote, margin, freezeId);
      if frozen.Err? {
        return Refused(AccountError(frozen.failure));
      }
      var row := PositionRow(newId, side, size, mark, leverage, margin);
      if slot in positions {
        var p := positions[slot];
        row := PositionRow(p.id, p.side, p.size + size, WeightedEntryPrice(p.size, p.entry, size, mark), leverage,
                           p.margin + margin);
      }
      var saved := UpsertPosition(slot, row);
      if !saved {
        var ignored := account.Unfreeze(REF_TYPE, slot.0, quote, margin, freezeId);
        return Refused(RowCheck);
      }
      return Done;
    }

    method Close(slot: Slot, amount: Amount, tradeId: string) returns (r: Outcome, pnl: real)
      modifies this`positions, account
      ensures Step(r, State().desk) == Do(old(State()), contracts, house, CloseAct(slot, amount, tradeId))
    {
      if slot !in positions {
        return Refused(NoPosition), 0.0;
      }
      if slot.1 !in marks {
        return Refused(NoMark), 0.0;
      }
      var size := positions[slot].size;
      if amount.Part? {
        if amount.size <= 0.0 {
          return Refused(BadSize), 0.0;
        }
        if amount.size <= size {
          size := amount.size;
        }
      }
      r, pnl := CloseSize(slot, size, marks[slot.1], tradeId);
    }

    method Liquidate(slot: Slot, tradeId: string) returns (r: Outcome)
      modifies this`positions, account
      ensures Step(r, State().desk) == Do(old(State()), contracts, house, LiquidateAct(slot, tradeId))
    {
      if slot !in positions {
        return Refused(NoPosition);
      }
      if slot.1 !in marks {
        return Refused(NoMark);
      }
      var pnl;
      r, pnl := CloseSize(slot, positions[slot].size, marks[slot.1], tradeId);
    }

    method CloseSize(slot: Slot, size: real, mark: real, tradeId: string) returns (r: Outcome, pnl: real)
      requires slot in positions
      modifies this`positions, account
      ensures Step(r, State().desk) ==
              PerpDesk.CloseSize(old(State()).desk, contracts, slot, size, mark, house, tradeId)
      ensures r.Done? ==> var p := old(positions)[slot]; pnl == UnrealizedPnL(p.side, size, p.entry, mark)
    {
      if slot.1 !in contracts {
        return Refused(UnknownMarket), 0.0;
      }
      var p := positions[slot];
      pnl := UnrealizedPnL(p.side, size, p.entry, mark);
      var release := MarginRelease(p.margin, size, p.size);
      var freed := account.Unfreeze(REF_TYPE, slot.0, contracts[slot.1].quote, release, p.id);
      if freed.Err? {
        return Refused(AccountError(freed.failure)), 0.0;
      }
      if pnl != 0.0 {
        var booked := SettleBalanced(tradeId, slot.0, pnl);
        if booked.Err? {
          return Interrupted(AccountError(booked.failure)), 0.0;
        }
      }
      var kept := KeepRest(slot, p.size - size, p.margin - release);
      return if kept then Done else Interrupted(RowCheck), pnl;
    }

    /** Delete the closed position, or write the row of what is left of it. */
    method KeepRest(slot: Slot, remaining: real, margin: real) returns (ok: bool)
      requires slot in positions
      modifies this`positions
      ensures var p := old(positions)[slot];
              var row := PositionRow(p.id, p.side, remaining, p.entry, p.leverage, margin);
              && (ok <==> remaining <= 0.0 || Checked(row))
              && positions == if remaining <= 0.0 then old(positions) - {slot}
                              else if Checked(row) then old(positions)[slot := row] else old(positions)
    {
      var p := positions[slot];
      if remaining <= 0.0 {
        positions := positions - {slot};
        return true;
      }
      ok := UpsertPosition(slot, PositionRow(p.id, p.side, remaining, p.entry, p.leverage, margin));
    }

    method SettleBalanced(tradeId: string, user: string, amount: real) returns (r: Result<()>)
      modifies account
      ensures match Settle(old(account.State()), tradeId, BookLegs(user, house, amount), [])
              case Ok(s) => r == Ok(()) && account.State() == s
              case Err(failure) => r == Err(failure) && account.State() == old(account.State())
    {
      r := account.SettleTrade(tradeId, BookLegs(user, house, amount), []);
    }

    /** Margin health; the flag agrees with the scanner's test on the same row and mark. */
    method RiskForPosition(slot: Slot) returns (found: bool, risk: Risk)
      ensures found <==> slot in positions && slot.1 in contracts && slot.1 in marks
      ensures found ==>
                && var p, mark := positions[slot], marks[slot.1];
                && risk.pnl == (if p.side == Short then (p.entry - mark) * p.size else (mark - p.entry) * p.size)
                && risk.equity == p.margin + risk.pnl
                && risk.maintenance == p.size * mark * contracts[slot.1].maintRate
                && risk.ratio == RatioOf(p, contracts[slot.1], mark)
                && risk.ratio == MarginRatio(risk.equity, risk.maintenance)
                && (risk.maintenance == 0.0 ==> risk.ratio == 999.0)
                && (risk.liquidationRisk <==> AtRisk(Listed(slot, positions[slot]), contracts, marks))
                && (risk.liquidationRisk <==> BelowOne(p, contracts[slot.1].maintRate, mark))
    {
      if slot !in positions || slot.1 !in contracts || slot.1 !in marks {
        return false, Risk(0.0, 0.0, 0.0, 0.0, false);
      }
      var p, mark := positions[slot], marks[slot.1];
      var notional := Notional(p.size, mark);
      var pnl := UnrealizedPnL(p.side, p.size, p.entry, mark);
      var equity := Equity(p.margin, pnl);
      var maintenance := MaintenanceMargin(notional, contracts[slot.1].maintRate);
      var ratio := MarginRatio(equity, maintenance);
      AtRiskExactly(Listed(slot, p), contracts, marks);
      return true, Risk(pnl, equity, maintenance, ratio, ratio < 1.0);
    }

    method ApplyFunding(slot: Slot, rate: real, tradeId: string) returns (r: Outcome)
      modifies account
      ensures Step(r, State().desk) == Do(old(State()), contracts, house, FundAct(slot, rate, tradeId))
    {
      if slot !in positions {
        return Refused(NoPosition);
      }
      if slot.1 !in marks {
        return Refused(NoMark);
      }
      var p := positions[slot];
      var payment := FundingPayment(p.side, p.size, marks[slot.1], rate);
      if payment == 0.0 {
        return Done;
      }
      var booked := SettleBalanced(tradeId, slot.0, payment);
      return if booked.Err? then Refused(AccountError(booked.failure)) else Done;
    }
  }

  class Scanner {
    const engine: PerpEngine

    constructor (engine: PerpEngine)
      ensures this.engine == engine
    {
      this.engine := engine;
    }

    /** One listed row: liquidate it if it is below one; `done` tells whether that went through. */
    method Visit(l: Listed, tradeId: string) returns (done: bool)
      modifies engine`positions, engine.account
      ensures var w, act := old(engine.State()), LiquidateAct(l.slot, tradeId);
              if AtRisk(l, engine.contracts, w.marks) then
                && engine.State() == After(w, engine.contracts, engine.house, act)
                && done == Do(w, engine.contracts, engine.house, act).outcome.Done?
              else engine.State() == w && !done
    {
      if l.slot.1 !in engine.contracts || l.slot.1 !in engine.marks {
        return false;
      }
      var mark := engine.marks[l.slot.1];
      var pnl := UnrealizedPnL(l.row.side, l.row.size, l.row.entry, mark);
      var maintenance := MaintenanceMargin(Notional(l.row.size, mark), engine.contracts[l.slot.1].maintRate);
      if MarginRatio(Equity(l.row.margin, pnl), maintenance) >= 1.0 {
        return false;
      }
      var r := engine.Liquidate(l.slot, tradeId);
      return r.Done?;
    }

    /** One pass: liquidate what is below one, count what was liquidated, skip every failure. */
    method RunOnce(listing: seq<Listed>, tradeIds: nat -> string) returns (liquidated: nat)
      requires Lists(listing, engine.positions)
      modifies engine`positions, engine.account
      ensures var w, acts := old(engine.State()), ScanActs(listing, engine.contracts, old(engine.marks), tradeIds);
              && engine.State() == RunDesk(w, engine.contracts, engine.house, acts)
              && liquidated == CountDone(w, engine.contracts, engine.house, acts)
      ensures liquidated == |old(engine.positions)| - |engine.positions|
      ensures forall slot :: slot in old(engine.positions) && slot !in engine.positions ==>
                && AtRisk(Listed(slot, old(engine.positions)[slot]), engine.contracts, engine.marks)
                && BelowOne(old(engine.positions)[slot], engine.contracts[slot.1].maintRate, engine.marks[slot.1])
      ensures RowsOnGrid(old(engine.positions), engine.contracts)
              && ScanOutcome.FreshTrades(old(engine.account.txns), tradeIds) ==>
                forall i :: 0 <= i < |listing| ==>
                  (listing[i].slot !in engine.positions <==>
                   ScanOutcome.Falls(old(engine.State()), engine.contracts, engine.house, listing, tradeIds, i))
    {
      ghost var w := engine.State();
      liquidated := 0;
      for i := 0 to |listing|
        invariant engine.marks == w.marks
        invariant var acts := ScanActs(listing[..i], engine.contracts, w.marks, tradeIds);
                  && engine.State() == RunDesk(w, engine.contracts, engine.house, acts)
                  && liquidated == CountDone(w, engine.contracts, engine.house, acts)
      {
        ScanStep(w, engine.contracts, engine.house, listing, tradeIds, i);
        var done := Visit(listing[i], tradeIds(i));
        if done {
          liquidated := liquidated + 1;
        }
      }
      assert listing[..|listing|] == listing;
      ScanRemovesOnlyRisky(w, engine.contracts, engine.house, listing, tradeIds);
      forall slot | slot in w.desk.positions && slot !in engine.positions
        ensures AtRisk(Listed(slot, w.desk.positions[slot]), engine.contracts, engine.marks)
        ensures BelowOne(w.desk.positions[slot], engine.contracts[slot.1].maintRate, engine.marks[slot.1])
      {
        AtRiskExactly(Listed(slot, w.desk.positions[slot]), engine.contracts, engine.marks);
      }
      if RowsOnGrid(w.desk.positions, engine.contracts) && ScanOutcome.FreshTrades(w.desk.ledger.txns, tradeIds) {
        ScanOutcome.PassRemovesExactly(w, engine.contracts, engine.house, listing, tradeIds);
      }
    }
  }
}
