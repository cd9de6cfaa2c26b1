/** One pass of the liquidation scanner, as the requests it makes. */
module Liquidation {
  import opened Decimals
  import opened PerpDesk
  import opened PerpDeskProof
  import Perps

  /** A row of the listing the scanner works through. */
  datatype Listed = Listed(slot: Slot, row: Position)

  /** Below a ratio of one; without a market or a mark a position is passed over. */
  predicate AtRisk(l: Listed, contracts: map<string, Contract>, marks: map<string, real>) {
    && l.slot.1 in contracts && l.slot.1 in marks
    && !(RatioOf(l.row, contracts[l.slot.1], marks[l.slot.1]) >= 1.0)
  }

  /** Below one by more than the half step that rounding forgives; without a maintenance margin a
      position is never below. */
  predicate Insufficient(equity: real, maintenance: real) {
    maintenance != 0.0 && equity / maintenance < 1.0 - HALF_STEP
  }

  /** What `size` units of a position have gained, a long with a rising and a short with a falling
      price. */
  function Gain(p: PositionRow, size: real, mark: real): real {
    if p.side == Perps.Short then (p.entry - mark) * size else (mark - p.entry) * size
  }

  /** Margin and gain do not cover the maintenance margin. */
  predicate Uncovered(size: real, gain: real, margin: real, rate: real, mark: real) {
    Insufficient(margin + gain, size * mark * rate)
  }

  predicate BelowOne(p: PositionRow, rate: real, mark: real) {
    Uncovered(p.size, Gain(p, p.size, mark), p.margin, rate, mark)
  }

  /** The scanner's test, which is that of the margin arithmetic, on bare numbers. */
  lemma AtRiskExactly(l: Listed, contracts: map<string, Contract>, marks: map<string, real>)
    requires l.slot.1 in contracts && l.slot.1 in marks
    ensures AtRisk(l, contracts, marks) <==>
              Perps.Liquidates(l.row.side, l.row.size, l.row.entry, l.row.margin, contracts[l.slot.1].maintRate,
                               marks[l.slot.1])
    ensures AtRisk(l, contracts, marks) <==> BelowOne(l.row, contracts[l.slot.1].maintRate, marks[l.slot.1])
  {
    var p, rate, mark := l.row, contracts[l.slot.1].maintRate, marks[l.slot.1];
    var equity := Perps.Equity(p.margin, Perps.UnrealizedPnL(p.side, p.size, p.entry, mark));
    var maintenance := Perps.MaintenanceMargin(Perps.Notional(p.size, mark), rate);
    RatioBelowOne(equity, maintenance);
    SizedEquity(p, mark, equity);
    RiskNumbers(p.size, Gain(p, p.size, mark), p.margin, rate, mark, equity, maintenance);
  }

  lemma RiskNumbers(
    size: real, gain: real, margin: real, rate: real, mark: real, equity: real, maintenance: real)
    requires equity == margin + gain && maintenance == size * mark * rate
    ensures Uncovered(size, gain, margin, rate, mark) <==> Insufficient(equity, maintenance)
  {
  }

  lemma SizedEquity(p: PositionRow, mark: real, equity: real)
    requires equity == Perps.Equity(p.margin, Perps.UnrealizedPnL(p.side, p.size, p.entry, mark))
    ensures equity == p.margin + Gain(p, p.size, mark)
  {
  }

  lemma RatioBelowOne(equity: real, maintenance: real)
    ensures Perps.MarginRatio(equity, maintenance) < 1.0 <==> Insufficient(equity, maintenance)
    ensures maintenance != 0.0 ==>
              -HALF_STEP <= Perps.MarginRatio(equity, maintenance) - equity / maintenance <= HALF_STEP
  {
    if maintenance != 0.0 {
      RoundBelowOne(equity / maintenance);
      RoundError(equity / maintenance);
    }
  }

  function ScanActs(
    listing: seq<Listed>, contracts: map<string, Contract>, marks: map<string, real>, tradeIds: nat -> string)
    : seq<Act>
    decreases |listing|
  {
    if listing == [] then []
    else
      var n := |listing| - 1;
      ScanActs(listing[..n], contracts, marks, tradeIds)
      + if AtRisk(listing[n], contracts, marks) then [LiquidateAct(listing[n].slot, tradeIds(n))] else []
  }

  function CountDone(w: World, contracts: map<string, Contract>, house: string, acts: seq<Act>): nat
    decreases |acts|
  {
    if acts == [] then 0
    else
      var before := acts[..|acts| - 1];
      CountDone(w, contracts, house, before)
      + if Do(RunDesk(w, contracts, house, before), contracts, house, acts[|acts| - 1]).outcome.Done? then 1 else 0
  }

  /** The listing shows every open position, once. */
  predicate Lists(listing: seq<Listed>, positions: map<Slot, Position>) {
    && (forall l :: l in listing ==> l.slot in positions && positions[l.slot] == l.row)
    && (forall slot :: slot in positions ==> Listed(slot, positions[slot]) in listing)
    && (forall i, j :: 0 <= i < j < |listing| ==> listing[i].slot != listing[j].slot)
  }

  lemma {:induction false} ScanNamesRisky(
    listing: seq<Listed>, contracts: map<string, Contract>, marks: map<string, real>, tradeIds: nat -> string, act: Act)
    requires act in ScanActs(listing, contracts, marks, tradeIds)
    ensures act.LiquidateAct? && exists l :: l in listing && l.slot == act.slot && AtRisk(l, contracts, marks)
    decreases |listing|
  {
    var n := |listing| - 1;
    var last := listing[n];
    if act in ScanActs(listing[..n], contracts, marks, tradeIds) {
      ScanNamesRisky(listing[..n], contracts, marks, tradeIds, act);
      var l :| l in listing[..n] && l.slot == act.slot && AtRisk(l, contracts, marks);
      assert l in listing;
    } else {
      assert last in listing;
    }
  }

  /** Liquidations leave the positions they do not name alone, and the others are either closed as
      a whole or left as they were; the count is the number of positions gone. */
  lemma {:induction false} LiquidationsRemove(w: World, contracts: map<string, Contract>, house: string, acts: seq<Act>)
    requires forall act :: act in acts ==> act.LiquidateAct?
    ensures var p, q := w.desk.positions, RunDesk(w, contracts, house, acts).desk.positions;
            && (forall slot :: slot in q ==> slot in p && q[slot] == p[slot])
            && (forall slot :: slot in p && slot !in q ==> exists act :: act in acts && act.slot == slot)
            && CountDone(w, contracts, house, acts) == |p| - |q|
    decreases |acts|
  {
    if acts != [] {
      var n := |acts| - 1;
      var last := acts[n];
      assert forall act :: act in acts[..n] ==> act in acts;
      assert last in acts;
      LiquidationsRemove(w, contracts, house, acts[..n]);
      var before := RunDesk(w, contracts, house, acts[..n]);
      OneLiquidation(before, contracts, house, last);
      var p, b, q := w.desk.positions, before.desk.positions, RunDesk(w, contracts, house, acts).desk.positions;
      forall slot | slot in p && slot !in q
        ensures exists act :: act in acts && act.slot == slot
      {
        if slot !in b {
          var act :| act in acts[..n] && act.slot == slot;
          assert act in acts;
        } else {
          assert last.slot == slot;
        }
      }
    }
  }

  lemma OneLiquidation(w: World, contracts: map<string, Contract>, house: string, act: Act)
    requires act.LiquidateAct?
    ensures var r := Do(w, contracts, house, act);
            if r.outcome.Done? then
              act.slot in w.desk.positions && r.desk.positions == w.desk.positions - {act.slot}
              && |r.desk.positions| == |w.desk.positions| - 1
            else r.desk.positions == w.desk.positions
  {
    if act.slot in w.desk.positions {
      var p := w.desk.positions;
      assert |p - {act.slot}| == |p| - 1 by {
        assert p == (p - {act.slot})[act.slot := p[act.slot]];
      }
    }
  }

  /** A pass over the whole table: whatever else happens, a position it removes was at risk at the
      marks of the pass, the others are untouched, and it counts exactly the positions removed. */
  lemma ScanRemovesOnlyRisky(
    w: World, contracts: map<string, Contract>, house: string, listing: seq<Listed>, tradeIds: nat -> string)
    requires Lists(listing, w.desk.positions)
    ensures var acts := ScanActs(listing, contracts, w.marks, tradeIds);
            var p, q := w.desk.positions, RunDesk(w, contracts, house, acts).desk.positions;
            && (forall slot :: slot in q ==> slot in p && q[slot] == p[slot])
            && (forall slot :: slot in p && slot !in q ==> AtRisk(Listed(slot, p[slot]), contracts, w.marks))
            && CountDone(w, contracts, house, acts) == |p| - |q|
  {
    var acts := ScanActs(listing, contracts, w.marks, tradeIds);
    forall act | act in acts
      ensures act.LiquidateAct?
    {
      ScanNamesRisky(listing, contracts, w.marks, tradeIds, act);
    }
    LiquidationsRemove(w, contracts, house, acts);
    var p, q := w.desk.positions, RunDesk(w, contracts, house, acts).desk.positions;
    forall slot | slot in p && slot !in q
      ensures AtRisk(Listed(slot, p[slot]), contracts, w.marks)
    {
      var act :| act in acts && act.slot == slot;
      ScanNamesRisky(listing, contracts, w.marks, tradeIds, act);
    }
  }

  /** The scan of one more row. */
  lemma ScanStep(
    w: World, contracts: map<string, Contract>, house: string, listing: seq<Listed>, tradeIds: nat -> string, i: nat)
    requires i < |listing|
    ensures var acts := ScanActs(listing[..i], contracts, w.marks, tradeIds);
            var next := ScanActs(listing[..i + 1], contracts, w.marks, tradeIds);
            if AtRisk(listing[i], contracts, w.marks) then
              var before, act := RunDesk(w, contracts, house, acts), LiquidateAct(listing[i].slot, tradeIds(i));
              && RunDesk(w, contracts, house, next) == After(before, contracts, house, act)
              && CountDone(w, contracts, house, next) ==
                 CountDone(w, contracts, house, acts) + if Do(before, contracts, house, act).outcome.Done? then 1 else 0
            else next == acts
  {
    assert listing[..i + 1][..i] == listing[..i];
    var acts := ScanActs(listing[..i], contracts, w.marks, tradeIds);
    var next := ScanActs(listing[..i + 1], contracts, w.marks, tradeIds);
    if AtRisk(listing[i], contracts, w.marks) {
      assert next == acts + [LiquidateAct(listing[i].slot, tradeIds(i))];
      assert next[..|next| - 1] == acts;
    }
  }
}
