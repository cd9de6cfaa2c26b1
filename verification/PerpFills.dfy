/** The entry price of a position grown by any number of opens, as the engine stores it. */
module PerpFills {
  import opened Decimals
  import opened PerpDesk
  import opened PerpDeskProof
  import opened Perps

  /** What a single request adds to the slot's position. */
  function NewFills(w: World, contracts: map<string, Contract>, house: string, act: Act, slot: Slot): seq<Fill> {
    if act.OpenAct? && act.slot == slot && Do(w, contracts, house, act).outcome.Done?
    then [Fill(act.size, w.marks[slot.1])]
    else []
  }

  /** The fills of the opens of `slot` that were carried out during a run. */
  function FillsOf(w: World, contracts: map<string, Contract>, house: string, acts: seq<Act>, slot: Slot): seq<Fill>
    decreases |acts|
  {
    if acts == [] then []
    else
      var n := |acts| - 1;
      FillsOf(w, contracts, house, acts[..n], slot)
      + NewFills(RunDesk(w, contracts, house, acts[..n]), contracts, house, acts[n], slot)
  }

  /** The run neither closes nor liquidates the slot. */
  predicate OnlyGrows(acts: seq<Act>, slot: Slot) {
    forall act :: act in acts && (act.CloseAct? || act.LiquidateAct?) ==> act.slot != slot
  }

  predicate Tracks(positions: map<Slot, Position>, slot: Slot, fills: seq<Fill>) {
    if fills == [] then slot !in positions
    else slot in positions && positions[slot].size == SizeOf(fills) && positions[slot].entry == EntryOf(fills)
  }

  lemma OneMoreFill(fills: seq<Fill>, f: Fill)
    ensures SizeOf(fills + [f]) == SizeOf(fills) + f.size
    ensures EntryOf(fills + [f]) ==
            if fills == [] then f.mark else WeightedEntryPrice(SizeOf(fills), EntryOf(fills), f.size, f.mark)
  {
    assert (fills + [f])[..|fills|] == fills;
  }

  lemma GrownTracks(
    positions: map<Slot, Position>, slot: Slot, side: PositionSide, size: real, mark: real, leverage: int, margin: real,
    newId: string, fills: seq<Fill>)
    requires Tracks(positions, slot, fills)
    ensures var row := Grown(positions, slot, side, size, mark, leverage, margin, newId);
            var more := fills + [Fill(size, mark)];
            row.size == SizeOf(more) && row.entry == EntryOf(more)
  {
    OneMoreFill(fills, Fill(size, mark));
    if fills == [] {
      assert SizeOf(fills) == 0.0;
    }
  }

  /** A slot that starts empty and is only opened holds the size and the blended entry of exactly
      the fills carried out, whatever else the run does. */
  lemma {:induction false} PositionTracksFills(
    w: World, contracts: map<string, Contract>, house: string, acts: seq<Act>, slot: Slot)
    requires slot !in w.desk.positions && OnlyGrows(acts, slot)
    ensures Tracks(RunDesk(w, contracts, house, acts).desk.positions, slot, FillsOf(w, contracts, house, acts, slot))
    decreases |acts|
  {
    if acts != [] {
      var n := |acts| - 1;
      assert acts[n] in acts;
      assert forall act :: act in acts[..n] ==> act in acts;
      assert OnlyGrows(acts[..n], slot);
      PositionTracksFills(w, contracts, house, acts[..n], slot);
      FillStep(RunDesk(w, contracts, house, acts[..n]), contracts, house, acts[n], slot,
               FillsOf(w, contracts, house, acts[..n], slot));
    }
  }

  lemma FillStep(w: World, contracts: map<string, Contract>, house: string, act: Act, slot: Slot, fills: seq<Fill>)
    requires Tracks(w.desk.positions, slot, fills)
    requires act.CloseAct? || act.LiquidateAct? ==> act.slot != slot
    ensures Tracks(Do(w, contracts, house, act).desk.positions, slot, fills + NewFills(w, contracts, house, act, slot))
  {
    if act.OpenAct? && act.slot == slot && Do(w, contracts, house, act).outcome.Done? {
      var mark := w.marks[slot.1];
      var margin := InitialMargin(Notional(act.size, mark), act.leverage);
      GrownTracks(w.desk.positions, slot, act.side, act.size, mark, act.leverage, margin, act.newId, fills);
    } else {
      SlotKept(w, contracts, house, act, slot);
      assert fills + [] == fills;
    }
  }

  lemma SlotKept(w: World, contracts: map<string, Contract>, house: string, act: Act, slot: Slot)
    requires act.CloseAct? || act.LiquidateAct? ==> act.slot != slot
    requires !(act.OpenAct? && act.slot == slot && Do(w, contracts, house, act).outcome.Done?)
    ensures var p, q := w.desk.positions, Do(w, contracts, house, act).desk.positions;
            if slot in p then slot in q && q[slot] == p[slot] else slot !in q
  {
  }

  /** The stored entry lies between the lowest and the highest mark the position was opened at, and
      the profit it shows at any mark is the profit of its fills up to the slack of the running sizes. */
  lemma StoredEntryIsFair(
    w: World, contracts: map<string, Contract>, house: string, acts: seq<Act>, slot: Slot, mark: real, lo: real,
    hi: real)
    requires slot !in w.desk.positions && OnlyGrows(acts, slot)
    requires OnGrid(lo) && OnGrid(hi) && Proper(FillsOf(w, contracts, house, acts, slot), lo, hi)
    ensures var positions := RunDesk(w, contracts, house, acts).desk.positions;
            slot in positions ==>
              var p, fills := positions[slot], FillsOf(w, contracts, house, acts, slot);
              && lo <= p.entry <= hi
              && (var gap := UnrealizedPnL(p.side, p.size, p.entry, mark) - PnLByFill(p.side, fills, mark);
                  -Slack(RunningSizes(fills)) <= gap <= Slack(RunningSizes(fills)))
  {
    PositionTracksFills(w, contracts, house, acts, slot);
    var positions, fills := RunDesk(w, contracts, house, acts).desk.positions, FillsOf(w, contracts, house, acts, slot);
    if slot in positions {
      EntryWithinMarks(fills, lo, hi);
      PnLOfBlend(positions[slot].side, fills, mark, lo, hi);
    }
  }
}
