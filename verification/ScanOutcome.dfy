/** Which of the positions at risk a pass of the scanner removes. */
module ScanOutcome {
  import opened AccountLedger
  import opened AccountLedgerProof
  import opened Liquidation
  import opened PerpDesk
  import opened PerpDeskProof
  import opened PerpOutcome
  import opened Perps
  import Decimals
  import SettleProof

  /** What one row does to the desk: nothing if healthy, a liquidation if at risk. */
  function RowDone(
    d: Desk, marks: map<string, real>, contracts: map<string, Contract>, house: string, l: Listed, tradeId: string)
    : Desk
  {
    if AtRisk(l, contracts, marks) then Do(World(d, marks), contracts, house, LiquidateAct(l.slot, tradeId)).desk else d
  }

  /** The desk once the first `i` rows of the listing have been worked through. */
  function DeskAt(
    w: World, contracts: map<string, Contract>, house: string, listing: seq<Listed>, tradeIds: nat -> string, i: nat)
    : Desk
    requires i <= |listing|
    decreases i
  {
    if i == 0 then w.desk
    else RowDone(DeskAt(w, contracts, house, listing, tradeIds, i - 1), w.marks, contracts, house, listing[i - 1],
                 tradeIds(i - 1))
  }

  /** Row by row is the run of the pass's liquidation requests. */
  lemma {:induction false} PassIsRun(
    w: World, contracts: map<string, Contract>, house: string, listing: seq<Listed>, tradeIds: nat -> string, i: nat)
    requires i <= |listing|
    ensures RunDesk(w, contracts, house, ScanActs(listing[..i], contracts, w.marks, tradeIds)) ==
            World(DeskAt(w, contracts, house, listing, tradeIds, i), w.marks)
    decreases i
  {
    if i > 0 {
      PassIsRun(w, contracts, house, listing, tradeIds, i - 1);
      ScanStep(w, contracts, house, listing, tradeIds, i - 1);
    } else {
      assert listing[..0] == [];
    }
  }

  /** What of a listing the pass relies on: its rows are rows of the table, each once. */
  predicate RowsMatch(listing: seq<Listed>, positions: map<Slot, Position>) {
    && (forall k :: 0 <= k < |listing| ==> listing[k].slot in positions && positions[listing[k].slot] == listing[k].row)
    && (forall i, j :: 0 <= i < j < |listing| ==> listing[i].slot != listing[j].slot)
  }

  lemma ListsMatch(listing: seq<Listed>, positions: map<Slot, Position>)
    requires Lists(listing, positions)
    ensures RowsMatch(listing, positions)
  {
    forall k | 0 <= k < |listing|
      ensures listing[k].slot in positions && positions[listing[k].slot] == listing[k].row
    {
      assert listing[k] in listing;
    }
  }

  /** The trade ids of a pass are new and all different. */
  ghost predicate FreshTrades(txns: seq<Txn>, tradeIds: nat -> string) {
    && (forall i: nat, j: nat :: i != j ==> tradeIds(i) != tradeIds(j))
    && (forall i: nat :: !HasRef(txns, "trade", tradeIds(i)))
  }

  // ----- the listed rows during the pass -----------------------------------------------------------

  /** A row not yet reached is still as listed. */
  lemma {:induction false} StillListed(
    w: World, contracts: map<string, Contract>, house: string, listing: seq<Listed>, tradeIds: nat -> string, i: nat,
    k: nat)
    requires RowsMatch(listing, w.desk.positions) && i <= k < |listing|
    ensures var positions := DeskAt(w, contracts, house, listing, tradeIds, i).positions;
            listing[k].slot in positions && positions[listing[k].slot] == listing[k].row
    decreases i
  {
    if i > 0 {
      StillListed(w, contracts, house, listing, tradeIds, i - 1, k);
      assert listing[i - 1].slot != listing[k].slot;
      OtherRowsKept(DeskAt(w, contracts, house, listing, tradeIds, i - 1), w.marks, contracts, house, listing[i - 1],
                    tradeIds(i - 1), listing[k].slot);
    } else {
      assert listing[k] in listing;
    }
  }

  lemma OtherRowsKept(
    d: Desk, marks: map<string, real>, contracts: map<string, Contract>, house: string, l: Listed, tradeId: string,
    slot: Slot)
    requires l.slot != slot
    ensures var p, q := d.positions, RowDone(d, marks, contracts, house, l, tradeId).positions;
            (slot in q <==> slot in p) && (slot in p ==> q[slot] == p[slot])
  {
    OneLiquidation(World(d, marks), contracts, house, LiquidateAct(l.slot, tradeId));
  }

  /** Once a row has been worked through, the rest of the pass does not touch it. */
  lemma {:induction false} SettledRow(
    w: World, contracts: map<string, Contract>, house: string, listing: seq<Listed>, tradeIds: nat -> string, i: nat,
    j: nat)
    requires RowsMatch(listing, w.desk.positions) && i < j <= |listing|
    ensures listing[i].slot in DeskAt(w, contracts, house, listing, tradeIds, j).positions <==>
            listing[i].slot in DeskAt(w, contracts, house, listing, tradeIds, i + 1).positions
    decreases j
  {
    if j > i + 1 {
      SettledRow(w, contracts, house, listing, tradeIds, i, j - 1);
      assert listing[i].slot != listing[j - 1].slot;
      OtherRowsKept(DeskAt(w, contracts, house, listing, tradeIds, j - 1), w.marks, contracts, house, listing[j - 1],
                    tradeIds(j - 1), listing[i].slot);
    }
  }

  // ----- references --------------------------------------------------------------------------------

  lemma UnfreezeNoTrade(s: Ledger, user: string, asset: string, amount: real, spent: string, id: string)
    requires Unfreeze(s, user, asset, amount, REF_TYPE, spent).Ok?
    ensures HasRef(Unfreeze(s, user, asset, amount, REF_TYPE, spent).value.txns, "trade", id)
            <==> HasRef(s.txns, "trade", id)
  {
    var t := Unfreeze(s, user, asset, amount, REF_TYPE, spent).value;
    SettleProof.HasRefAppend(s.txns, t.txns[|s.txns|], "trade", id);
  }

  lemma BookOnlyTrade(s: Ledger, user: string, house: string, amount: real, tradeId: string, id: string)
    requires Book(s, user, house, amount, tradeId).Ok? && id != tradeId
    ensures HasRef(Book(s, user, house, amount, tradeId).value.txns, "trade", id) <==> HasRef(s.txns, "trade", id)
  {
    var t := Book(s, user, house, amount, tradeId).value;
    if t != s {
      SettleProof.HasRefAppend(s.txns, t.txns[|s.txns|], "trade", id);
    }
  }

  lemma LiquidateOnlyTrade(w: World, contracts: map<string, Contract>, house: string, act: Act, id: string)
    requires act.LiquidateAct? && id != act.tradeId
    ensures HasRef(Do(w, contracts, house, act).desk.ledger.txns, "trade", id)
            <==> HasRef(w.desk.ledger.txns, "trade", id)
  {
    var d, slot := w.desk, act.slot;
    if !Do(w, contracts, house, act).outcome.Refused? {
      var p := d.positions[slot];
      var quote, release := contracts[slot.1].quote, ReleaseOf(d, slot, p.size);
      var pnl := ProfitOf(p, p.size, w.marks[slot.1]);
      UnfreezeNoTrade(d.ledger, slot.0, quote, release, p.id, id);
      var freed := Unfreeze(d.ledger, slot.0, quote, release, REF_TYPE, p.id).value;
      if Book(freed, slot.0, house, pnl, act.tradeId).Ok? {
        BookOnlyTrade(freed, slot.0, house, pnl, act.tradeId, id);
      }
    }
  }

  lemma {:induction false} TradesAhead(
    w: World, contracts: map<string, Contract>, house: string, listing: seq<Listed>, tradeIds: nat -> string, i: nat,
    k: nat)
    requires FreshTrades(w.desk.ledger.txns, tradeIds) && i <= |listing| && i <= k
    ensures !HasRef(DeskAt(w, contracts, house, listing, tradeIds, i).ledger.txns, "trade", tradeIds(k))
    decreases i
  {
    if i > 0 {
      TradesAhead(w, contracts, house, listing, tradeIds, i - 1, k);
      var before := World(DeskAt(w, contracts, house, listing, tradeIds, i - 1), w.marks);
      LiquidateOnlyTrade(before, contracts, house, LiquidateAct(listing[i - 1].slot, tradeIds(i - 1)), tradeIds(k));
    }
  }

  /** The desk a pass leaves, as the scanner's requests produce it. */
  function AfterPass(
    w: World, contracts: map<string, Contract>, house: string, listing: seq<Listed>, tradeIds: nat -> string)
    : Desk
  {
    RunDesk(w, contracts, house, ScanActs(listing, contracts, w.marks, tradeIds)).desk
  }

  lemma PassEnds(
    w: World, contracts: map<string, Contract>, house: string, listing: seq<Listed>, tradeIds: nat -> string)
    ensures AfterPass(w, contracts, house, listing, tradeIds) ==
            DeskAt(w, contracts, house, listing, tradeIds, |listing|)
  {
    PassIsRun(w, contracts, house, listing, tradeIds, |listing|);
    assert listing[..|listing|] == listing;
  }

  // ----- the fate of a row, on the ledger it meets ---------------------------------------------------

  /** The whole position can be closed on this desk at this mark. */
  predicate CanClose(d: Desk, contracts: map<string, Contract>, slot: Slot, mark: real, house: string)
    requires slot in d.positions && slot.1 in contracts
  {
    var size := d.positions[slot].size;
    CanRelease(d, contracts, slot, size) && CanFinish(d, contracts, slot, size, mark, house)
  }

  /** A pass removes a position at risk if and only if its close completes on the ledger that the
      earlier liquidations left, whatever became of those. */
  lemma RemovedExactly(
    w: World, contracts: map<string, Contract>, house: string, listing: seq<Listed>, tradeIds: nat -> string, i: nat)
    requires RowsMatch(listing, w.desk.positions) && RowsOnGrid(w.desk.positions, contracts)
    requires FreshTrades(w.desk.ledger.txns, tradeIds)
    requires i < |listing| && AtRisk(listing[i], contracts, w.marks)
    ensures var l, d := listing[i], DeskAt(w, contracts, house, listing, tradeIds, i);
            && l.slot in d.positions && d.positions[l.slot] == l.row
            && (l.slot !in AfterPass(w, contracts, house, listing, tradeIds).positions <==>
                CanClose(d, contracts, l.slot, w.marks[l.slot.1], house))
  {
    var l := listing[i];
    StillListed(w, contracts, house, listing, tradeIds, i, i);
    TradesAhead(w, contracts, house, listing, tradeIds, i, i);
    SettledRow(w, contracts, house, listing, tradeIds, i, |listing|);
    PassEnds(w, contracts, house, listing, tradeIds);
    LiquidatesExactly(World(DeskAt(w, contracts, house, listing, tradeIds, i), w.marks), contracts, house, l.slot,
                      tradeIds(i));
  }

  /** The row at `i` is below one at the marks of the pass, and its close completes on the desk it
      meets. */
  predicate Falls(
    w: World, contracts: map<string, Contract>, house: string, listing: seq<Listed>, tradeIds: nat -> string, i: nat)
    requires i < |listing|
  {
    var l, d := listing[i], DeskAt(w, contracts, house, listing, tradeIds, i);
    && l.slot.1 in contracts && l.slot.1 in w.marks && l.slot in d.positions
    && BelowOne(l.row, contracts[l.slot.1].maintRate, w.marks[l.slot.1])
    && CanClose(d, contracts, l.slot, w.marks[l.slot.1], house)
  }

  /** Over a listing of the whole table: the positions gone after the pass are exactly those at risk
      whose close completed. */
  lemma PassRemovesExactly(
    w: World, contracts: map<string, Contract>, house: string, listing: seq<Listed>, tradeIds: nat -> string)
    requires Lists(listing, w.desk.positions) && RowsOnGrid(w.desk.positions, contracts)
    requires FreshTrades(w.desk.ledger.txns, tradeIds)
    ensures var acts := ScanActs(listing, contracts, w.marks, tradeIds);
            forall i :: 0 <= i < |listing| ==>
              (listing[i].slot !in RunDesk(w, contracts, house, acts).desk.positions <==>
               Falls(w, contracts, house, listing, tradeIds, i))
  {
    ListsMatch(listing, w.desk.positions);
    ScanRemovesOnlyRisky(w, contracts, house, listing, tradeIds);
    forall i | 0 <= i < |listing|
      ensures listing[i].slot !in AfterPass(w, contracts, house, listing, tradeIds).positions <==>
              Falls(w, contracts, house, listing, tradeIds, i)
    {
      if listing[i].slot.1 in contracts && listing[i].slot.1 in w.marks {
        AtRiskExactly(listing[i], contracts, w.marks);
      }
      if AtRisk(listing[i], contracts, w.marks) {
        RemovedExactly(w, contracts, house, listing, tradeIds, i);
      } else {
        assert Listed(listing[i].slot, w.desk.positions[listing[i].slot]) == listing[i];
      }
    }
  }

  lemma LiquidatesExactly(w: World, contracts: map<string, Contract>, house: string, slot: Slot, tradeId: string)
    requires slot in w.desk.positions && slot.1 in contracts && slot.1 in w.marks
    requires Decimals.OnGrid(w.desk.positions[slot].margin) && !HasRef(w.desk.ledger.txns, "trade", tradeId)
    ensures var r := Do(w, contracts, house, LiquidateAct(slot, tradeId));
            && ReleaseOf(w.desk, slot, w.desk.positions[slot].size) == w.desk.positions[slot].margin
            && (r.outcome.Done? <==> CanClose(w.desk, contracts, slot, w.marks[slot.1], house))
            && (r.outcome.Done? <==> slot !in r.desk.positions)
  {
    var p := w.desk.positions[slot];
    MarginReleaseBounds(p.margin, p.size, p.size);
    ClosesExactly(w.desk, contracts, slot, p.size, w.marks[slot.1], house, tradeId);
    OneLiquidation(w, contracts, house, LiquidateAct(slot, tradeId));
  }

  // ----- in terms of the balances before the pass ------------------------------------------------------

  /** Every listed user owns one position, none is the house, and ids are different. */
  predicate Separate(listing: seq<Listed>, house: string) {
    && (forall k :: 0 <= k < |listing| ==> listing[k].slot.0 != house)
    && (forall i, j :: 0 <= i < j < |listing| ==>
        listing[i].slot.0 != listing[j].slot.0 && listing[i].row.id != listing[j].row.id)
  }

  /** The position can be closed if the house has `left` available: its id is unused, its user can
      pay a loss out of the available balance and the margin, and the house can pay a profit. */
  predicate Covered(w: World, contracts: map<string, Contract>, house: string, l: Listed, left: real)
    requires AtRisk(l, contracts, w.marks)
  {
    var balances, pnl := w.desk.ledger.balances, ProfitOf(l.row, l.row.size, w.marks[l.slot.1]);
    && UnfreezeUnused(w.desk.ledger.txns, l.row.id)
    && (pnl == 0.0
        || (&& (l.slot.0, BOOKING) in balances && (house, BOOKING) in balances && left >= pnl
            && Available(balances, l.slot.0, BOOKING)
               + (if contracts[l.slot.1].quote == BOOKING then l.row.margin else 0.0) + pnl >= 0.0))
  }

  /** What the house has available after the first rows, computed from the balances before the pass. */
  function HouseLeft(w: World, contracts: map<string, Contract>, house: string, listing: seq<Listed>): real
    decreases |listing|
  {
    if listing == [] then Available(w.desk.ledger.balances, house, BOOKING)
    else
      var n := |listing| - 1;
      var left, l := HouseLeft(w, contracts, house, listing[..n]), listing[n];
      if AtRisk(l, contracts, w.marks) && Covered(w, contracts, house, l, left)
      then left - ProfitOf(l.row, l.row.size, w.marks[l.slot.1]) else left
  }

  /** A liquidation, however it ends, leaves the rows of third parties alone. */
  lemma LiquidateSpares(
    w: World, contracts: map<string, Contract>, house: string, act: Act, user: string, asset: string, id: string)
    requires act.LiquidateAct? && act.slot in w.desk.positions && act.slot.0 != house && user !in {act.slot.0, house}
    requires id != w.desk.positions[act.slot].id && !HasRef(w.desk.ledger.txns, "trade", act.tradeId)
    ensures var s, t := w.desk.ledger, Do(w, contracts, house, act).desk.ledger;
            && t.balances.Keys == s.balances.Keys
            && Available(t.balances, user, asset) == Available(s.balances, user, asset)
            && Frozen(t.balances, user, asset) == Frozen(s.balances, user, asset)
            && (UnfreezeUnused(t.txns, id) <==> UnfreezeUnused(s.txns, id))
  {
    var d, slot, r := w.desk, act.slot, Do(w, contracts, house, act);
    DoSpends(w, contracts, house, act, id);
    if !r.outcome.Refused? {
      var p := d.positions[slot];
      var quote, release := contracts[slot.1].quote, ReleaseOf(d, slot, p.size);
      var pnl := ProfitOf(p, p.size, w.marks[slot.1]);
      UnfreezeMoves(d.ledger, slot.0, quote, release, REF_TYPE, p.id, user, asset);
      UnfreezeNoTrade(d.ledger, slot.0, quote, release, p.id, act.tradeId);
      var freed := Unfreeze(d.ledger, slot.0, quote, release, REF_TYPE, p.id).value;
      if Book(freed, slot.0, house, pnl, act.tradeId).Ok? {
        BookMoves(freed, slot.0, house, pnl, act.tradeId, user, asset);
        BookKeepsKeys(freed, slot.0, house, pnl, act.tradeId);
      }
    }
  }

  lemma BookKeepsKeys(s: Ledger, user: string, house: string, amount: real, tradeId: string)
    requires Book(s, user, house, amount, tradeId).Ok?
    ensures Book(s, user, house, amount, tradeId).value.balances.Keys == s.balances.Keys
  {
    if amount != 0.0 && !HasRef(s.txns, "trade", tradeId) {
      SettleMoves(s, tradeId, BookLegs(user, house, amount), [], user, BOOKING);
    }
  }

  /** The house pays the profit of a liquidation that is done and nothing for any other. */
  lemma LiquidateHouse(w: World, contracts: map<string, Contract>, house: string, act: Act)
    requires act.LiquidateAct? && act.slot in w.desk.positions && act.slot.0 != house
    requires !HasRef(w.desk.ledger.txns, "trade", act.tradeId) && act.slot.1 in w.marks
    requires var r := Do(w, contracts, house, act); r.outcome != Interrupted(RowCheck)
    ensures var r, p := Do(w, contracts, house, act), w.desk.positions[act.slot];
            Available(r.desk.ledger.balances, house, BOOKING) ==
            Available(w.desk.ledger.balances, house, BOOKING)
            - if r.outcome.Done? then ProfitOf(p, p.size, w.marks[act.slot.1]) else 0.0
  {
    var d, slot, r := w.desk, act.slot, Do(w, contracts, house, act);
    var p := d.positions[slot];
    if r.outcome.Done? {
      ClosePays(d, contracts, slot, p.size, w.marks[slot.1], house, act.tradeId, house, BOOKING);
    } else if r.outcome.Interrupted? {
      UnfreezeMoves(d.ledger, slot.0, contracts[slot.1].quote, ReleaseOf(d, slot, p.size), REF_TYPE, p.id, house,
                    BOOKING);
    }
  }

  /** What the rows still ahead of the pass will find is what was there before the pass. */
  ghost predicate Untouched(w: World, d: Desk, l: Listed) {
    && d.ledger.balances.Keys == w.desk.ledger.balances.Keys
    && (forall asset ::
        Available(d.ledger.balances, l.slot.0, asset) == Available(w.desk.ledger.balances, l.slot.0, asset))
    && (forall asset :: Frozen(d.ledger.balances, l.slot.0, asset) == Frozen(w.desk.ledger.balances, l.slot.0, asset))
    && (UnfreezeUnused(d.ledger.txns, l.row.id) <==> UnfreezeUnused(w.desk.ledger.txns, l.row.id))
  }

  lemma {:induction false} AheadUntouched(
    w: World, contracts: map<string, Contract>, house: string, listing: seq<Listed>, tradeIds: nat -> string, i: nat,
    k: nat)
    requires RowsMatch(listing, w.desk.positions) && Separate(listing, house)
             && FreshTrades(w.desk.ledger.txns, tradeIds)
    requires i <= k < |listing|
    ensures Untouched(w, DeskAt(w, contracts, house, listing, tradeIds, i), listing[k])
    decreases i
  {
    if i > 0 {
      var l, m := listing[k], listing[i - 1];
      AheadUntouched(w, contracts, house, listing, tradeIds, i - 1, k);
      StillListed(w, contracts, house, listing, tradeIds, i - 1, i - 1);
      TradesAhead(w, contracts, house, listing, tradeIds, i - 1, i - 1);
      RowUntouched(w, DeskAt(w, contracts, house, listing, tradeIds, i - 1), contracts, house, m, tradeIds(i - 1), l);
    }
  }

  lemma RowUntouched(
    w: World, d: Desk, contracts: map<string, Contract>, house: string, m: Listed, tradeId: string, l: Listed)
    requires Untouched(w, d, l) && m.slot in d.positions && d.positions[m.slot] == m.row
    requires m.slot.0 != house && l.slot.0 !in {m.slot.0, house} && l.row.id != m.row.id
    requires !HasRef(d.ledger.txns, "trade", tradeId)
    ensures Untouched(w, RowDone(d, w.marks, contracts, house, m, tradeId), l)
  {
    var before, act := World(d, w.marks), LiquidateAct(m.slot, tradeId);
    forall asset
      ensures var s, t := d.ledger, Do(before, contracts, house, act).desk.ledger;
              && Available(t.balances, l.slot.0, asset) == Available(s.balances, l.slot.0, asset)
              && Frozen(t.balances, l.slot.0, asset) == Frozen(s.balances, l.slot.0, asset)
    {
      LiquidateSpares(before, contracts, house, act, l.slot.0, asset, l.row.id);
    }
    LiquidateSpares(before, contracts, house, act, l.slot.0, BOOKING, l.row.id);
  }

  /** On untouched rows the close completes exactly when the starting balances cover it. */
  lemma CoveredIsClosable(
    w: World, d: Desk, contracts: map<string, Contract>, other: (string, string) -> real, house: string, l: Listed)
    requires DeskInv(w.desk, contracts, other) && AtRisk(l, contracts, w.marks) && l.slot.0 != house
    requires l.slot in w.desk.positions && w.desk.positions[l.slot] == l.row
    requires l.slot in d.positions && d.positions[l.slot] == l.row && Untouched(w, d, l)
    ensures CanClose(d, contracts, l.slot, w.marks[l.slot.1], house) <==>
            Covered(w, contracts, house, l, Available(d.ledger.balances, house, BOOKING))
  {
    MarginReleaseBounds(l.row.margin, l.row.size, l.row.size);
    MarginWithin(w.desk.positions, contracts, l.slot);
    assert Frozen(w.desk.ledger.balances, l.slot.0, contracts[l.slot.1].quote) >= l.row.margin;
    assert (l.slot.0, BOOKING) in d.ledger.balances <==> (l.slot.0, BOOKING) in d.ledger.balances.Keys;
    assert (house, BOOKING) in d.ledger.balances <==> (house, BOOKING) in d.ledger.balances.Keys;
  }

  lemma HouseByRow(
    w: World, d: Desk, contracts: map<string, Contract>, other: (string, string) -> real, house: string, l: Listed,
    tradeId: string)
    requires DeskInv(w.desk, contracts, other) && l.slot.0 != house
    requires l.slot in w.desk.positions && w.desk.positions[l.slot] == l.row
    requires l.slot in d.positions && d.positions[l.slot] == l.row && Untouched(w, d, l)
    requires !HasRef(d.ledger.txns, "trade", tradeId)
    ensures var left := Available(d.ledger.balances, house, BOOKING);
            Available(RowDone(d, w.marks, contracts, house, l, tradeId).ledger.balances, house, BOOKING) ==
            if AtRisk(l, contracts, w.marks) && Covered(w, contracts, house, l, left)
            then left - ProfitOf(l.row, l.row.size, w.marks[l.slot.1]) else left
  {
    if AtRisk(l, contracts, w.marks) {
      CoveredIsClosable(w, d, contracts, other, house, l);
      LiquidatesExactly(World(d, w.marks), contracts, house, l.slot, tradeId);
      LiquidateHouse(World(d, w.marks), contracts, house, LiquidateAct(l.slot, tradeId));
    }
  }

  lemma {:induction false} HouseDuringPass(
    w: World, contracts: map<string, Contract>, other: (string, string) -> real, house: string, listing: seq<Listed>,
    tradeIds: nat -> string, i: nat)
    requires DeskInv(w.desk, contracts, other) && RowsMatch(listing, w.desk.positions) && Separate(listing, house)
    requires FreshTrades(w.desk.ledger.txns, tradeIds) && i <= |listing|
    ensures Available(DeskAt(w, contracts, house, listing, tradeIds, i).ledger.balances, house, BOOKING) ==
            HouseLeft(w, contracts, house, listing[..i])
    decreases i
  {
    if i > 0 {
      var l := listing[i - 1];
      assert listing[..i][..i - 1] == listing[..i - 1];
      HouseDuringPass(w, contracts, other, house, listing, tradeIds, i - 1);
      AheadUntouched(w, contracts, house, listing, tradeIds, i - 1, i - 1);
      StillListed(w, contracts, house, listing, tradeIds, i - 1, i - 1);
      TradesAhead(w, contracts, house, listing, tradeIds, i - 1, i - 1);
      HouseByRow(w, DeskAt(w, contracts, house, listing, tradeIds, i - 1), contracts, other, house, l, tradeIds(i - 1));
    }
  }

  /** With one position for each user, a pass removes a position at risk if and only if the balances
      before the pass cover its close, the house paying in the order of the listing. */
  lemma RemovedByStartingBalances(
    w: World, contracts: map<string, Contract>, other: (string, string) -> real, house: string, listing: seq<Listed>,
    tradeIds: nat -> string, i: nat)
    requires DeskInv(w.desk, contracts, other) && RowsMatch(listing, w.desk.positions) && Separate(listing, house)
    requires FreshTrades(w.desk.ledger.txns, tradeIds) && i < |listing| && AtRisk(listing[i], contracts, w.marks)
    ensures listing[i].slot !in AfterPass(w, contracts, house, listing, tradeIds).positions <==>
            Covered(w, contracts, house, listing[i], HouseLeft(w, contracts, house, listing[..i]))
  {
    RemovedExactly(w, contracts, house, listing, tradeIds, i);
    AheadUntouched(w, contracts, house, listing, tradeIds, i, i);
    HouseDuringPass(w, contracts, other, house, listing, tradeIds, i);
    CoveredIsClosable(w, DeskAt(w, contracts, house, listing, tradeIds, i), contracts, other, house, listing[i]);
  }
}
