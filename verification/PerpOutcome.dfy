/** When exactly a close is done, refused or stopped half way, and how a position's id gets spent. */
module PerpOutcome {
  import opened AccountLedger
  import opened AccountLedgerProof
  import opened Decimals
  import opened PerpDesk
  import opened PerpDeskProof
  import opened Perps
  import SettleProof

  // ----- booking profit ------------------------------------------------------------------------

  /** Both parties have a row, and whoever pays has the amount available; `extra` is what the user
      receives just before. */
  predicate CanBook(balances: map<Key, Account>, user: string, house: string, extra: real, amount: real) {
    amount == 0.0 ||
    (&& (user, BOOKING) in balances && (house, BOOKING) in balances
     && Available(balances, user, BOOKING) + extra + amount >= 0.0
     && (if user == house then Available(balances, user, BOOKING) + extra >= 0.0
         else Available(balances, house, BOOKING) >= amount))
  }

  /** Profit is booked exactly when its payer has it available. */
  lemma BooksExactly(s: Ledger, user: string, house: string, amount: real, tradeId: string)
    requires !HasRef(s.txns, "trade", tradeId)
    ensures Book(s, user, house, amount, tradeId).Ok? <==> CanBook(s.balances, user, house, 0.0, amount)
  {
    var first, second := Entry(user, BOOKING, amount), Entry(house, BOOKING, -amount);
    var legs := BookLegs(user, house, amount);
    assert legs == [first, second] && legs[1..] == [second] && [second][1..] == [];
    forall e | e in legs
      ensures AssetSum(legs, e.asset) == 0.0
    {
      TwoEntries(first, second, user, e.asset);
    }
    assert Balanced(legs);
    assert ApplyLegs(s.balances, legs) == TwoLegs(s.balances, first, second) by {
      UnfoldLegs(s.balances, first, second);
    }
  }

  function TwoLegs(balances: map<Key, Account>, first: Entry, second: Entry): Result<map<Key, Account>> {
    var next :- ApplyLeg(balances, first);
    ApplyLeg(next, second)
  }

  lemma UnfoldLegs(balances: map<Key, Account>, first: Entry, second: Entry)
    ensures ApplyLegs(balances, [first, second]) == TwoLegs(balances, first, second)
  {
    var legs := [first, second];
    assert legs[1..] == [second] && [second][1..] == [];
    var next := ApplyLeg(balances, first);
    if next.Ok? {
      var last := ApplyLeg(next.value, second);
      if last.Ok? {
        assert ApplyLegs(last.value, [second][1..]) == last;
      }
      assert ApplyLegs(next.value, [second]) == last;
    }
  }

  // ----- closing -------------------------------------------------------------------------------

  /** The position's margin share can be unfrozen. */
  predicate CanRelease(d: Desk, contracts: map<string, Contract>, slot: Slot, size: real)
    requires slot in d.positions && slot.1 in contracts
  {
    var release := ReleaseOf(d, slot, size);
    && release > 0.0 && Frozen(d.ledger.balances, slot.0, contracts[slot.1].quote) >= release
    && UnfreezeUnused(d.ledger.txns, d.positions[slot].id)
  }

  /** Released margin that counts towards a loss: that of a contract quoted in the booking asset. */
  function Cushion(d: Desk, contracts: map<string, Contract>, slot: Slot, size: real): real
    requires slot in d.positions && slot.1 in contracts
  {
    if contracts[slot.1].quote == BOOKING then ReleaseOf(d, slot, size) else 0.0
  }

  /** The profit can be booked once the margin is back, and what remains is a row the table takes. */
  predicate CanFinish(d: Desk, contracts: map<string, Contract>, slot: Slot, size: real, mark: real, house: string)
    requires slot in d.positions && slot.1 in contracts
  {
    var p := d.positions[slot];
    && CanBook(d.ledger.balances, slot.0, house, Cushion(d, contracts, slot, size), ProfitOf(p, size, mark))
    && (size == p.size || ReleaseOf(d, slot, size) < p.margin)
  }

  lemma ReleasesExactly(d: Desk, contracts: map<string, Contract>, slot: Slot, size: real)
    requires slot in d.positions && slot.1 in contracts
    ensures Unfreeze(d.ledger, slot.0, contracts[slot.1].quote, ReleaseOf(d, slot, size), REF_TYPE,
                     d.positions[slot].id).Ok?
            <==> CanRelease(d, contracts, slot, size)
  {
  }

  /** Booking after the release, in terms of the balances before it. */
  lemma BooksAfterRelease(
    d: Desk, contracts: map<string, Contract>, slot: Slot, size: real, mark: real, house: string, tradeId: string)
    requires slot in d.positions && slot.1 in contracts && CanRelease(d, contracts, slot, size)
    requires !HasRef(d.ledger.txns, "trade", tradeId)
    ensures var p := d.positions[slot];
            var freed := Unfreeze(d.ledger, slot.0, contracts[slot.1].quote, ReleaseOf(d, slot, size), REF_TYPE, p.id);
            && freed.Ok?
            && (Book(freed.value, slot.0, house, ProfitOf(p, size, mark), tradeId).Ok? <==>
                CanBook(d.ledger.balances, slot.0, house, Cushion(d, contracts, slot, size), ProfitOf(p, size, mark)))
  {
    var p := d.positions[slot];
    var quote, release := contracts[slot.1].quote, ReleaseOf(d, slot, size);
    ReleasesExactly(d, contracts, slot, size);
    var freed := Unfreeze(d.ledger, slot.0, quote, release, REF_TYPE, p.id).value;
    UnfreezeMoves(d.ledger, slot.0, quote, release, REF_TYPE, p.id, slot.0, BOOKING);
    UnfreezeMoves(d.ledger, slot.0, quote, release, REF_TYPE, p.id, house, BOOKING);
    BooksExactly(freed, slot.0, house, ProfitOf(p, size, mark), tradeId);
  }

  /** The three outcomes of a close, on any ledger. */
  lemma ClosesExactly(
    d: Desk, contracts: map<string, Contract>, slot: Slot, size: real, mark: real, house: string, tradeId: string)
    requires Closable(d, slot, size) && slot.1 in contracts && !HasRef(d.ledger.txns, "trade", tradeId)
    requires ReleaseOf(d, slot, size) <= d.positions[slot].margin
    ensures var outcome := CloseSize(d, contracts, slot, size, mark, house, tradeId).outcome;
            && (outcome.Refused? <==> !CanRelease(d, contracts, slot, size))
            && (outcome.Done?
                <==> CanRelease(d, contracts, slot, size) && CanFinish(d, contracts, slot, size, mark, house))
  {
    ReleasesExactly(d, contracts, slot, size);
    if CanRelease(d, contracts, slot, size) {
      BooksAfterRelease(d, contracts, slot, size, mark, house, tradeId);
    }
  }

  /** With the invariant the margin is there, so: a close is refused when nothing would be released
      or the position's id is spent; otherwise it is done exactly when the user, with the margin
      back, can pay a loss, the house can pay a profit, and a rest keeps some margin; and in all
      remaining cases it stops half way, with the margin already returned. */
  lemma CloseOutcome(
    d: Desk, contracts: map<string, Contract>, other: (string, string) -> real, slot: Slot, size: real, mark: real,
    house: string, tradeId: string)
    requires DeskInv(d, contracts, other) && NonNegative(d.ledger) && Closable(d, slot, size)
    requires slot.0 != house && !HasRef(d.ledger.txns, "trade", tradeId)
    ensures var p, quote := d.positions[slot], contracts[slot.1].quote;
            var release, pnl := ReleaseOf(d, slot, size), ProfitOf(p, size, mark);
            var outcome := CloseSize(d, contracts, slot, size, mark, house, tradeId).outcome;
            && (outcome.Refused? <==> release == 0.0 || !UnfreezeUnused(d.ledger.txns, p.id))
            && (outcome.Done? <==>
                  && release > 0.0 && UnfreezeUnused(d.ledger.txns, p.id)
                  && (pnl == 0.0
                      || (&& (slot.0, BOOKING) in d.ledger.balances && (house, BOOKING) in d.ledger.balances
                          && Available(d.ledger.balances, slot.0, BOOKING)
                             + (if quote == BOOKING then release else 0.0) + pnl >= 0.0
                          && Available(d.ledger.balances, house, BOOKING) >= pnl))
                  && (size == p.size || release < p.margin))
  {
    var p := d.positions[slot];
    MarginReleaseBounds(p.margin, size, p.size);
    MarginWithin(d.positions, contracts, slot);
    ClosesExactly(d, contracts, slot, size, mark, house, tradeId);
  }

  // ----- a liquidation that fails ----------------------------------------------------------------

  const ALICE_SLOT: Slot := ("alice", "BTC-PERP")

  function Contracts(): map<string, Contract> { map["BTC-PERP" := Contract("USDT", 20, 0.005)] }

  /** Long 1 at 100 with leverage 10; the margin of 10 is all the user has. */
  function AliceDesk(): Desk {
    Desk(map[ALICE_SLOT := PositionRow("p1", Long, 1.0, 100.0, 10, 10.0)],
         Ledger(map[("alice", "USDT") := Account(0.0, 10.0), ("house", "USDT") := Account(1000.0, 0.0)], []))
  }

  /** Liquidated at 80, the loss of 20 exceeds the margin of 10: the margin goes back to the user,
      the loss is not booked, the position stays, and its id is spent. */
  lemma UnderwaterKeepsMargin(tradeId: string)
    ensures var r := Liquidate(AliceDesk(), Contracts(), map["BTC-PERP" := 80.0], ALICE_SLOT, "house", tradeId);
            && r.outcome == Interrupted(AccountError(NegativeAvailable))
            && r.desk.positions == AliceDesk().positions
            && r.desk.ledger.balances[("alice", "USDT")] == Account(10.0, 0.0)
            && r.desk.ledger.balances[("house", "USDT")] == Account(1000.0, 0.0)
            && Spent(r.desk, ALICE_SLOT)
  {
    var d, p := AliceDesk(), AliceDesk().positions[ALICE_SLOT];
    WholeMargin(p.margin, p.size);
    var freed := Unfreeze(d.ledger, "alice", "USDT", 10.0, REF_TYPE, "p1").value;
    UnfoldLegs(freed.balances, Entry("alice", BOOKING, -20.0), Entry("house", BOOKING, 20.0));
    var t := Txn(REF_TYPE, FullRef(REF_TYPE, "p1", "unfreeze"),
                 [Entry("alice", "USDT", 10.0), Entry("alice", "USDT", -10.0)]);
    assert freed.txns == [t];
    assert t in freed.txns;
  }

  lemma WholeMargin(margin: real, size: real)
    requires margin == 10.0 && size == 1.0
    ensures MarginRelease(margin, size, size) == 10.0
  {
    assert 10.0 * GRID == 100000000000000000 as real;
    WholeOnGrid(10.0, 100000000000000000);
    MarginReleaseBounds(margin, size, size);
  }

  // ----- a partial close that strands the rest -----------------------------------------------------

  /** Closing half of that position at its entry price succeeds, and the other half is stuck. */
  lemma HalfCloseStrands(tradeId: string)
    ensures var w := World(AliceDesk(), map["BTC-PERP" := 100.0]);
            var act := CloseAct(ALICE_SLOT, Part(0.5), tradeId);
            var r := Do(w, Contracts(), "house", act);
            && r.outcome == Done && ALICE_SLOT in r.desk.positions
            && r.desk.positions[ALICE_SLOT].size == 0.5 && r.desk.positions[ALICE_SLOT].margin == 5.0
            && Spent(r.desk, ALICE_SLOT)
  {
    HalfMargin(10.0, 0.5, 1.0);
    var w := World(AliceDesk(), map["BTC-PERP" := 100.0]);
    var act := CloseAct(ALICE_SLOT, Part(0.5), tradeId);
    PartialCloseSpends(w, Contracts(), "house", act);
  }

  lemma HalfMargin(margin: real, closeSize: real, size: real)
    requires margin == 10.0 && closeSize == 0.5 && size == 1.0
    ensures MarginRelease(margin, closeSize, size) == 5.0
  {
    assert (margin * closeSize) / size == 5.0;
    assert 5.0 * GRID == 50000000000000000 as real;
    WholeOnGrid(5.0, 50000000000000000);
    RoundOnGrid(5.0);
  }

  // ----- a rounded release that takes everything ---------------------------------------------------

  /** A margin of one step of the sixteenth decimal: closing three quarters of the position returns
      all of it, and the quarter that remains is refused by the table's check on the margin. */
  lemma RoundedRestFails(tradeId: string)
    ensures var row := PositionRow("p1", Long, 2.0, 100.0, 10, 1.0 / GRID);
            var s := Ledger(map[("alice", "USDT") := Account(0.0, 1.0 / GRID)], []);
            var r := CloseSize(Desk(map[ALICE_SLOT := row], s), Contracts(), ALICE_SLOT, 1.5, 100.0, "house", tradeId);
            && r.outcome == Interrupted(RowCheck)
            && r.desk.positions == map[ALICE_SLOT := row]
            && r.desk.ledger.balances == map[("alice", "USDT") := Account(1.0 / GRID, 0.0)]
  {
    ThreeQuarters(1.0 / GRID, 1.5, 2.0);
    var balances := map[("alice", "USDT") := Account(0.0, 1.0 / GRID)];
    assert balances[("alice", "USDT") := Account(1.0 / GRID, 0.0)] ==
      map[("alice", "USDT") := Account(1.0 / GRID, 0.0)];
  }

  lemma ThreeQuarters(margin: real, closeSize: real, size: real)
    requires margin == 1.0 / GRID && closeSize == 1.5 && size == 2.0
    ensures MarginRelease(margin, closeSize, size) == 1.0 / GRID
  {
    var exact := (margin * closeSize) / size;
    assert exact * GRID == 0.75;
    assert (0.75 + 0.5).Floor == 1;
    assert RoundHalfAway(exact * GRID) == 1;
  }

  // ----- how an id gets spent ------------------------------------------------------------------------

  /** A close or liquidation of the position with this id that got as far as the unfreeze. */
  predicate Closes(w: World, contracts: map<string, Contract>, house: string, act: Act, id: string) {
    && (act.CloseAct? || act.LiquidateAct?)
    && act.slot in w.desk.positions && w.desk.positions[act.slot].id == id
    && !Do(w, contracts, house, act).outcome.Refused?
  }

  /** Ids drawn for an open are not in use, neither as a position's id nor as a reference. */
  predicate FreshIds(w: World, act: Act) {
    act.OpenAct? ==>
      && act.newId != act.freezeId && UnfreezeUnused(w.desk.ledger.txns, act.newId)
      && forall slot :: slot in w.desk.positions ==> w.desk.positions[slot].id !in {act.newId, act.freezeId}
  }

  predicate AlwaysFresh(w: World, contracts: map<string, Contract>, house: string, acts: seq<Act>)
    decreases |acts|
  {
    acts == [] ||
    (&& AlwaysFresh(w, contracts, house, acts[..|acts| - 1])
     && FreshIds(RunDesk(w, contracts, house, acts[..|acts| - 1]), acts[|acts| - 1]))
  }

  lemma FreezeKeepsUnused(s: Ledger, user: string, asset: string, amount: real, freezeId: string, id: string)
    requires Freeze(s, user, asset, amount, REF_TYPE, freezeId).Ok?
    ensures var t := Freeze(s, user, asset, amount, REF_TYPE, freezeId).value;
            UnfreezeUnused(t.txns, id) <==> UnfreezeUnused(s.txns, id)
  {
    var t := Freeze(s, user, asset, amount, REF_TYPE, freezeId).value;
    SettleProof.FreezeIsNotUnfreeze(REF_TYPE, freezeId, id);
    SettleProof.HasRefAppend(s.txns, t.txns[|s.txns|], REF_TYPE, FullRef(REF_TYPE, id, "unfreeze"));
  }

  lemma UnfreezeSpends(s: Ledger, user: string, asset: string, amount: real, spent: string, id: string)
    requires Unfreeze(s, user, asset, amount, REF_TYPE, spent).Ok?
    ensures var t := Unfreeze(s, user, asset, amount, REF_TYPE, spent).value;
            UnfreezeUnused(t.txns, id) <==> UnfreezeUnused(s.txns, id) && id != spent
  {
    var t := Unfreeze(s, user, asset, amount, REF_TYPE, spent).value;
    SettleProof.HasRefAppend(s.txns, t.txns[|s.txns|], REF_TYPE, FullRef(REF_TYPE, id, "unfreeze"));
    if FullRef(REF_TYPE, id, "unfreeze") == FullRef(REF_TYPE, spent, "unfreeze") {
      SettleProof.FullRefInjective(REF_TYPE, id, spent, "unfreeze");
    }
  }

  lemma BookKeepsUnused(s: Ledger, user: string, house: string, amount: real, tradeId: string, id: string)
    requires Book(s, user, house, amount, tradeId).Ok?
    ensures UnfreezeUnused(Book(s, user, house, amount, tradeId).value.txns, id) <==> UnfreezeUnused(s.txns, id)
  {
    var t := Book(s, user, house, amount, tradeId).value;
    if t != s {
      SettleProof.HasRefAppend(s.txns, t.txns[|s.txns|], REF_TYPE, FullRef(REF_TYPE, id, "unfreeze"));
    }
  }

  lemma OpenSpends(w: World, contracts: map<string, Contract>, house: string, act: Act, id: string)
    requires act.OpenAct? && id != act.freezeId
    ensures UnfreezeUnused(Do(w, contracts, house, act).desk.ledger.txns, id)
            <==> UnfreezeUnused(w.desk.ledger.txns, id)
  {
    var s, slot := w.desk.ledger, act.slot;
    if slot.1 in contracts && slot.1 in w.marks {
      var margin, quote := MarginFor(act.size, w.marks[slot.1], act.leverage), contracts[slot.1].quote;
      var frozen := Freeze(s, slot.0, quote, margin, REF_TYPE, act.freezeId);
      if frozen.Ok? {
        FreezeKeepsUnused(s, slot.0, quote, margin, act.freezeId, id);
        if Unfreeze(frozen.value, slot.0, quote, margin, REF_TYPE, act.freezeId).Ok? {
          UnfreezeSpends(frozen.value, slot.0, quote, margin, act.freezeId, id);
        }
      }
    }
  }

  lemma CloseSpends(
    d: Desk, contracts: map<string, Contract>, slot: Slot, size: real, mark: real, house: string, tradeId: string,
    id: string)
    requires slot in d.positions
    ensures var r := CloseSize(d, contracts, slot, size, mark, house, tradeId);
            UnfreezeUnused(r.desk.ledger.txns, id) <==>
            UnfreezeUnused(d.ledger.txns, id) && (r.outcome.Refused? || id != d.positions[slot].id)
  {
    var r, p := CloseSize(d, contracts, slot, size, mark, house, tradeId), d.positions[slot];
    if !r.outcome.Refused? {
      var quote, release := contracts[slot.1].quote, ReleaseOf(d, slot, size);
      UnfreezeSpends(d.ledger, slot.0, quote, release, p.id, id);
      var freed := Unfreeze(d.ledger, slot.0, quote, release, REF_TYPE, p.id).value;
      if Book(freed, slot.0, house, ProfitOf(p, size, mark), tradeId).Ok? {
        BookKeepsUnused(freed, slot.0, house, ProfitOf(p, size, mark), tradeId, id);
      }
    }
  }

  /** Which references one request uses up. */
  lemma DoSpends(w: World, contracts: map<string, Contract>, house: string, act: Act, id: string)
    requires act.OpenAct? ==> id != act.freezeId
    ensures UnfreezeUnused(Do(w, contracts, house, act).desk.ledger.txns, id) <==>
            UnfreezeUnused(w.desk.ledger.txns, id) && !Closes(w, contracts, house, act, id)
  {
    match act
    case OpenAct(_, _, _, _, _, _) =>
      OpenSpends(w, contracts, house, act, id);
    case CloseAct(slot, amount, tradeId) =>
      if slot in w.desk.positions && slot.1 in w.marks {
        CloseSpends(w.desk, contracts, slot, CloseAmount(w.desk.positions[slot], amount), w.marks[slot.1], house,
                    tradeId, id);
      }
    case LiquidateAct(slot, tradeId) =>
      if slot in w.desk.positions && slot.1 in w.marks {
        CloseSpends(w.desk, contracts, slot, w.desk.positions[slot].size, w.marks[slot.1], house, tradeId, id);
      }
    case FundAct(slot, rate, tradeId) =>
      if ApplyFunding(w.desk, w.marks, slot, rate, house, tradeId).outcome.Done? {
        var p := w.desk.positions[slot];
        BookKeepsUnused(w.desk.ledger, slot.0, house, FundingPayment(p.side, p.size, w.marks[slot.1], rate), tradeId,
                        id);
      }
    case MarkAct(_, _) =>
  }

  /** Somewhere in the run the position with this id was closed, in part or as a whole, at least up
      to the unfreeze. */
  predicate ClosedBefore(w: World, contracts: map<string, Contract>, house: string, acts: seq<Act>, id: string) {
    exists k :: 0 <= k < |acts| && ClosesAt(w, contracts, house, acts, k, id)
  }

  predicate ClosesAt(w: World, contracts: map<string, Contract>, house: string, acts: seq<Act>, k: nat, id: string)
    requires k < |acts|
  {
    Closes(RunDesk(w, contracts, house, acts[..k]), contracts, house, acts[k], id)
  }

  lemma ClosesAtPrefix(
    w: World, contracts: map<string, Contract>, house: string, acts: seq<Act>, n: nat, k: nat, id: string)
    requires k < n <= |acts|
    ensures ClosesAt(w, contracts, house, acts[..n], k, id) <==> ClosesAt(w, contracts, house, acts, k, id)
  {
    assert acts[..n][..k] == acts[..k];
  }

  lemma ClosedBeforeStep(w: World, contracts: map<string, Contract>, house: string, acts: seq<Act>, id: string)
    requires acts != []
    ensures var n := |acts| - 1;
            ClosedBefore(w, contracts, house, acts, id) <==>
            ClosedBefore(w, contracts, house, acts[..n], id)
            || Closes(RunDesk(w, contracts, house, acts[..n]), contracts, house, acts[n], id)
  {
    var n := |acts| - 1;
    forall k | 0 <= k < n
      ensures ClosesAt(w, contracts, house, acts[..n], k, id) <==> ClosesAt(w, contracts, house, acts, k, id)
    {
      ClosesAtPrefix(w, contracts, house, acts, n, k, id);
    }
    assert ClosesAt(w, contracts, house, acts, n, id)
           <==> Closes(RunDesk(w, contracts, house, acts[..n]), contracts, house, acts[n], id);
  }

  /** A request keeps the id of an open position, and opens new positions under unused ids only. */
  lemma IdKept(w: World, contracts: map<string, Contract>, house: string, act: Act, slot: Slot)
    requires FreshIds(w, act) && slot in Do(w, contracts, house, act).desk.positions
    ensures var id := Do(w, contracts, house, act).desk.positions[slot].id;
            && (act.OpenAct? ==> id != act.freezeId)
            && (if slot in w.desk.positions then w.desk.positions[slot].id == id
                else act.OpenAct? && id == act.newId && UnfreezeUnused(w.desk.ledger.txns, id)
                     && !Closes(w, contracts, house, act, id))
  {
  }

  /** In a run that starts without positions and draws fresh ids, an open position is spent if and
      only if it has been closed before, in part or in an attempt that stopped half way. */
  lemma {:induction false} SpentExactly(
    w: World, contracts: map<string, Contract>, house: string, acts: seq<Act>, slot: Slot)
    requires w.desk.positions == map[] && AlwaysFresh(w, contracts, house, acts)
    requires slot in RunDesk(w, contracts, house, acts).desk.positions
    ensures var end := RunDesk(w, contracts, house, acts).desk;
            Spent(end, slot) <==> ClosedBefore(w, contracts, house, acts, end.positions[slot].id)
    decreases |acts|
  {
    var n := |acts| - 1;
    var before := RunDesk(w, contracts, house, acts[..n]);
    var id := RunDesk(w, contracts, house, acts).desk.positions[slot].id;
    IdKept(before, contracts, house, acts[n], slot);
    DoSpends(before, contracts, house, acts[n], id);
    ClosedBeforeStep(w, contracts, house, acts, id);
    if slot in before.desk.positions {
      SpentExactly(w, contracts, house, acts[..n], slot);
    } else {
      UnusedNotClosed(w, contracts, house, acts[..n], id);
    }
  }

  /** A reference that is still unused has closed nothing. */
  lemma {:induction false} UnusedNotClosed(
    w: World, contracts: map<string, Contract>, house: string, acts: seq<Act>, id: string)
    requires UnfreezeUnused(RunDesk(w, contracts, house, acts).desk.ledger.txns, id)
    ensures !ClosedBefore(w, contracts, house, acts, id)
    decreases |acts|
  {
    if acts != [] {
      var n := |acts| - 1;
      var before := RunDesk(w, contracts, house, acts[..n]);
      ClosedBeforeStep(w, contracts, house, acts, id);
      if !UnfreezeUnused(before.desk.ledger.txns, id) {
        DoKeepsRef(before, contracts, house, acts[n], id);
      }
      UnusedNotClosed(w, contracts, house, acts[..n], id);
      if Closes(before, contracts, house, acts[n], id) {
        CloseUses(before, contracts, house, acts[n], id);
      }
    }
  }

  lemma CloseUses(w: World, contracts: map<string, Contract>, house: string, act: Act, id: string)
    requires Closes(w, contracts, house, act, id)
    ensures !UnfreezeUnused(Do(w, contracts, house, act).desk.ledger.txns, id)
  {
    DoSpends(w, contracts, house, act, id);
  }
}
