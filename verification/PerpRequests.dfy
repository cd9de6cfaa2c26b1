/** What each request to the perpetual engine needs and does, in bare sizes, marks and balances. */
module PerpRequests {
  import opened AccountLedger
  import opened AccountLedgerProof
  import opened Decimals
  import opened Liquidation
  import opened PerpDesk
  import opened PerpDeskProof
  import opened PerpOutcome
  import opened Perps

  // ----- closing ---------------------------------------------------------------------------------

  /** What a close took off the position's margin. */
  function Returned(d: Desk, e: Desk, slot: Slot): real
    requires slot in d.positions
  {
    d.positions[slot].margin - if slot in e.positions then e.positions[slot].margin else 0.0
  }

  /** `returned` is the share of `margin` that `size` of `whole` units have, up to half a step. */
  predicate InProportion(returned: real, margin: real, size: real, whole: real)
    requires whole != 0.0
  {
    -HALF_STEP <= returned - (margin * size) / whole <= HALF_STEP
  }

  lemma ReleaseInProportion(margin: real, size: real, whole: real)
    requires whole != 0.0
    ensures InProportion(MarginRelease(margin, size, whole), margin, size, whole)
  {
    RoundError((margin * size) / whole);
  }

  /** `size` units of the position are gone: all of it, and then it is deleted and all of its margin
      came back, or a part, and then the margin came back in proportion, up to half a step, and the
      rest stays as it was; no other position changed. */
  predicate Shrunk(d: Desk, e: Desk, slot: Slot, size: real)
    requires slot in d.positions
  {
    var p := d.positions[slot];
    && (if size >= p.size then e.positions == d.positions - {slot}
        else
          && slot in e.positions && e.positions == d.positions[slot := e.positions[slot]]
          && e.positions[slot] ==
             PositionRow(p.id, p.side, p.size - size, p.entry, p.leverage, e.positions[slot].margin)
          && InProportion(Returned(d, e, slot), p.margin, size, p.size))
  }

  /** The returned margin went from frozen to available, the gain came from the house, and nothing
      else moved. */
  ghost predicate PaidFor(d: Desk, e: Desk, contracts: map<string, Contract>, slot: Slot, house: string, gain: real)
    requires slot in d.positions && slot.1 in contracts
  {
    forall user, asset ::
      var margin := if user == slot.0 && asset == contracts[slot.1].quote then Returned(d, e, slot) else 0.0;
      && Frozen(e.ledger.balances, user, asset) == Frozen(d.ledger.balances, user, asset) - margin
      && Available(e.ledger.balances, user, asset) ==
         Available(d.ledger.balances, user, asset) + margin
         + (if user == slot.0 && asset == "USDT" then gain else 0.0)
         - (if user == house && asset == "USDT" then gain else 0.0)
  }

  /** The table after a close. */
  lemma CloseShrinks(
    d: Desk, contracts: map<string, Contract>, slot: Slot, size: real, mark: real, house: string, tradeId: string)
    requires slot in d.positions && 0.0 < size <= d.positions[slot].size && OnGrid(d.positions[slot].margin)
    requires CloseSize(d, contracts, slot, size, mark, house, tradeId).outcome.Done?
    ensures var e := CloseSize(d, contracts, slot, size, mark, house, tradeId).desk;
            Returned(d, e, slot) == ReleaseOf(d, slot, size) && Shrunk(d, e, slot, size)
  {
    var p := d.positions[slot];
    MarginReleaseBounds(p.margin, size, p.size);
    CloseRows(d, contracts, slot, size, mark, house, tradeId, ReleaseOf(d, slot, size));
    ReleaseInProportion(p.margin, size, p.size);
  }

  lemma CloseRows(
    d: Desk, contracts: map<string, Contract>, slot: Slot, size: real, mark: real, house: string, tradeId: string,
    release: real)
    requires slot in d.positions && release == ReleaseOf(d, slot, size)
    requires CloseSize(d, contracts, slot, size, mark, house, tradeId).outcome.Done?
    ensures var e, p := CloseSize(d, contracts, slot, size, mark, house, tradeId).desk, d.positions[slot];
            && slot.1 in contracts
            && if size >= p.size then e.positions == d.positions - {slot}
               else
                 && slot in e.positions && e.positions == d.positions[slot := e.positions[slot]]
                 && e.positions[slot] ==
                    PositionRow(p.id, p.side, p.size - size, p.entry, p.leverage, p.margin - release)
  {
  }

  lemma GainIsProfit(p: Position, size: real, mark: real)
    ensures Gain(p, size, mark) == ProfitOf(p, size, mark)
  {
  }

  lemma ClosesSize(
    d: Desk, contracts: map<string, Contract>, slot: Slot, size: real, mark: real, house: string, tradeId: string)
    requires slot in d.positions && 0.0 < size <= d.positions[slot].size && OnGrid(d.positions[slot].margin)
    requires !HasRef(d.ledger.txns, "trade", tradeId)
    requires CloseSize(d, contracts, slot, size, mark, house, tradeId).outcome.Done?
    ensures var e := CloseSize(d, contracts, slot, size, mark, house, tradeId).desk;
            && slot.1 in contracts && Shrunk(d, e, slot, size)
            && PaidFor(d, e, contracts, slot, house, Gain(d.positions[slot], size, mark))
  {
    CloseShrinks(d, contracts, slot, size, mark, house, tradeId);
    GainIsProfit(d.positions[slot], size, mark);
    ClosePaysGain(d, contracts, slot, size, mark, house, tradeId, Gain(d.positions[slot], size, mark));
  }

  lemma ClosePaysGain(
    d: Desk, contracts: map<string, Contract>, slot: Slot, size: real, mark: real, house: string, tradeId: string,
    gain: real)
    requires slot in d.positions && gain == ProfitOf(d.positions[slot], size, mark)
    requires !HasRef(d.ledger.txns, "trade", tradeId)
    requires CloseSize(d, contracts, slot, size, mark, house, tradeId).outcome.Done?
    requires Returned(d, CloseSize(d, contracts, slot, size, mark, house, tradeId).desk, slot) ==
             ReleaseOf(d, slot, size)
    ensures slot.1 in contracts
    ensures PaidFor(d, CloseSize(d, contracts, slot, size, mark, house, tradeId).desk, contracts, slot, house, gain)
  {
    var e := CloseSize(d, contracts, slot, size, mark, house, tradeId).desk;
    forall user, asset
      ensures var margin := if user == slot.0 && asset == contracts[slot.1].quote then Returned(d, e, slot) else 0.0;
              && Frozen(e.ledger.balances, user, asset) == Frozen(d.ledger.balances, user, asset) - margin
              && Available(e.ledger.balances, user, asset) ==
                 Available(d.ledger.balances, user, asset) + margin
                 + (if user == slot.0 && asset == "USDT" then gain else 0.0)
                 - (if user == house && asset == "USDT" then gain else 0.0)
    {
      CloseFrozen(d, contracts, slot, size, mark, house, tradeId, user, asset);
      ClosePays(d, contracts, slot, size, mark, house, tradeId, user, asset);
    }
  }

  /** A close that is done closes what was asked for, the whole position if nothing was named or more
      than there is, at the current mark. */
  lemma ClosesRequested(
    w: World, contracts: map<string, Contract>, house: string, slot: Slot, amount: Amount, tradeId: string)
    requires slot in w.desk.positions && OnGrid(w.desk.positions[slot].margin)
    requires !HasRef(w.desk.ledger.txns, "trade", tradeId)
    requires Do(w, contracts, house, CloseAct(slot, amount, tradeId)).outcome.Done?
    ensures var d, e := w.desk, Do(w, contracts, house, CloseAct(slot, amount, tradeId)).desk;
            var size := if amount.Part? && amount.size < d.positions[slot].size then amount.size
                        else d.positions[slot].size;
            && slot.1 in contracts && slot.1 in w.marks && (amount.Part? ==> amount.size > 0.0)
            && Shrunk(d, e, slot, size)
            && PaidFor(d, e, contracts, slot, house, Gain(d.positions[slot], size, w.marks[slot.1]))
  {
    var p := w.desk.positions[slot];
    var size := if amount.Part? && amount.size < p.size then amount.size else p.size;
    CloseIsSized(w, contracts, house, slot, amount, tradeId);
    ClosesSize(w.desk, contracts, slot, size, w.marks[slot.1], house, tradeId);
  }

  /** Why a close is refused before the account is asked, and what is closed otherwise. */
  lemma CloseIsSized(
    w: World, contracts: map<string, Contract>, house: string, slot: Slot, amount: Amount, tradeId: string)
    ensures Do(w, contracts, house, CloseAct(slot, amount, tradeId)) ==
            if slot !in w.desk.positions then Step(Refused(NoPosition), w.desk)
            else if slot.1 !in w.marks then Step(Refused(NoMark), w.desk)
            else if amount.Part? && amount.size <= 0.0 then Step(Refused(BadSize), w.desk)
            else
              var p := w.desk.positions[slot];
              CloseSize(w.desk, contracts, slot, if amount.Part? && amount.size < p.size then amount.size else p.size,
                        w.marks[slot.1], house, tradeId)
  {
  }

  /** A liquidation that is done removes the whole position and settles it at the current mark. */
  lemma LiquidatesWhole(w: World, contracts: map<string, Contract>, house: string, slot: Slot, tradeId: string)
    requires slot in w.desk.positions && OnGrid(w.desk.positions[slot].margin)
    requires !HasRef(w.desk.ledger.txns, "trade", tradeId)
    requires Do(w, contracts, house, LiquidateAct(slot, tradeId)).outcome.Done?
    ensures var d, e := w.desk, Do(w, contracts, house, LiquidateAct(slot, tradeId)).desk;
            && slot.1 in contracts && slot.1 in w.marks
            && e.positions == d.positions - {slot}
            && PaidFor(d, e, contracts, slot, house,
                       Gain(d.positions[slot], d.positions[slot].size, w.marks[slot.1]))
  {
    ClosesSize(w.desk, contracts, slot, w.desk.positions[slot].size, w.marks[slot.1], house, tradeId);
  }

  // ----- opening ---------------------------------------------------------------------------------

  /** An open or an add goes through if and only if the market and its mark are known, leverage and
      size are in range, the side is that of the position, and the user has the margin available
      under a reference that is not used yet. */
  lemma OpensExactly(
    d: Desk, contracts: map<string, Contract>, marks: map<string, real>, slot: Slot, side: PositionSide, size: real,
    leverage: int, newId: string, freezeId: string)
    ensures Open(d, contracts, marks, slot, side, size, leverage, newId, freezeId).outcome.Done? <==>
              && slot.1 in contracts && slot.1 in marks
              && 1 <= leverage <= contracts[slot.1].maxLeverage && leverage <= 100
              && size > 0.0 && (slot in d.positions ==> d.positions[slot].side == side)
              && var margin, key := MarginFor(size, marks[slot.1], leverage), (slot.0, contracts[slot.1].quote);
              && margin > 0.0 && key in d.ledger.balances && margin <= d.ledger.balances[key].available
              && !HasRef(d.ledger.txns, "perp_margin", "perp_margin" + ":" + freezeId + ":freeze")
  {
    if slot.1 in contracts && slot.1 in marks {
      FreezesExactly(d.ledger, slot.0, contracts[slot.1].quote, MarginFor(size, marks[slot.1], leverage), REF_TYPE,
                     freezeId);
    }
  }

  /** The checks before the account is asked, in their order. */
  lemma OpenRefusals(
    d: Desk, contracts: map<string, Contract>, marks: map<string, real>, slot: Slot, side: PositionSide, size: real,
    leverage: int, newId: string, freezeId: string)
    ensures var r := Open(d, contracts, marks, slot, side, size, leverage, newId, freezeId);
            var known := slot.1 in contracts;
            var inRange := known && 1 <= leverage <= contracts[slot.1].maxLeverage;
            && (r == Step(Refused(UnknownMarket), d) <==> !known)
            && (r == Step(Refused(BadLeverage), d) <==> known && !inRange)
            && (r == Step(Refused(BadSize), d) <==> inRange && size <= 0.0)
            && (r == Step(Refused(NoMark), d) <==> inRange && size > 0.0 && slot.1 !in marks)
            && (r == Step(Refused(FlipSide), d) <==>
                  inRange && size > 0.0 && slot.1 in marks && slot in d.positions && d.positions[slot].side != side)
  {
  }

  /** `entry` is the average of `e` and `m`, weighted by `s` and `t`, up to half a step. */
  predicate Averages(entry: real, s: real, e: real, t: real, m: real) {
    var error := entry * (s + t) - (s * e + t * m);
    -(HALF_STEP * (s + t)) <= error <= HALF_STEP * (s + t)
  }

  lemma EntryAverages(s: real, e: real, t: real, m: real)
    requires s > 0.0 && t > 0.0
    ensures Averages(WeightedEntryPrice(s, e, t, m), s, e, t, m)
  {
    BlendError(s, e, t, m);
  }

  /** What a carried out open leaves in the table: a new position at the mark, or the old one grown,
      at an entry that is the average of both, weighted by size, up to half a step. */
  lemma OpensAtMark(
    d: Desk, contracts: map<string, Contract>, marks: map<string, real>, slot: Slot, side: PositionSide, size: real,
    leverage: int, newId: string, freezeId: string)
    requires Open(d, contracts, marks, slot, side, size, leverage, newId, freezeId).outcome.Done?
    ensures var e := Open(d, contracts, marks, slot, side, size, leverage, newId, freezeId).desk;
            && slot in e.positions && slot.1 in marks && e.positions == d.positions[slot := e.positions[slot]]
            && (slot !in d.positions ==> e.positions[slot].size == size && e.positions[slot].entry == marks[slot.1])
            && (slot in d.positions ==>
                  var p, q := d.positions[slot], e.positions[slot];
                  q.size == p.size + size && Averages(q.entry, p.size, p.entry, size, marks[slot.1]))
  {
    if slot in d.positions {
      var p := d.positions[slot];
      EntryAverages(p.size, p.entry, size, marks[slot.1]);
    }
  }

  // ----- funding ---------------------------------------------------------------------------------

  /** Funding goes through if and only if position and mark are there and whoever pays can pay. */
  lemma FundsExactly(
    d: Desk, marks: map<string, real>, slot: Slot, rate: real, house: string, tradeId: string, payment: real)
    requires !HasRef(d.ledger.txns, "trade", tradeId)
    requires slot in d.positions && slot.1 in marks ==>
               payment == if d.positions[slot].side == Long then -(d.positions[slot].size * marks[slot.1] * rate)
                          else d.positions[slot].size * marks[slot.1] * rate
    ensures ApplyFunding(d, marks, slot, rate, house, tradeId).outcome.Done? <==>
              slot in d.positions && slot.1 in marks && CanBook(d.ledger.balances, slot.0, house, 0.0, payment)
  {
    if slot in d.positions && slot.1 in marks {
      var p := d.positions[slot];
      PaymentIs(p.side, p.size, marks[slot.1], rate, payment);
      BooksExactly(d.ledger, slot.0, house, payment, tradeId);
    }
  }

  lemma PaymentIs(side: PositionSide, size: real, mark: real, rate: real, payment: real)
    requires payment == if side == Long then -(size * mark * rate) else size * mark * rate
    ensures payment == FundingPayment(side, size, mark, rate)
  {
  }
}
