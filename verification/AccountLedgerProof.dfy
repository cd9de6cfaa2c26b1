/** What any sequence of account calls keeps, failed and replayed ones included. */
module AccountLedgerProof {
  import opened AccountLedger
  import opened RealSums

  datatype Op =
    | FreezeOp(user: string, asset: string, amount: real, refType: string, refId: string)
    | UnfreezeOp(user: string, asset: string, amount: real, refType: string, refId: string)
    | SettleOp(refId: string, legs: seq<Entry>, releases: seq<Entry>)

  function Exec(s: Ledger, op: Op): Result<Ledger> {
    match op
    case FreezeOp(user, asset, amount, refType, refId) => Freeze(s, user, asset, amount, refType, refId)
    case UnfreezeOp(user, asset, amount, refType, refId) => Unfreeze(s, user, asset, amount, refType, refId)
    case SettleOp(refId, legs, releases) => Settle(s, refId, legs, releases)
  }

  /** A failed transaction rolls back. */
  function Next(s: Ledger, op: Op): Ledger {
    match Exec(s, op)
    case Ok(t) => t
    case Err(_) => s
  }

  function Run(s: Ledger, ops: seq<Op>): Ledger
    decreases |ops|
  {
    if ops == [] then s else Next(Run(s, ops[..|ops| - 1]), ops[|ops| - 1])
  }

  /** The reference an operation is recorded under. */
  function Ref(op: Op): (string, string) {
    match op
    case FreezeOp(_, _, _, refType, refId) => (refType, FullRef(refType, refId, "freeze"))
    case UnfreezeOp(_, _, _, refType, refId) => (refType, FullRef(refType, refId, "unfreeze"))
    case SettleOp(refId, _, _) => ("trade", refId)
  }

  /** Did the operation change anything? */
  predicate Effective(s: Ledger, op: Op) { Next(s, op) != s }

  /** Collateral the operation takes out of a user's frozen balance for good. */
  function ReleasedBy(s: Ledger, op: Op, user: string, asset: string): real {
    if op.SettleOp? && Effective(s, op) then UserSum(op.releases, user, asset) else 0.0
  }

  function Released(s: Ledger, ops: seq<Op>, user: string, asset: string): real
    decreases |ops|
  {
    if ops == [] then 0.0
    else
      var n := |ops| - 1;
      Released(s, ops[..n], user, asset) + ReleasedBy(Run(s, ops[..n]), ops[n], user, asset)
  }

  function Posted(txns: seq<Txn>, user: string, asset: string): real {
    if txns == [] then 0.0
    else Posted(txns[..|txns| - 1], user, asset) + UserSum(txns[|txns| - 1].entries, user, asset)
  }

  function Holding(s: Ledger, user: string, asset: string): real {
    Available(s.balances, user, asset) + Frozen(s.balances, user, asset)
  }

  // ----- the invariant ---------------------------------------------------------------------

  predicate NonNegative(s: Ledger) {
    forall key :: key in s.balances ==> s.balances[key].available >= 0.0 && s.balances[key].frozen >= 0.0
  }

  predicate DistinctRefs(txns: seq<Txn>) {
    forall i, j :: 0 <= i < j < |txns| ==> (txns[i].refType, txns[i].refId) != (txns[j].refType, txns[j].refId)
  }

  ghost predicate ZeroSum(t: Txn) {
    forall asset :: AssetSum(t.entries, asset) == 0.0
  }

  ghost predicate Sound(s: Ledger) {
    NonNegative(s) && DistinctRefs(s.txns) && forall t :: t in s.txns ==> ZeroSum(t)
  }

  lemma {:induction false} AbsentAssetSums(entries: seq<Entry>, asset: string)
    requires forall e :: e in entries ==> e.asset != asset
    ensures AssetSum(entries, asset) == 0.0
  {
    if entries != [] {
      assert entries[0] in entries;
      AbsentAssetSums(entries[1..], asset);
    }
  }

  /** Checking the assets that occur is checking all assets. */
  lemma BalancedIsZeroSum(refType: string, refId: string, entries: seq<Entry>)
    requires Balanced(entries)
    ensures ZeroSum(Txn(refType, refId, entries))
  {
    forall asset
      ensures AssetSum(entries, asset) == 0.0
    {
      if e :| e in entries && e.asset == asset {
      } else {
        AbsentAssetSums(entries, asset);
      }
    }
  }

  /** Legs move available, and only available, by exactly what they say. */
  lemma {:induction false} LegsMove(balances: map<Key, Account>, legs: seq<Entry>, user: string, asset: string)
    requires ApplyLegs(balances, legs).Ok?
    ensures var after := ApplyLegs(balances, legs).value;
            && after.Keys == balances.Keys
            && Available(after, user, asset) == Available(balances, user, asset) + UserSum(legs, user, asset)
            && Frozen(after, user, asset) == Frozen(balances, user, asset)
            && (NonNegative(Ledger(balances, [])) ==> NonNegative(Ledger(after, [])))
    decreases |legs|
  {
    if legs != [] {
      LegsMove(ApplyLeg(balances, legs[0]).value, legs[1..], user, asset);
    }
  }

  lemma {:induction false} ReleasesMove(balances: map<Key, Account>, releases: seq<Entry>, user: string, asset: string)
    requires ApplyReleases(balances, releases).Ok?
    ensures var after := ApplyReleases(balances, releases).value;
            && after.Keys == balances.Keys
            && Available(after, user, asset) == Available(balances, user, asset)
            && Frozen(after, user, asset) == Frozen(balances, user, asset) - UserSum(releases, user, asset)
            && (NonNegative(Ledger(balances, [])) ==> NonNegative(Ledger(after, [])))
    decreases |releases|
  {
    if releases != [] {
      ReleasesMove(ApplyRelease(balances, releases[0]).value, releases[1..], user, asset);
    }
  }

  lemma SettleMoves(s: Ledger, refId: string, legs: seq<Entry>, releases: seq<Entry>, user: string, asset: string)
    requires !HasRef(s.txns, "trade", refId) && Settle(s, refId, legs, releases).Ok?
    ensures var t := Settle(s, refId, legs, releases).value;
            && t.balances.Keys == s.balances.Keys
            && Available(t.balances, user, asset) == Available(s.balances, user, asset) + UserSum(legs, user, asset)
            && Frozen(t.balances, user, asset) == Frozen(s.balances, user, asset) - UserSum(releases, user, asset)
            && (NonNegative(s) ==> NonNegative(t))
            && t.txns == s.txns + [Txn("trade", refId, legs)]
  {
    LegsMove(s.balances, legs, user, asset);
    ReleasesMove(ApplyLegs(s.balances, legs).value, releases, user, asset);
  }

  lemma TwoEntries(first: Entry, second: Entry, user: string, asset: string)
    ensures UserSum([first, second], user, asset) ==
            (if first.user == user && first.asset == asset then first.amount else 0.0)
            + (if second.user == user && second.asset == asset then second.amount else 0.0)
    ensures AssetSum([first, second], asset) ==
            (if first.asset == asset then first.amount else 0.0)
            + (if second.asset == asset then second.amount else 0.0)
  {
    var both, tail := [first, second], [second];
    assert both[1..] == tail && tail[1..] == [];
    assert UserSum(tail[1..], user, asset) == 0.0 && AssetSum(tail[1..], asset) == 0.0;
    assert UserSum(both, user, asset) ==
           (if first.user == user && first.asset == asset then first.amount else 0.0) + UserSum(tail, user, asset);
    assert AssetSum(both, asset) == (if first.asset == asset then first.amount else 0.0) + AssetSum(tail, asset);
  }

  lemma ShiftIsZeroSum(user: string, asset: string, toFrozen: real, refType: string, fullRef: string)
    ensures ZeroSum(Txn(refType, fullRef, [Entry(user, asset, -toFrozen), Entry(user, asset, toFrozen)]))
  {
    var entries := [Entry(user, asset, -toFrozen), Entry(user, asset, toFrozen)];
    forall a
      ensures AssetSum(entries, a) == 0.0
    {
      TwoEntries(Entry(user, asset, -toFrozen), Entry(user, asset, toFrozen), user, a);
    }
  }

  lemma NewRefDistinct(txns: seq<Txn>, t: Txn)
    requires DistinctRefs(txns) && !HasRef(txns, t.refType, t.refId)
    ensures DistinctRefs(txns + [t])
  {
    forall i | 0 <= i < |txns|
      ensures (txns[i].refType, txns[i].refId) != (t.refType, t.refId)
    {
      assert txns[i] in txns;
    }
  }

  /** An effective operation appends one zero-sum transaction under its own, unused reference. */
  lemma EffectiveAppends(s: Ledger, op: Op)
    requires Effective(s, op)
    ensures !HasRef(s.txns, Ref(op).0, Ref(op).1)
    ensures |Next(s, op).txns| == |s.txns| + 1 && Next(s, op).txns[..|s.txns|] == s.txns
    ensures var t := Next(s, op).txns[|s.txns|]; (t.refType, t.refId) == Ref(op) && ZeroSum(t)
  {
    match op
    case FreezeOp(user, asset, amount, refType, refId) =>
      ShiftIsZeroSum(user, asset, amount, refType, FullRef(refType, refId, "freeze"));
    case UnfreezeOp(user, asset, amount, refType, refId) =>
      ShiftIsZeroSum(user, asset, -amount, refType, FullRef(refType, refId, "unfreeze"));
    case SettleOp(refId, legs, releases) =>
      BalancedIsZeroSum("trade", refId, legs);
  }

  lemma StepKeepsSound(s: Ledger, op: Op)
    requires Sound(s)
    ensures Sound(Next(s, op)) && Next(s, op).balances.Keys == s.balances.Keys
  {
    if Effective(s, op) {
      EffectiveAppends(s, op);
      var t := Next(s, op);
      assert t.txns == s.txns + [t.txns[|s.txns|]];
      NewRefDistinct(s.txns, t.txns[|s.txns|]);
      if op.SettleOp? {
        SettleMoves(s, op.refId, op.legs, op.releases, "", "");
      }
    }
  }

  /** One operation changes a holding by what it posts less what it releases. */
  lemma StepAccounts(s: Ledger, op: Op, user: string, asset: string)
    ensures Holding(Next(s, op), user, asset) - Holding(s, user, asset) ==
            Posted(Next(s, op).txns, user, asset) - Posted(s.txns, user, asset) - ReleasedBy(s, op, user, asset)
  {
    if Effective(s, op) {
      EffectiveAppends(s, op);
      match op
      case FreezeOp(u, a, amount, refType, refId) =>
        TwoEntries(Entry(u, a, -amount), Entry(u, a, amount), user, asset);
      case UnfreezeOp(u, a, amount, refType, refId) =>
        TwoEntries(Entry(u, a, amount), Entry(u, a, -amount), user, asset);
      case SettleOp(refId, legs, releases) =>
        SettleMoves(s, refId, legs, releases, user, asset);
    }
  }

  // ----- when a call goes through ----------------------------------------------------------

  /** Any positive amount up to all that is available can be frozen, once for each reference; it
      moves from available to frozen of that one row, with two opposite entries. */
  lemma FreezesExactly(s: Ledger, user: string, asset: string, amount: real, refType: string, refId: string)
    ensures var r, ref := Freeze(s, user, asset, amount, refType, refId), refType + ":" + refId + ":freeze";
            && (r.Ok? <==>
                  && amount > 0.0 && (user, asset) in s.balances && amount <= s.balances[(user, asset)].available
                  && !HasRef(s.txns, refType, ref))
            && (r.Ok? ==> MovedToFrozen(s, r.value, user, asset, amount, refType, ref))
  {
    FullRefText(refType, refId, "freeze", ":freeze");
  }

  /** The same backwards, up to all that is frozen. */
  lemma UnfreezesExactly(s: Ledger, user: string, asset: string, amount: real, refType: string, refId: string)
    ensures var r, ref := Unfreeze(s, user, asset, amount, refType, refId), refType + ":" + refId + ":unfreeze";
            && (r.Ok? <==>
                  && amount > 0.0 && (user, asset) in s.balances && amount <= s.balances[(user, asset)].frozen
                  && !HasRef(s.txns, refType, ref))
            && (r.Ok? ==> MovedToFrozen(s, r.value, user, asset, -amount, refType, ref))
  {
    FullRefText(refType, refId, "unfreeze", ":unfreeze");
  }

  lemma FullRefText(refType: string, refId: string, suffix: string, tail: string)
    requires tail == ":" + suffix
    ensures FullRef(refType, refId, suffix) == refType + ":" + refId + tail
  {
  }

  ghost predicate MovedToFrozen(
    s: Ledger, t: Ledger, user: string, asset: string, amount: real, refType: string, ref: string)
  {
    && t.balances.Keys == s.balances.Keys
    && (forall u, a ::
          var moved := if u == user && a == asset then amount else 0.0;
          && Available(t.balances, u, a) == Available(s.balances, u, a) - moved
          && Frozen(t.balances, u, a) == Frozen(s.balances, u, a) + moved)
    && t.txns == s.txns + [Txn(refType, ref, [Entry(user, asset, -amount), Entry(user, asset, amount)])]
  }

  /** A settlement sent again, even with other legs, is accepted and does nothing. */
  lemma ReplayDoesNothing(
    s: Ledger, refId: string, legs: seq<Entry>, releases: seq<Entry>, legs': seq<Entry>, releases': seq<Entry>)
    requires Settle(s, refId, legs, releases).Ok?
    ensures var t := Settle(s, refId, legs, releases).value; Settle(t, refId, legs', releases') == Ok(t)
  {
    var t := Settle(s, refId, legs, releases).value;
    if !HasRef(s.txns, "trade", refId) {
      assert t.txns[|s.txns|] in t.txns;
    }
  }

  // ----- every sequence of calls -----------------------------------------------------------

  lemma {:induction false} RunKeepsSound(s: Ledger, ops: seq<Op>)
    requires Sound(s)
    ensures Sound(Run(s, ops)) && Run(s, ops).balances.Keys == s.balances.Keys
    decreases |ops|
  {
    if ops != [] {
      RunKeepsSound(s, ops[..|ops| - 1]);
      StepKeepsSound(Run(s, ops[..|ops| - 1]), ops[|ops| - 1]);
    }
  }

  /** For each user and asset: available plus frozen is the initial holding, plus the user's
      ledger entries since, minus the collateral released by settlements. */
  lemma {:induction false} RunAccounts(s: Ledger, ops: seq<Op>, user: string, asset: string)
    ensures Holding(Run(s, ops), user, asset) ==
            Holding(s, user, asset)
            + (Posted(Run(s, ops).txns, user, asset) - Posted(s.txns, user, asset))
            - Released(s, ops, user, asset)
    decreases |ops|
  {
    if ops != [] {
      var n := |ops| - 1;
      RunAccounts(s, ops[..n], user, asset);
      StepAccounts(Run(s, ops[..n]), ops[n], user, asset);
    }
  }

  lemma {:induction false} RefsStay(s: Ledger, ops: seq<Op>, n: nat, refType: string, refId: string)
    requires n <= |ops| && HasRef(Run(s, ops[..n]).txns, refType, refId)
    ensures HasRef(Run(s, ops).txns, refType, refId)
    decreases |ops|
  {
    if n < |ops| {
      var m := |ops| - 1;
      assert ops[..m][..n] == ops[..n];
      RefsStay(s, ops[..m], n, refType, refId);
      var before := Run(s, ops[..m]);
      if Effective(before, ops[m]) {
        EffectiveAppends(before, ops[m]);
        var t :| t in before.txns && t.refType == refType && t.refId == refId;
        var i :| 0 <= i < |before.txns| && before.txns[i] == t;
        assert Run(s, ops).txns[i] == t;
      }
    } else {
      assert ops[..n] == ops;
    }
  }

  /** Of all operations of a run that carry the same reference, at most one takes effect. */
  lemma AtMostOnce(s: Ledger, ops: seq<Op>, i: nat, j: nat)
    requires i < j < |ops| && Ref(ops[i]) == Ref(ops[j])
    requires Effective(Run(s, ops[..i]), ops[i])
    ensures !Effective(Run(s, ops[..j]), ops[j])
  {
    EffectiveAppends(Run(s, ops[..i]), ops[i]);
    assert ops[..i + 1][..i] == ops[..i];
    var after := Run(s, ops[..i + 1]);
    assert after.txns[|after.txns| - 1] in after.txns;
    assert HasRef(after.txns, Ref(ops[i]).0, Ref(ops[i]).1);
    assert ops[..j][..i + 1] == ops[..i + 1];
    RefsStay(s, ops[..j], i + 1, Ref(ops[i]).0, Ref(ops[i]).1);
    if Effective(Run(s, ops[..j]), ops[j]) {
      EffectiveAppends(Run(s, ops[..j]), ops[j]);
    }
  }

  // ----- all users together ----------------------------------------------------------------

  function HeldIn(key: Key, row: Account, asset: string): real {
    if key.1 == asset then row.available + row.frozen else 0.0
  }

  ghost function HeldRows(balances: map<Key, Account>, asset: string): map<Key, real> {
    map key | key in balances :: HeldIn(key, balances[key], asset)
  }

  /** Everything held in one asset, by all users. */
  ghost function Held(balances: map<Key, Account>, asset: string): real {
    SumOver(HeldRows(balances, asset))
  }

  lemma HeldWrite(balances: map<Key, Account>, asset: string, key: Key, row: Account)
    requires key in balances
    ensures Held(balances[key := row], asset) ==
            Held(balances, asset) - HeldIn(key, balances[key], asset) + HeldIn(key, row, asset)
  {
    SumWrite(HeldRows(balances, asset), key, HeldIn(key, row, asset));
    assert HeldRows(balances[key := row], asset) == HeldRows(balances, asset)[key := HeldIn(key, row, asset)];
  }

  lemma {:induction false} LegsHeld(balances: map<Key, Account>, legs: seq<Entry>, asset: string)
    requires ApplyLegs(balances, legs).Ok?
    ensures Held(ApplyLegs(balances, legs).value, asset) == Held(balances, asset) + AssetSum(legs, asset)
    decreases |legs|
  {
    if legs != [] {
      var next := ApplyLeg(balances, legs[0]).value;
      HeldWrite(balances, asset, (legs[0].user, legs[0].asset), next[(legs[0].user, legs[0].asset)]);
      LegsHeld(next, legs[1..], asset);
    }
  }

  lemma {:induction false} ReleasesHeld(balances: map<Key, Account>, releases: seq<Entry>, asset: string)
    requires ApplyReleases(balances, releases).Ok?
    ensures Held(ApplyReleases(balances, releases).value, asset) == Held(balances, asset) - AssetSum(releases, asset)
    decreases |releases|
  {
    if releases != [] {
      var next := ApplyRelease(balances, releases[0]).value;
      HeldWrite(balances, asset, (releases[0].user, releases[0].asset), next[(releases[0].user, releases[0].asset)]);
      ReleasesHeld(next, releases[1..], asset);
    }
  }

  /** Collateral an operation takes off the books, over all users. */
  function ReleasedTotal(s: Ledger, op: Op, asset: string): real {
    if op.SettleOp? && Effective(s, op) then AssetSum(op.releases, asset) else 0.0
  }

  /** Although every ledger transaction sums to zero, the balances of an asset are conserved by
      an operation exactly when it releases nothing of it: legs debit the available balance, and
      releases debit the frozen balance once more. */
  lemma HeldFallsByReleases(s: Ledger, op: Op, asset: string)
    ensures Held(Next(s, op).balances, asset) == Held(s.balances, asset) - ReleasedTotal(s, op, asset)
  {
    if Effective(s, op) {
      match op
      case FreezeOp(user, a, amount, _, _) =>
        HeldWrite(s.balances, asset, (user, a), Next(s, op).balances[(user, a)]);
      case UnfreezeOp(user, a, amount, _, _) =>
        HeldWrite(s.balances, asset, (user, a), Next(s, op).balances[(user, a)]);
      case SettleOp(refId, legs, releases) =>
        LegsHeld(s.balances, legs, asset);
        ReleasesHeld(ApplyLegs(s.balances, legs).value, releases, asset);
        BalancedIsZeroSum("trade", refId, legs);
        assert AssetSum(Txn("trade", refId, legs).entries, asset) == 0.0;
    }
  }
}
