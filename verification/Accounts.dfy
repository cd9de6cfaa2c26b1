/** The account store: each call is one transaction, computed on working copies and either
    committed to the tables or dropped. */
module Accounts {
  import opened AccountLedger

  class AccountStore {
    var balances: map<Key, Account>
    var txns: seq<Txn>

    function State(): Ledger
      reads this
    {
      Ledger(balances, txns)
    }

    constructor (initial: map<Key, Account>)
      ensures State() == Ledger(initial, [])
    {
      balances, txns := initial, [];
    }

    method Freeze(refType: string, user: string, asset: string, amount: real, refId: string) returns (r: Result<()>)
      modifies this
      ensures match AccountLedger.Freeze(old(State()), user, asset, amount, refType, refId)
              case Ok(s) => r == Ok(()) && State() == s
              case Err(failure) => r == Err(failure) && State() == old(State())
    {
      if amount <= 0.0 {
        return Err(InvalidAmount);
      }
      if (user, asset) !in balances || balances[(user, asset)].available < amount {
        return Err(InsufficientAvailable);
      }
      r := PostCollateral(user, asset, amount, refType, refId, "freeze");
    }

    method Unfreeze(refType: string, user: string, asset: string, amount: real, refId: string) returns (r: Result<()>)
      modifies this
      ensures match AccountLedger.Unfreeze(old(State()), user, asset, amount, refType, refId)
              case Ok(s) => r == Ok(()) && State() == s
              case Err(failure) => r == Err(failure) && State() == old(State())
    {
      if amount <= 0.0 {
        return Err(InvalidAmount);
      }
      if (user, asset) !in balances || balances[(user, asset)].frozen < amount {
        return Err(InsufficientFrozen);
      }
      r := PostCollateral(user, asset, -amount, refType, refId, "unfreeze");
    }

    /** Record the two entries under a reference that must be unused, and move the balance. */
    method PostCollateral(user: string, asset: string, toFrozen: real, refType: string, refId: string, suffix: string)
      returns (r: Result<()>)
      requires (user, asset) in balances && toFrozen != 0.0
      modifies this
      ensures var fullRef := FullRef(refType, refId, suffix);
              if HasRef(old(txns), refType, fullRef) then r == Err(DuplicateRef) && State() == old(State())
              else r == Ok(()) && State() == Shifted(old(State()), user, asset, toFrozen, refType, fullRef)
    {
      var fullRef := FullRef(refType, refId, suffix);
      var used := RefUsed(refType, fullRef);
      if used {
        return Err(DuplicateRef);
      }
      var row := balances[(user, asset)];
      balances := balances[(user, asset) := Account(row.available - toFrozen, row.frozen + toFrozen)];
      txns := txns + [Txn(refType, fullRef, [Entry(user, asset, -toFrozen), Entry(user, asset, toFrozen)])];
      return Ok(());
    }

    method RefUsed(refType: string, refId: string) returns (used: bool)
      ensures used == HasRef(txns, refType, refId)
    {
      for i := 0 to |txns|
        invariant forall j :: 0 <= j < i ==> !(txns[j].refType == refType && txns[j].refId == refId)
      {
        if txns[i].refType == refType && txns[i].refId == refId {
          assert txns[i] in txns;
          return true;
        }
      }
      return false;
    }

    method SettleTrade(refId: string, legs: seq<Entry>, releases: seq<Entry>) returns (r: Result<()>)
      modifies this
      ensures match Settle(old(State()), refId, legs, releases)
              case Ok(s) => r == Ok(()) && State() == s
              case Err(failure) => r == Err(failure) && State() == old(State())
    {
      var settled := RefUsed("trade", refId);
      if settled {
        return Ok(());
      }
      var credited := PostLegs(balances, legs);
      if credited.Err? {
        return Err(credited.failure);
      }
      var released := PostReleases(credited.value, releases);
      if released.Err? {
        return Err(released.failure);
      }
      var balanced := VerifyBalance(legs);
      if !balanced {
        return Err(Imbalance);
      }
      balances, txns := released.value, txns + [Txn("trade", refId, legs)];
      return Ok(());
    }
  }

  method PostLegs(start: map<Key, Account>, legs: seq<Entry>) returns (r: Result<map<Key, Account>>)
    ensures r == ApplyLegs(start, legs)
  {
    var working := start;
    for i := 0 to |legs|
      invariant ApplyLegs(start, legs) == ApplyLegs(working, legs[i..])
    {
      assert legs[i..][1..] == legs[i + 1..];
      var next := ApplyLeg(working, legs[i]);
      if next.Err? {
        return next;
      }
      working := next.value;
    }
    return Ok(working);
  }

  method PostReleases(start: map<Key, Account>, releases: seq<Entry>) returns (r: Result<map<Key, Account>>)
    ensures r == ApplyReleases(start, releases)
  {
    var working := start;
    for i := 0 to |releases|
      invariant ApplyReleases(start, releases) == ApplyReleases(working, releases[i..])
    {
      assert releases[i..][1..] == releases[i + 1..];
      var next := ApplyRelease(working, releases[i]);
      if next.Err? {
        return next;
      }
      working := next.value;
    }
    return Ok(working);
  }

  /** Sum the entries by asset, then look for a sum that is not zero. */
  method VerifyBalance(entries: seq<Entry>) returns (ok: bool)
    ensures ok == Balanced(entries)
  {
    var sums: map<string, real> := map[];
    for i := 0 to |entries|
      invariant forall a :: a in sums <==> exists j :: 0 <= j < i && entries[j].asset == a
      invariant forall a :: (if a in sums then sums[a] else 0.0) + AssetSum(entries[i..], a) == AssetSum(entries, a)
    {
      var e := entries[i];
      assert entries[i..][1..] == entries[i + 1..];
      sums := sums[e.asset := (if e.asset in sums then sums[e.asset] else 0.0) + e.amount];
    }
    assert forall a :: AssetSum(entries[|entries|..], a) == 0.0;
    ok := forall a :: a in sums ==> sums[a] == 0.0;
    if ok {
      forall e | e in entries
        ensures AssetSum(entries, e.asset) == 0.0
      {
        assert e.asset in sums;
      }
    } else {
      var a :| a in sums && sums[a] != 0.0;
      var j :| 0 <= j < |entries| && entries[j].asset == a;
      assert entries[j] in entries && AssetSum(entries, entries[j].asset) != 0.0;
    }
  }
}
