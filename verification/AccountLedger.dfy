/** The account service on values: balances, the append-only ledger with its unique references,
    and the three transactions that change them. */
module AccountLedger {

  datatype Account = Account(available: real, frozen: real)

  /** A balance row belongs to a user and an asset. */
  type Key = (string, string)

  datatype Entry = Entry(user: string, asset: string, amount: real)

  datatype Txn = Txn(refType: string, refId: string, entries: seq<Entry>)

  datatype Ledger = Ledger(balances: map<Key, Account>, txns: seq<Txn>)

  datatype Failure =
    | InvalidAmount | InsufficientAvailable | InsufficientFrozen | DuplicateRef
    | NegativeAvailable | MissingBalance | Imbalance

  datatype Result<+T> = Ok(value: T) | Err(failure: Failure) {
    predicate IsFailure() { Err? }
    function PropagateFailure<U>(): Result<U> requires Err? { Err(failure) }
    function Extract(): T requires Ok? { value }
  }

  function Available(balances: map<Key, Account>, user: string, asset: string): real {
    if (user, asset) in balances then balances[(user, asset)].available else 0.0
  }

  function Frozen(balances: map<Key, Account>, user: string, asset: string): real {
    if (user, asset) in balances then balances[(user, asset)].frozen else 0.0
  }

  // ----- references ------------------------------------------------------------------------

  /** The reference under which a freeze or unfreeze is recorded. */
  function FullRef(refType: string, refId: string, suffix: string): string {
    refType + ":" + refId + ":" + suffix
  }

  predicate HasRef(txns: seq<Txn>, refType: string, refId: string) {
    exists t :: t in txns && t.refType == refType && t.refId == refId
  }

  // ----- freezing --------------------------------------------------------------------------

  /** Move `toFrozen` from available to frozen; a negative amount moves the other way. */
  function Shifted(s: Ledger, user: string, asset: string, toFrozen: real, refType: string, fullRef: string): Ledger
    requires (user, asset) in s.balances
  {
    var row := s.balances[(user, asset)];
    Ledger(s.balances[(user, asset) := Account(row.available - toFrozen, row.frozen + toFrozen)],
           s.txns + [Txn(refType, fullRef, [Entry(user, asset, -toFrozen), Entry(user, asset, toFrozen)])])
  }

  function Freeze(
    s: Ledger, user: string, asset: string, amount: real, refType: string, refId: string)
    : Result<Ledger>
  {
    if amount <= 0.0 then Err(InvalidAmount)
    else if (user, asset) !in s.balances || s.balances[(user, asset)].available < amount then Err(InsufficientAvailable)
    else if HasRef(s.txns, refType, FullRef(refType, refId, "freeze")) then Err(DuplicateRef)
    else Ok(Shifted(s, user, asset, amount, refType, FullRef(refType, refId, "freeze")))
  }

  function Unfreeze(
    s: Ledger, user: string, asset: string, amount: real, refType: string, refId: string)
    : Result<Ledger>
  {
    if amount <= 0.0 then Err(InvalidAmount)
    else if (user, asset) !in s.balances || s.balances[(user, asset)].frozen < amount then Err(InsufficientFrozen)
    else if HasRef(s.txns, refType, FullRef(refType, refId, "unfreeze")) then Err(DuplicateRef)
    else Ok(Shifted(s, user, asset, -amount, refType, FullRef(refType, refId, "unfreeze")))
  }

  // ----- settling --------------------------------------------------------------------------

  /** A leg credits or debits available; the row's check rejects a negative result. */
  function ApplyLeg(balances: map<Key, Account>, leg: Entry): Result<map<Key, Account>> {
    var key := (leg.user, leg.asset);
    if key !in balances then Err(MissingBalance)
    else if balances[key].available + leg.amount < 0.0 then Err(NegativeAvailable)
    else Ok(balances[key := balances[key].(available := balances[key].available + leg.amount)])
  }

  function ApplyLegs(balances: map<Key, Account>, legs: seq<Entry>): Result<map<Key, Account>> {
    if legs == [] then Ok(balances)
    else
      var next :- ApplyLeg(balances, legs[0]);
      ApplyLegs(next, legs[1..])
  }

  /** Frozen collateral consumed by a trade does not return to available. */
  function ApplyRelease(balances: map<Key, Account>, release: Entry): Result<map<Key, Account>> {
    var key := (release.user, release.asset);
    if key !in balances || balances[key].frozen < release.amount then Err(InsufficientFrozen)
    else Ok(balances[key := balances[key].(frozen := balances[key].frozen - release.amount)])
  }

  function ApplyReleases(balances: map<Key, Account>, releases: seq<Entry>): Result<map<Key, Account>> {
    if releases == [] then Ok(balances)
    else
      var next :- ApplyRelease(balances, releases[0]);
      ApplyReleases(next, releases[1..])
  }

  function AssetSum(entries: seq<Entry>, asset: string): real {
    if entries == [] then 0.0
    else (if entries[0].asset == asset then entries[0].amount else 0.0) + AssetSum(entries[1..], asset)
  }

  function UserSum(entries: seq<Entry>, user: string, asset: string): real {
    if entries == [] then 0.0
    else (if entries[0].user == user && entries[0].asset == asset then entries[0].amount else 0.0)
         + UserSum(entries[1..], user, asset)
  }

  /** The final check: per asset that occurs, the legs sum to zero. */
  predicate Balanced(entries: seq<Entry>) {
    forall e :: e in entries ==> AssetSum(entries, e.asset) == 0.0
  }

  /** A reference already settled is accepted again without effect. */
  function Settle(s: Ledger, refId: string, legs: seq<Entry>, releases: seq<Entry>): Result<Ledger> {
    if HasRef(s.txns, "trade", refId) then Ok(s)
    else
      var credited :- ApplyLegs(s.balances, legs);
      var released :- ApplyReleases(credited, releases);
      if !Balanced(legs) then Err(Imbalance)
      else Ok(Ledger(released, s.txns + [Txn("trade", refId, legs)]))
  }
}
