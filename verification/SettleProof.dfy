/** Where the frozen money of an order goes: into the book, into trades, or back. */
module SettleProof {
  import opened OrderBook
  import opened AccountLedger
  import opened OrderFlow
  import AccountLedgerProof

  // ----- references ------------------------------------------------------------------------

  lemma ConcatCancel(prefix: string, a: string, b: string, suffix: string)
    requires prefix + a + suffix == prefix + b + suffix
    ensures a == b
  {
    var x, y := prefix + a + suffix, prefix + b + suffix;
    assert |x| == |y|;
    assert a == x[|prefix|..|prefix| + |a|];
    assert b == y[|prefix|..|prefix| + |b|];
  }

  /** Different orders never share a reference. */
  lemma FullRefInjective(refType: string, a: string, b: string, suffix: string)
    requires FullRef(refType, a, suffix) == FullRef(refType, b, suffix)
    ensures a == b
  {
    assert FullRef(refType, a, suffix) == (refType + ":") + a + (":" + suffix);
    assert FullRef(refType, b, suffix) == (refType + ":") + b + (":" + suffix);
    ConcatCancel(refType + ":", a, b, ":" + suffix);
  }

  lemma SeventhFromEnd(front: string, last: string)
    requires |last| >= 7
    ensures (front + last)[|front + last| - 7] == last[|last| - 7]
  {
  }

  /** A freeze is never mistaken for an unfreeze. */
  lemma FreezeIsNotUnfreeze(refType: string, a: string, b: string)
    ensures FullRef(refType, a, "freeze") != FullRef(refType, b, "unfreeze")
  {
    var f, u: string := ":freeze", ":unfreeze";
    var x, y := FullRef(refType, a, "freeze"), FullRef(refType, b, "unfreeze");
    assert x == (refType + ":" + a) + f && y == (refType + ":" + b) + u;
    SeventhFromEnd(refType + ":" + a, f);
    SeventhFromEnd(refType + ":" + b, u);
    assert f[0] == ':' && u[2] == 'n';
  }

  predicate UnfreezeUsed(txns: seq<Txn>, venue: Venue, id: string) {
    HasRef(txns, RefType(venue), FullRef(RefType(venue), id, "unfreeze"))
  }

  ghost predicate SameUnfreezes(a: seq<Txn>, b: seq<Txn>) {
    forall venue, id :: UnfreezeUsed(a, venue, id) == UnfreezeUsed(b, venue, id)
  }

  lemma HasRefAppend(txns: seq<Txn>, t: Txn, refType: string, refId: string)
    ensures HasRef(txns + [t], refType, refId)
            <==> HasRef(txns, refType, refId) || (t.refType == refType && t.refId == refId)
  {
    assert forall x :: x in txns + [t] <==> x in txns || x == t;
    assert t in txns + [t];
  }

  lemma VenueRefTypes()
    ensures RefType(CEX) != RefType(DEX) && RefType(CEX) != "trade" && RefType(DEX) != "trade"
  {
    assert RefType(CEX)[0] == 'c' && RefType(DEX)[0] == 'd';
    var t: string := "trade";
    assert t[0] == 't';
  }

  /** Freezes and settlements leave the record of unfreezes alone. */
  lemma AppendKeepsUnfreezes(txns: seq<Txn>, t: Txn)
    requires t.refType == "trade"
             || exists venue, id ::
                  t.refType == RefType(venue) && t.refId == FullRef(RefType(venue), id, "freeze")
    ensures SameUnfreezes(txns, txns + [t])
  {
    VenueRefTypes();
    forall venue, id
      ensures UnfreezeUsed(txns, venue, id) == UnfreezeUsed(txns + [t], venue, id)
    {
      HasRefAppend(txns, t, RefType(venue), FullRef(RefType(venue), id, "unfreeze"));
      if t.refType != "trade" {
        var v, other :| t.refType == RefType(v) && t.refId == FullRef(RefType(v), other, "freeze");
        FreezeIsNotUnfreeze(RefType(v), other, id);
      }
    }
  }

  /** An unfreeze marks its own order and nobody else. */
  lemma AppendUnfreeze(txns: seq<Txn>, t: Txn, venue: Venue, id: string)
    requires t.refType == RefType(venue) && t.refId == FullRef(RefType(venue), id, "unfreeze")
    ensures UnfreezeUsed(txns + [t], venue, id)
    ensures forall v, other :: other != id ==> UnfreezeUsed(txns + [t], v, other) == UnfreezeUsed(txns, v, other)
  {
    VenueRefTypes();
    HasRefAppend(txns, t, RefType(venue), FullRef(RefType(venue), id, "unfreeze"));
    forall v, other | other != id
      ensures UnfreezeUsed(txns + [t], v, other) == UnfreezeUsed(txns, v, other)
    {
      HasRefAppend(txns, t, RefType(v), FullRef(RefType(v), other, "unfreeze"));
      if RefType(v) == RefType(venue) && FullRef(RefType(v), other, "unfreeze") == FullRef(RefType(v), id, "unfreeze") {
        FullRefInjective(RefType(v), other, id, "unfreeze");
      }
    }
  }

  // ----- settling one trade ------------------------------------------------------------------

  lemma ReleaseSums(t: Trade, info: Assets, user: string, asset: string)
    ensures UserSum(TradeReleases(t, info), user, asset) == TradeHold(t, t.price, info, user, asset)
  {
    AccountLedgerProof.TwoEntries(TradeReleases(t, info)[0], TradeReleases(t, info)[1], user, asset);
  }

  /** The four legs of a trade always balance, whatever the assets. */
  lemma LegsBalance(t: Trade, info: Assets)
    ensures Balanced(TradeLegs(t, info))
  {
    var legs := TradeLegs(t, info);
    assert legs[1..] == [legs[1], legs[2], legs[3]] && legs[1..][1..] == [legs[2], legs[3]];
    forall asset
      ensures AssetSum(legs, asset) == 0.0
    {
      AccountLedgerProof.TwoEntries(legs[2], legs[3], "", asset);
      assert AssetSum(legs, asset) ==
        (if legs[0].asset == asset then legs[0].amount else 0.0) + AssetSum(legs[1..], asset);
      assert AssetSum(legs[1..], asset) ==
             (if legs[1].asset == asset then legs[1].amount else 0.0) + AssetSum(legs[1..][1..], asset);
    }
  }

  /** Every user has frozen at least what the trade releases. */
  ghost predicate EnoughFrozen(balances: map<Key, Account>, t: Trade, info: Assets) {
    forall user, asset :: Frozen(balances, user, asset) >= TradeHold(t, t.price, info, user, asset)
  }

  lemma OneLegMore(balances: map<Key, Account>, leg: Entry, rest: seq<Entry>)
    ensures ApplyLegs(balances, [leg] + rest) ==
            if ApplyLeg(balances, leg).Err? then Err(ApplyLeg(balances, leg).failure)
            else ApplyLegs(ApplyLeg(balances, leg).value, rest)
  {
    assert ([leg] + rest)[1..] == rest;
  }

  lemma OneReleaseMore(balances: map<Key, Account>, release: Entry, rest: seq<Entry>)
    ensures ApplyReleases(balances, [release] + rest) ==
            if ApplyRelease(balances, release).Err? then Err(ApplyRelease(balances, release).failure)
            else ApplyReleases(ApplyRelease(balances, release).value, rest)
  {
    assert ([release] + rest)[1..] == rest;
  }

  lemma ReleasesSucceed(balances: map<Key, Account>, t: Trade, info: Assets)
    requires t.price > 0.0 && t.quantity > 0.0 && EnoughFrozen(balances, t, info)
    ensures ApplyReleases(balances, TradeReleases(t, info)).Ok?
  {
    var releases := TradeReleases(t, info);
    var first, second := releases[0], releases[1];
    assert t.price * t.quantity > 0.0;
    assert Frozen(balances, t.buyer, info.quote) >= TradeHold(t, t.price, info, t.buyer, info.quote);
    assert Frozen(balances, t.seller, info.base) >= TradeHold(t, t.price, info, t.seller, info.base);
    OneReleaseMore(balances, first, [second]);
    var next := ApplyRelease(balances, first).value;
    OneReleaseMore(next, second, []);
    assert [second] + [] == [second] && [first] + [second] == releases;
  }

  /** With the collateral in place and the trade id unused, a settlement can fail only on the
      available side: a row is missing, or a debit would make an available balance negative. */
  lemma SettleNeverShort(s: Ledger, id: string, t: Trade, info: Assets)
    requires t.price > 0.0 && t.quantity > 0.0 && EnoughFrozen(s.balances, t, info)
    requires !HasRef(s.txns, "trade", id)
    ensures var r := Settle(s, id, TradeLegs(t, info), TradeReleases(t, info));
            && (r.Ok? <==> ApplyLegs(s.balances, TradeLegs(t, info)).Ok?)
            && (r.Err? ==> r.failure == NegativeAvailable || r.failure == MissingBalance)
  {
    var legs := TradeLegs(t, info);
    LegsBalance(t, info);
    LegsFailure(s.balances, legs);
    if ApplyLegs(s.balances, legs).Ok? {
      var credited := ApplyLegs(s.balances, legs).value;
      forall user, asset
        ensures Frozen(credited, user, asset) >= TradeHold(t, t.price, info, user, asset)
      {
        AccountLedgerProof.LegsMove(s.balances, legs, user, asset);
      }
      ReleasesSucceed(credited, t, info);
    }
  }

  lemma {:induction false} LegsFailure(balances: map<Key, Account>, legs: seq<Entry>)
    ensures var r := ApplyLegs(balances, legs); r.Err? ==> r.failure == NegativeAvailable || r.failure == MissingBalance
    decreases |legs|
  {
    if legs != [] && ApplyLeg(balances, legs[0]).Ok? {
      LegsFailure(ApplyLeg(balances, legs[0]).value, legs[1..]);
    }
  }

  /** Exactly when a fully collateralised trade settles: both parties have both balance rows, and
      each still has, as AVAILABLE balance on top of the frozen collateral, what it pays. A user
      trading with itself needs the quote amount only, the base leg being credited first. */
  lemma SettlesExactly(s: Ledger, id: string, t: Trade, info: Assets)
    requires t.price > 0.0 && t.quantity > 0.0 && EnoughFrozen(s.balances, t, info)
    requires !HasRef(s.txns, "trade", id) && info.base != info.quote
    requires AccountLedgerProof.NonNegative(s)
    ensures Settle(s, id, TradeLegs(t, info), TradeReleases(t, info)).Ok? <==>
              && (t.buyer, info.base) in s.balances && (t.seller, info.quote) in s.balances
              && Available(s.balances, t.buyer, info.quote) >= t.price * t.quantity
              && (t.buyer == t.seller || Available(s.balances, t.seller, info.base) >= t.quantity)
  {
    SettleNeverShort(s, id, t, info);
    PayersHaveRows(s.balances, t, info);
    assert TradeLegs(t, info) == LegsFor(t.buyer, t.seller, info, t.price * t.quantity, t.quantity);
    LegsOneByOne(s.balances, t.buyer, t.seller, info, t.price * t.quantity, t.quantity);
  }

  /** What a settled trade moves: the price of its quantity from the buyer's available quote to the
      seller's, the quantity from the seller's available base to the buyer's, and as much again out
      of the buyer's frozen quote and the seller's frozen base; nothing else moves. */
  lemma TradePays(s: Ledger, id: string, t: Trade, info: Assets, paid: real, user: string, asset: string)
    requires !HasRef(s.txns, "trade", id) && Settle(s, id, TradeLegs(t, info), TradeReleases(t, info)).Ok?
    requires paid == t.price * t.quantity
    ensures var after := Settle(s, id, TradeLegs(t, info), TradeReleases(t, info)).value;
            && Available(after.balances, user, asset) ==
               Available(s.balances, user, asset)
               + (if user == t.buyer && asset == info.base then t.quantity else 0.0)
               - (if user == t.buyer && asset == info.quote then paid else 0.0)
               - (if user == t.seller && asset == info.base then t.quantity else 0.0)
               + (if user == t.seller && asset == info.quote then paid else 0.0)
            && Frozen(after.balances, user, asset) ==
               Frozen(s.balances, user, asset)
               - (if user == t.buyer && asset == info.quote then paid else 0.0)
               - (if user == t.seller && asset == info.base then t.quantity else 0.0)
  {
    AccountLedgerProof.SettleMoves(s, id, TradeLegs(t, info), TradeReleases(t, info), user, asset);
    LegsOfTrade(t, info, paid);
    AccountLedgerProof.TwoEntries(Entry(t.buyer, info.quote, paid), Entry(t.seller, info.base, t.quantity), user,
                                  asset);
    LegsPay(t.buyer, t.seller, info, paid, t.quantity, user, asset);
  }

  lemma LegsOfTrade(t: Trade, info: Assets, paid: real)
    requires paid == t.price * t.quantity
    ensures TradeLegs(t, info) == LegsFor(t.buyer, t.seller, info, paid, t.quantity)
    ensures TradeReleases(t, info) == [Entry(t.buyer, info.quote, paid), Entry(t.seller, info.base, t.quantity)]
  {
    var legs, same := TradeLegs(t, info), LegsFor(t.buyer, t.seller, info, paid, t.quantity);
    assert legs[0] == same[0] && legs[1] == same[1] && legs[2] == same[2] && legs[3] == same[3];
    var releases := TradeReleases(t, info);
    assert releases[0] == Entry(t.buyer, info.quote, paid) && releases[1] == Entry(t.seller, info.base, t.quantity);
  }

  lemma LegsPay(
    buyer: string, seller: string, info: Assets, notional: real, quantity: real, user: string, asset: string)
    ensures UserSum(LegsFor(buyer, seller, info, notional, quantity), user, asset) ==
            (if user == buyer && asset == info.base then quantity else 0.0)
            - (if user == buyer && asset == info.quote then notional else 0.0)
            - (if user == seller && asset == info.base then quantity else 0.0)
            + (if user == seller && asset == info.quote then notional else 0.0)
  {
    var legs := LegsFor(buyer, seller, info, notional, quantity);
    FourEntries(legs[0], legs[1], legs[2], legs[3], user, asset);
    AccountLedgerProof.TwoEntries(legs[2], legs[3], user, asset);
  }

  lemma FourEntries(a: Entry, b: Entry, c: Entry, d: Entry, user: string, asset: string)
    ensures UserSum([a, b, c, d], user, asset) ==
            (if a.user == user && a.asset == asset then a.amount else 0.0)
            + (if b.user == user && b.asset == asset then b.amount else 0.0) + UserSum([c, d], user, asset)
  {
    assert [a, b, c, d][1..] == [b, c, d] && [b, c, d][1..] == [c, d];
    assert UserSum([b, c, d], user, asset) ==
           (if b.user == user && b.asset == asset then b.amount else 0.0) + UserSum([b, c, d][1..], user, asset);
  }

  lemma PayersHaveRows(balances: map<Key, Account>, t: Trade, info: Assets)
    requires t.price > 0.0 && t.quantity > 0.0 && EnoughFrozen(balances, t, info)
    ensures t.price * t.quantity > 0.0
    ensures (t.buyer, info.quote) in balances && (t.seller, info.base) in balances
  {
    assert Frozen(balances, t.buyer, info.quote) >= TradeHold(t, t.price, info, t.buyer, info.quote);
    assert Frozen(balances, t.seller, info.base) >= TradeHold(t, t.price, info, t.seller, info.base);
  }

  /** The legs in their order: debit the buyer, credit the buyer, debit the seller, credit the seller. */
  lemma LegsOneByOne(
    balances: map<Key, Account>, buyer: string, seller: string, info: Assets, notional: real, quantity: real)
    requires notional > 0.0 && quantity > 0.0 && info.base != info.quote
    requires forall key :: key in balances ==> balances[key].available >= 0.0
    requires (buyer, info.quote) in balances && (seller, info.base) in balances
    ensures ApplyLegs(balances, LegsFor(buyer, seller, info, notional, quantity)).Ok? <==>
              && (buyer, info.base) in balances && (seller, info.quote) in balances
              && Available(balances, buyer, info.quote) >= notional
              && (buyer == seller || Available(balances, seller, info.base) >= quantity)
  {
    var legs := LegsFor(buyer, seller, info, notional, quantity);
    assert legs == [legs[0]] + [legs[1], legs[2], legs[3]];
    OneLegMore(balances, legs[0], [legs[1], legs[2], legs[3]]);
    if ApplyLeg(balances, legs[0]).Ok? {
      var b1 := ApplyLeg(balances, legs[0]).value;
      assert [legs[1], legs[2], legs[3]] == [legs[1]] + [legs[2], legs[3]];
      OneLegMore(b1, legs[1], [legs[2], legs[3]]);
      if ApplyLeg(b1, legs[1]).Ok? {
        SellerLegs(ApplyLeg(b1, legs[1]).value, legs[2], legs[3]);
      }
    }
  }

  lemma SellerLegs(balances: map<Key, Account>, debit: Entry, credit: Entry)
    requires debit.user == credit.user && debit.asset != credit.asset && credit.amount >= 0.0
    requires forall key :: key in balances ==> balances[key].available >= 0.0
    ensures ApplyLegs(balances, [debit, credit]).Ok? <==>
              && (debit.user, debit.asset) in balances && (credit.user, credit.asset) in balances
              && Available(balances, debit.user, debit.asset) + debit.amount >= 0.0
  {
    assert [debit, credit] == [debit] + [credit] && [credit] == [credit] + [];
    OneLegMore(balances, debit, [credit]);
    if ApplyLeg(balances, debit).Ok? {
      OneLegMore(ApplyLeg(balances, debit).value, credit, []);
    }
  }
}
