/** Token balances as the contracts keep them: a mapping in which an absent key reads zero. */
module TokenLedger {

  /** 0 is `address(0)`. */
  type Address = nat

  type Balances = map<Address, nat>

  function Bal(m: Balances, a: Address): nat {
    if a in m then m[a] else 0
  }

  /** `balanceOf[from] -= value; balanceOf[to] += value`, in that order. */
  function Moved(m: Balances, from: Address, to: Address, value: nat): (r: Balances)
    requires value <= Bal(m, from)
    ensures from != to ==> Bal(r, from) == Bal(m, from) - value && Bal(r, to) == Bal(m, to) + value
    ensures from == to ==> Bal(r, to) == Bal(m, to)
    ensures forall a :: a != from && a != to ==> Bal(r, a) == Bal(m, a)
  {
    var debited := m[from := Bal(m, from) - value];
    debited[to := Bal(debited, to) + value]
  }

  /** The sum over all holders. */
  ghost function Total(m: Balances): nat {
    if m == map[] then 0
    else
      var a :| a in m;
      m[a] + Total(m - {a})
  }

  /** The sum does not depend on the order in which holders are picked. */
  lemma {:induction false} TotalPick(m: Balances, a: Address)
    requires a in m
    ensures Total(m) == m[a] + Total(m - {a})
    decreases |m|
  {
    var b :| b in m && Total(m) == m[b] + Total(m - {b});
    if a != b {
      TotalPick(m - {b}, a);
      TotalPick(m - {a}, b);
      assert m - {b} - {a} == m - {a} - {b};
    }
  }

  /** Writing one entry changes the sum by the change of that entry. */
  lemma TotalWrite(m: Balances, a: Address, v: nat)
    ensures Total(m[a := v]) == Total(m) - Bal(m, a) + v
    ensures Bal(m, a) <= Total(m)
  {
    TotalPick(m[a := v], a);
    assert m[a := v] - {a} == m - {a};
    if a in m {
      TotalPick(m, a);
    } else {
      assert m - {a} == m;
    }
  }

  /** A transfer conserves the sum, also when sender and recipient coincide. */
  lemma TotalMoved(m: Balances, from: Address, to: Address, value: nat)
    requires value <= Bal(m, from)
    ensures Total(Moved(m, from, to, value)) == Total(m)
  {
    var debited := m[from := Bal(m, from) - value];
    TotalWrite(m, from, Bal(m, from) - value);
    TotalWrite(debited, to, Bal(debited, to) + value);
  }

  /** No two holders together own more than everything. */
  lemma TwoHolders(m: Balances, a: Address, b: Address)
    requires a != b
    ensures Bal(m, a) + Bal(m, b) <= Total(m)
  {
    var rest := m[a := 0];
    TotalWrite(m, a, 0);
    TotalWrite(rest, b, 0);
  }
}
