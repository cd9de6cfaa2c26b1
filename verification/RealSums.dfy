/** Sums of amounts over a table, whatever its keys. */
module RealSums {

  ghost function SumOver<K>(m: map<K, real>): real {
    if m == map[] then 0.0
    else
      var key :| key in m;
      m[key] + SumOver(m - {key})
  }

  /** The sum does not depend on the order in which rows are picked. */
  lemma {:induction false} SumPick<K>(m: map<K, real>, key: K)
    requires key in m
    ensures SumOver(m) == m[key] + SumOver(m - {key})
    decreases |m|
  {
    var other :| other in m && SumOver(m) == m[other] + SumOver(m - {other});
    if other != key {
      SumPick(m - {other}, key);
      SumPick(m - {key}, other);
      assert m - {other} - {key} == m - {key} - {other};
    }
  }

  /** Writing one row changes the sum by the change of that row. */
  lemma SumWrite<K>(m: map<K, real>, key: K, v: real)
    ensures SumOver(m[key := v]) == SumOver(m) - (if key in m then m[key] else 0.0) + v
  {
    SumPick(m[key := v], key);
    assert m[key := v] - {key} == m - {key};
    if key in m {
      SumPick(m, key);
    } else {
      assert m - {key} == m;
    }
  }

  /** Deleting one row takes its amount off the sum. */
  lemma SumDelete<K>(m: map<K, real>, key: K)
    ensures SumOver(m - {key}) == SumOver(m) - if key in m then m[key] else 0.0
  {
    if key in m {
      SumPick(m, key);
    } else {
      assert m - {key} == m;
    }
  }

  lemma {:induction false} SumNonNegative<K>(m: map<K, real>)
    requires forall key :: key in m ==> m[key] >= 0.0
    ensures SumOver(m) >= 0.0
    ensures forall key :: key in m ==> m[key] <= SumOver(m)
    decreases |m|
  {
    forall key | key in m
      ensures 0.0 <= m[key] <= SumOver(m)
    {
      SumPick(m, key);
      SumNonNegative(m - {key});
    }
  }
}
