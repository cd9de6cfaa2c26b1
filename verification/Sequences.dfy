/** Inserting into a sequence. */
module Sequences {

  function InsertAt<T>(s: seq<T>, k: nat, v: T): seq<T>
    requires k <= |s|
  {
    s[..k] + [v] + s[k..]
  }

  lemma InsertSameElements<T>(s: seq<T>, k: nat, v: T)
    requires k <= |s|
    ensures multiset(InsertAt(s, k, v)) == multiset(s) + multiset{v}
  {
    assert multiset(s) == multiset(s[..k]) + multiset(s[k..]) by {
      assert s == s[..k] + s[k..];
    }
  }

  lemma InsertMembers<T>(s: seq<T>, k: nat, v: T)
    requires k <= |s|
    ensures forall x :: x in InsertAt(s, k, v) <==> x in s || x == v
  {
    forall x
      ensures x in InsertAt(s, k, v) <==> x in s || x == v
    {
      assert s == s[..k] + s[k..];
      assert x in s <==> x in s[..k] || x in s[k..];
    }
  }

  lemma InsertIndex<T>(s: seq<T>, k: nat, v: T, i: nat)
    requires k <= |s| && i <= |s|
    ensures InsertAt(s, k, v)[i] == if i < k then s[i] else if i == k then v else s[i - 1]
  {
  }
}
