/** Sums over finite maps: the bytes of a generation and the bytes promised
    to uploads are both of this kind. */
module Sums {

  ghost function Sum<K>(m: map<K, nat>): nat
    decreases m.Keys
  {
    if m.Keys == {} then 0 else
      var k := Any(m.Keys);
      m[k] + Sum(m - {k})
  }

  ghost function Any<K>(keys: set<K>): (k: K)
    requires keys != {}
    ensures k in keys
  {
    var k :| k in keys; k
  }

  /** The sum does not depend on which entry is taken out first. */
  lemma {:induction false} SumTakeOut<K>(m: map<K, nat>, k: K)
    requires k in m
    ensures Sum(m) == m[k] + Sum(m - {k})
    decreases m.Keys
  {
    var first := Any(m.Keys);
    if first != k {
      var rest, other := m - {first}, m - {k};
      SumTakeOut(rest, k);
      SumTakeOut(other, first);
      assert rest - {k} == other - {first};
    }
  }

  lemma SumPutIn<K>(m: map<K, nat>, k: K, v: nat)
    requires k !in m
    ensures Sum(m[k := v]) == Sum(m) + v
  {
    SumTakeOut(m[k := v], k);
    assert m[k := v] - {k} == m;
  }

  /** Fewer entries, or smaller ones, never sum to more. */
  lemma {:induction false} SumMonotone<K>(m: map<K, nat>, n: map<K, nat>)
    requires forall k <- m :: k in n && m[k] <= n[k]
    ensures Sum(m) <= Sum(n)
    decreases m.Keys
  {
    if m.Keys != {} {
      var k := Any(m.Keys);
      SumMonotone(m - {k}, n - {k});
      SumTakeOut(n, k);
    }
  }

  /** The entries that are left to add up. */
  function Restricted<K>(m: map<K, nat>, keys: set<K>): map<K, nat> {
    map k | k in m && k in keys :: m[k]
  }

  lemma SumOfRest<K>(m: map<K, nat>, left: set<K>, k: K)
    requires k in left && k in m
    ensures Sum(Restricted(m, left)) == m[k] + Sum(Restricted(m, left - {k}))
  {
    SumTakeOut(Restricted(m, left), k);
    assert Restricted(m, left) - {k} == Restricted(m, left - {k});
  }
}
