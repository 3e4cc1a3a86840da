/** Sums over finite maps. */
module Sums {

  ghost function Sum<K(!new)>(m: map<K, nat>): nat {
    if m == map[] then 0 else
      var k :| k in m;
      m[k] + Sum(m - {k})
  }

  /** Any key may be taken out first. */
  lemma {:induction false} SumWithout<K(!new)>(m: map<K, nat>, k: K)
    requires k in m
    ensures Sum(m) == m[k] + Sum(m - {k})
    decreases |m|
  {
    var j :| j in m && Sum(m) == m[j] + Sum(m - {j});
    if j != k {
      SumWithout(m - {j}, k);
      SumWithout(m - {k}, j);
      assert m - {j} - {k} == m - {k} - {j};
    }
  }

  lemma SumUpdate<K(!new)>(m: map<K, nat>, k: K, n: nat)
    ensures Sum(m[k := n]) == Sum(m - {k}) + n
  {
    var u := m[k := n];
    SumWithout(u, k);
    assert u - {k} == m - {k};
  }

  ghost function Restricted<K(!new)>(m: map<K, nat>, ks: set<K>): map<K, nat> {
    map k | k in m && k in ks :: m[k]
  }

  lemma OneKeyLess<K(!new)>(m: map<K, nat>, ks: set<K>, k: K)
    requires k in m && k in ks
    ensures (m - {k}) - ks == m - ks
    ensures Restricted(m - {k}, ks) == Restricted(m, ks) - {k}
  {
  }

  /** Taking out a set of keys takes out their sum. */
  lemma {:induction false} SumSplit<K(!new)>(m: map<K, nat>, ks: set<K>)
    ensures Sum(m) == Sum(m - ks) + Sum(Restricted(m, ks))
    decreases |m|
  {
    if k :| k in m && k in ks {
      SumWithout(m, k);
      SumWithout(Restricted(m, ks), k);
      SumSplit(m - {k}, ks);
      OneKeyLess(m, ks, k);
    } else {
      assert Restricted(m, ks) == map[];
      assert m - ks == m;
    }
  }

  /** Keys with value zero do not matter. */
  lemma {:induction false} SumZero<K(!new)>(m: map<K, nat>)
    requires forall k :: k in m ==> m[k] == 0
    ensures Sum(m) == 0
    decreases |m|
  {
    if k :| k in m {
      SumWithout(m, k);
      SumZero(m - {k});
    }
  }
}
