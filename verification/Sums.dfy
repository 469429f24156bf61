/** Totals over finite maps, for counting the work that the parties of a protocol have left. */
module Sums {
  ghost function Sum<K>(m: map<K, nat>): nat
    decreases |m|
  {
    if m == map[] then 0 else var k :| k in m; m[k] + Sum(m - {k})
  }

  /** Any entry can be taken out of the total first. */
  lemma {:induction false} SumWithout<K>(m: map<K, nat>, k: K)
    requires k in m
    ensures Sum(m) == m[k] + Sum(m - {k})
    decreases |m|
  {
    var first :| first in m && Sum(m) == m[first] + Sum(m - {first});
    if first != k {
      SumWithout(m - {first}, k);
      SumWithout(m - {k}, first);
      assert m - {first} - {k} == m - {k} - {first};
    }
  }

  lemma {:induction false} SumAtMost<K>(a: map<K, nat>, b: map<K, nat>)
    requires a.Keys == b.Keys && forall k :: k in a ==> a[k] <= b[k]
    ensures Sum(a) <= Sum(b)
    decreases |a|
  {
    if k :| k in a {
      SumWithout(a, k);
      SumWithout(b, k);
      SumAtMost(a - {k}, b - {k});
    }
  }

  /** One entry gets smaller by `drop` and none gets larger. */
  lemma SumDrops<K>(a: map<K, nat>, b: map<K, nat>, k: K, drop: nat)
    requires a.Keys == b.Keys && forall k :: k in a ==> a[k] <= b[k]
    requires k in a && a[k] + drop <= b[k]
    ensures Sum(a) + drop <= Sum(b)
  {
    SumWithout(a, k);
    SumWithout(b, k);
    SumAtMost(a - {k}, b - {k});
  }

  function At<K>(m: map<K, nat>, k: K): nat {
    if k in m then m[k] else 0
  }

  /** At most one entry changes, appears or disappears. */
  lemma SumChanges<K>(a: map<K, nat>, b: map<K, nat>, k: K)
    requires a - {k} == b - {k}
    ensures Sum(a) + At(b, k) == Sum(b) + At(a, k)
  {
    SumSplits(a, k);
    SumSplits(b, k);
  }

  lemma SumSplits<K>(m: map<K, nat>, k: K)
    ensures Sum(m) == At(m, k) + Sum(m - {k})
  {
    if k in m {
      SumWithout(m, k);
    } else {
      assert m - {k} == m;
    }
  }
}
