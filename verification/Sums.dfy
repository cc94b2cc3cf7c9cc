/** Sums over the values of a finite map, and how one update changes them. */
module Sums {
  function Get<K>(m: map<K, int>, k: K): int {
    if k in m then m[k] else 0
  }

  ghost function Sum<K>(m: map<K, int>): int {
    if m == map[] then 0
    else
      var k :| k in m;
      m[k] + Sum(m - {k})
  }

  lemma {:induction false} SumRemove<K>(m: map<K, int>, k: K)
    requires k in m
    ensures Sum(m) == m[k] + Sum(m - {k})
    decreases |m|
  {
    var j :| j in m && Sum(m) == m[j] + Sum(m - {j});
    if j != k {
      SumRemove(m - {j}, k);
      SumRemove(m - {k}, j);
      assert m - {j} - {k} == m - {k} - {j};
    }
  }

  lemma SumUpdate<K>(m: map<K, int>, k: K, v: int)
    ensures Sum(m[k := v]) == Sum(m) - Get(m, k) + v
  {
    SumRemove(m[k := v], k);
    assert m[k := v] - {k} == m - {k};
    if k in m {
      SumRemove(m, k);
    } else {
      assert m - {k} == m;
    }
  }

  ghost predicate NonNegative<K>(m: map<K, int>) {
    forall k | k in m :: 0 <= m[k]
  }

  lemma {:induction false} SumNonNegative<K>(m: map<K, int>)
    requires NonNegative(m)
    ensures 0 <= Sum(m)
    decreases |m|
  {
    if m != map[] {
      var k :| k in m && Sum(m) == m[k] + Sum(m - {k});
      SumNonNegative(m - {k});
    }
  }

  lemma SumBounds<K>(m: map<K, int>, k: K)
    requires NonNegative(m)
    ensures 0 <= Get(m, k) <= Sum(m)
  {
    SumNonNegative(m);
    if k in m {
      SumRemove(m, k);
      SumNonNegative(m - {k});
    }
  }
}
