/** Sums over the entries of a map. */
module MapSums {

  ghost function Sum<K(!new), V(!new)>(m: map<K, V>, weight: (K, V) -> int): int {
    if m == map[] then 0 else
      var k :| k in m;
      weight(k, m[k]) + Sum(m - {k}, weight)
  }

  /** Any entry may be counted first. */
  lemma {:induction false} SumWithout<K(!new), V(!new)>(m: map<K, V>, weight: (K, V) -> int, k: K)
    requires k in m
    ensures Sum(m, weight) == weight(k, m[k]) + Sum(m - {k}, weight)
    decreases |m|
  {
    var j :| j in m && Sum(m, weight) == weight(j, m[j]) + Sum(m - {j}, weight);
    if j != k {
      SumWithout(m - {j}, weight, k);
      SumWithout(m - {k}, weight, j);
      assert m - {j} - {k} == m - {k} - {j};
    }
  }

  /** Setting one entry changes the sum by what its weight changes. */
  lemma SumSet<K(!new), V(!new)>(m: map<K, V>, weight: (K, V) -> int, k: K, v: V)
    ensures Sum(m[k := v], weight) == Sum(m, weight) + weight(k, v) - if k in m then weight(k, m[k]) else 0
  {
    SumWithout(m[k := v], weight, k);
    if k in m {
      SumWithout(m, weight, k);
      assert m[k := v] - {k} == m - {k};
    } else {
      assert m[k := v] - {k} == m;
    }
  }
}
