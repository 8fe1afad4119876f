/** Sums of natural weights over the values of a finite map. */
module MapTotals {

  lemma RemoveShrinks<K, V>(m: map<K, V>, k: K)
    requires k in m
    ensures |m - {k}| == |m| - 1
  {
    assert (m - {k}).Keys == m.Keys - {k};
  }

  ghost function Total<K, V>(m: map<K, V>, weight: V -> nat): nat
    decreases |m|
  {
    if m == map[] then 0
    else
      var k :| k in m;
      RemoveShrinks(m, k);
      weight(m[k]) + Total(m - {k}, weight)
  }

  /** The sum does not depend on which key is taken out first. */
  lemma {:induction false} TotalRemove<K, V>(m: map<K, V>, weight: V -> nat, k: K)
    requires k in m
    ensures Total(m, weight) == weight(m[k]) + Total(m - {k}, weight)
    decreases |m|
  {
    var j :| j in m && Total(m, weight) == weight(m[j]) + Total(m - {j}, weight);
    if j != k {
      RemoveShrinks(m, j);
      RemoveShrinks(m, k);
      TotalRemove(m - {j}, weight, k);
      TotalRemove(m - {k}, weight, j);
      assert m - {j} - {k} == m - {k} - {j};
    }
  }

  lemma TotalUpdate<K, V>(m: map<K, V>, weight: V -> nat, k: K, v: V)
    ensures Total(m[k := v], weight) == Total(m, weight) - (if k in m then weight(m[k]) else 0) + weight(v)
  {
    TotalRemove(m[k := v], weight, k);
    assert m[k := v] - {k} == m - {k};
    if k in m {
      TotalRemove(m, weight, k);
    } else {
      assert m - {k} == m;
    }
  }
}
