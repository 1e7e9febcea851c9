/** Sums of a measure over the values of a finite map. */
module MapSums {
  ghost function Sum<K, V>(m: map<K, V>, f: V -> nat): nat {
    if m == map[] then 0
    else
      var k :| k in m;
      f(m[k]) + Sum(m - {k}, f)
  }

  lemma {:induction false} SumRemove<K, V>(m: map<K, V>, k: K, f: V -> nat)
    requires k in m
    ensures Sum(m, f) == f(m[k]) + Sum(m - {k}, f)
    decreases |m|
  {
    var j :| j in m && Sum(m, f) == f(m[j]) + Sum(m - {j}, f);
    if j != k {
      SumRemove(m - {j}, k, f);
      SumRemove(m - {k}, j, f);
      assert m - {j} - {k} == m - {k} - {j};
    }
  }

  lemma SumUpdate<K, V>(m: map<K, V>, k: K, v: V, f: V -> nat)
    ensures Sum(m[k := v], f) == f(v) + Sum(m - {k}, f)
    ensures k in m ==> Sum(m[k := v], f) + f(m[k]) == Sum(m, f) + f(v)
    ensures k !in m ==> Sum(m[k := v], f) == Sum(m, f) + f(v)
  {
    SumRemove(m[k := v], k, f);
    assert m[k := v] - {k} == m - {k};
    if k in m {
      SumRemove(m, k, f);
    } else {
      assert m - {k} == m;
    }
  }

  lemma TwoTerms<K, V>(m: map<K, V>, j: K, k: K, f: V -> nat)
    requires j in m && k in m && j != k
    ensures f(m[j]) + f(m[k]) <= Sum(m, f)
  {
    SumRemove(m, j, f);
    SumRemove(m - {j}, k, f);
  }
}
