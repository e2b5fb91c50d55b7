/** Sums over the entries of a map of counters. */
module MapSums {

  /** The sum of `w` over all entries; it does not depend on the order of summation. */
  ghost function Sum<K, V>(m: map<K, V>, w: (K, V) -> nat): nat
    decreases |m|
  {
    if m == map[] then 0
    else
      var k :| k in m;
      w(k, m[k]) + Sum(m - {k}, w)
  }

  lemma RemoveTwo<K, V>(m: map<K, V>, a: K, b: K)
    ensures m - {a} - {b} == m - {b} - {a}
  {
  }

  lemma {:induction false} SumPick<K, V>(m: map<K, V>, w: (K, V) -> nat, k: K)
    requires k in m
    ensures Sum(m, w) == w(k, m[k]) + Sum(m - {k}, w)
    decreases |m|
  {
    var j :| j in m && Sum(m, w) == w(j, m[j]) + Sum(m - {j}, w);
    if j != k {
      SumPick(m - {j}, w, k);
      SumPick(m - {k}, w, j);
      RemoveTwo(m, j, k);
    }
  }

  /** Storing an entry replaces its old contribution by the new one. */
  lemma SumStore<K, V>(m: map<K, V>, w: (K, V) -> nat, k: K, v: V)
    ensures Sum(m[k := v], w) + (if k in m then w(k, m[k]) else 0) == Sum(m, w) + w(k, v)
  {
    SumPick(m[k := v], w, k);
    assert m[k := v] - {k} == m - {k};
    if k in m {
      SumPick(m, w, k);
    } else {
      assert m - {k} == m;
    }
  }

  /** Entries without weight do not count. */
  lemma {:induction false} SumNothing<K, V>(m: map<K, V>, w: (K, V) -> nat)
    requires forall k :: k in m ==> w(k, m[k]) == 0
    ensures Sum(m, w) == 0
    decreases |m|
  {
    if m != map[] {
      var k :| k in m && Sum(m, w) == w(k, m[k]) + Sum(m - {k}, w);
      SumNothing(m - {k}, w);
    }
  }
}
