/** Sums of a weight over the entries of a finite map, whatever order they are visited in. */
module MapSums {

  ghost function Sum<K, V>(m: map<K, V>, f: (K, V) -> nat): nat {
    if m == map[] then 0 else
      var k :| k in m;
      f(k, m[k]) + Sum(m - {k}, f)
  }

  ghost function At<K, V>(m: map<K, V>, f: (K, V) -> nat, k: K): nat {
    if k in m then f(k, m[k]) else 0
  }

  lemma SizeDrops<K, V>(m: map<K, V>, k: K)
    requires k in m
    ensures |m - {k}| == |m| - 1
  {
    assert (m - {k}).Keys == m.Keys - {k};
    assert |m.Keys| == |m| && |(m - {k}).Keys| == |m - {k}|;
  }

  /** Any entry may be taken out first. */
  lemma {:induction false} SumPick<K, V>(m: map<K, V>, f: (K, V) -> nat, k: K)
    requires k in m
    ensures Sum(m, f) == f(k, m[k]) + Sum(m - {k}, f)
    decreases |m|
  {
    var j :| j in m && Sum(m, f) == f(j, m[j]) + Sum(m - {j}, f);
    if j != k {
      assert (m - {j}) - {k} == (m - {k}) - {j};
      SizeDrops(m, j);
      SizeDrops(m, k);
      SumPick(m - {j}, f, k);
      SumPick(m - {k}, f, j);
    }
  }

  lemma SumSet<K, V>(m: map<K, V>, f: (K, V) -> nat, k: K, was: nat, v: V)
    requires was == At(m, f, k)
    ensures Sum(m[k := v], f) == Sum(m, f) - was + f(k, v)
    ensures was <= Sum(m, f)
  {
    SumPick(m[k := v], f, k);
    if k in m {
      SumPick(m, f, k);
      assert m[k := v] - {k} == m - {k};
    } else {
      assert m[k := v] - {k} == m;
    }
  }

  lemma SumDrop<K, V>(m: map<K, V>, f: (K, V) -> nat, k: K, was: nat)
    requires was == At(m, f, k)
    ensures Sum(m - {k}, f) == Sum(m, f) - was
  {
    if k in m {
      SumPick(m, f, k);
    } else {
      assert m - {k} == m;
    }
  }

  lemma SumElement<K, V>(m: map<K, V>, f: (K, V) -> nat, k: K)
    ensures At(m, f, k) <= Sum(m, f)
  {
    if k in m {
      SumPick(m, f, k);
    }
  }

  lemma {:induction false} SumZero<K, V>(m: map<K, V>, f: (K, V) -> nat)
    requires forall k :: k in m ==> f(k, m[k]) == 0
    ensures Sum(m, f) == 0
    decreases |m|
  {
    if m != map[] {
      var k :| k in m;
      SumPick(m, f, k);
      SizeDrops(m, k);
      SumZero(m - {k}, f);
    }
  }
}
