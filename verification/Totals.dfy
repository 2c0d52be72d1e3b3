/** Sums over the values of a map. */
module Totals {

  ghost function SumOf<K, V>(m: map<K, V>, f: V -> int): int {
    if m == map[] then 0
    else
      var k :| k in m;
      f(m[k]) + SumOf(m - {k}, f)
  }

  lemma {:induction false} SumRemove<K, V>(m: map<K, V>, f: V -> int, k: K)
    requires k in m
    ensures SumOf(m, f) == f(m[k]) + SumOf(m - {k}, f)
    decreases |m|
  {
    var c :| c in m && SumOf(m, f) == f(m[c]) + SumOf(m - {c}, f);
    if c != k {
      RemovedSize(m, c);
      SumRemove(m - {c}, f, k);
      RemovedSize(m, k);
      SumRemove(m - {k}, f, c);
      assert (m - {c}) - {k} == (m - {k}) - {c};
    }
  }

  lemma {:induction false} RemovedSize<K, V>(m: map<K, V>, k: K)
    ensures |m - {k}| == if k in m then |m| - 1 else |m|
  {
    assert (m - {k}).Keys == m.Keys - {k};
    assert |m - {k}| == |(m - {k}).Keys| && |m| == |m.Keys|;
  }

  lemma {:induction false} AddedSize<K, V>(m: map<K, V>, k: K, v: V)
    ensures |m[k := v]| == if k in m then |m| else |m| + 1
  {
    assert m[k := v].Keys == m.Keys + {k};
    assert |m[k := v]| == |m[k := v].Keys| && |m| == |m.Keys|;
  }

  lemma {:induction false} SumUpdate<K, V>(m: map<K, V>, f: V -> int, k: K, v: V)
    ensures SumOf(m[k := v], f) == SumOf(m - {k}, f) + f(v)
    ensures k !in m ==> SumOf(m[k := v], f) == SumOf(m, f) + f(v)
    ensures k in m ==> SumOf(m[k := v], f) == SumOf(m, f) - f(m[k]) + f(v)
  {
    SumRemove(m[k := v], f, k);
    assert m[k := v] - {k} == m - {k};
    if k in m {
      SumRemove(m, f, k);
    } else {
      assert m - {k} == m;
    }
  }

  lemma SumNonNegative<K, V>(m: map<K, V>, f: V -> int)
    requires forall k | k in m :: f(m[k]) >= 0
    ensures SumOf(m, f) >= 0
    decreases |m|
  {
    if k :| k in m {
      SumRemove(m, f, k);
      RemovedSize(m, k);
      SumNonNegative(m - {k}, f);
    }
  }
}
