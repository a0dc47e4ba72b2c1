/** Small facts about sets and maps. */
module Collections {
  lemma SubsetSize<T>(a: set<T>, b: set<T>)
    requires a <= b
    ensures |a| <= |b|
  {
    assert b == a + (b - a);
  }

  lemma SomeKey<K, V>(m: map<K, V>) returns (k: K)
    requires m != map[]
    ensures k in m
  {
    k :| k in m;
  }

  lemma SomeOther<K, V>(m: map<K, V>, k: K) returns (o: K)
    requires k in m && m.Keys != {k}
    ensures o in m && o != k
  {
    assert exists j :: j in m && j != k;
    o :| o in m && o != k;
  }

  lemma OneLess<K, V>(m: map<K, V>, k: K)
    ensures |m - {k}| == if k in m then |m| - 1 else |m|
  {
    assert (m - {k}).Keys == m.Keys - {k};
  }
}
