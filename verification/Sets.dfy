/** What the models need to know about finite sets and maps. */
module Sets {
  lemma SubsetSize<T>(a: set<T>, b: set<T>)
    requires a <= b
    ensures |a| <= |b|
  {
    assert b == a + (b - a);
  }

  /** A finite map leaves numbers unused. */
  lemma SomeFreshKey<V>(m: map<nat, V>) returns (k: nat)
    ensures k !in m
  {
    k := 0;
    ghost var above := m.Keys;
    while k in m
      invariant above == set j | j in m && k <= j
      decreases above
    {
      assert k in above;
      above := above - {k};
      k := k + 1;
    }
  }
}
