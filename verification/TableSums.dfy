/** Sums over the rows of a table, and what changing one row or deleting rows does to them. */
module TableSums {
  ghost function Choose<T>(s: set<T>): (x: T)
    requires s != {}
    ensures x in s
  {
    var x :| x in s;
    x
  }

  ghost function Sum<K, V>(m: map<K, V>, f: (K, V) -> int): int
    decreases |m|
  {
    if m == map[] then 0
    else
      var k := Choose(m.Keys);
      f(k, m[k]) + Sum(m - {k}, f)
  }

  // Any row may be counted first.
  lemma {:induction false} SumSplit<K, V>(m: map<K, V>, k: K, f: (K, V) -> int)
    requires k in m
    ensures Sum(m, f) == f(k, m[k]) + Sum(m - {k}, f)
    decreases |m|
  {
    var first := Choose(m.Keys);
    if first != k {
      SumSplit(m - {first}, k, f);
      SumSplit(m - {k}, first, f);
      assert m - {first} - {k} == m - {k} - {first};
    }
  }

  lemma SumSet<K, V>(m: map<K, V>, k: K, v: V, f: (K, V) -> int)
    ensures Sum(m[k := v], f) == Sum(m, f) + f(k, v) - (if k in m then f(k, m[k]) else 0)
  {
    SumSplit(m[k := v], k, f);
    assert m[k := v] - {k} == m - {k};
    if k in m { SumSplit(m, k, f); } else { assert m - {k} == m; }
  }

  // Deleting rows does not raise the sum of a quantity that is never negative.
  lemma {:induction false} SumDelete<K, V>(m: map<K, V>, keys: set<K>, f: (K, V) -> int)
    requires forall k :: k in m ==> f(k, m[k]) >= 0
    ensures 0 <= Sum(m - keys, f) <= Sum(m, f)
    decreases |m|
  {
    if m == map[] {
      assert m - keys == map[];
    } else {
      var k := Choose(m.Keys);
      SumDelete(m - {k}, keys, f);
      if k in keys {
        assert m - keys == m - {k} - keys;
      } else {
        SumSplit(m - keys, k, f);
        assert m - keys - {k} == m - {k} - keys;
      }
    }
  }

  lemma {:induction false} SumAdds<K, V>(m: map<K, V>, f: (K, V) -> int, g: (K, V) -> int, both: (K, V) -> int)
    requires forall k :: k in m ==> both(k, m[k]) == f(k, m[k]) + g(k, m[k])
    ensures Sum(m, both) == Sum(m, f) + Sum(m, g)
    decreases |m|
  {
    if m != map[] { SumAdds(m - {Choose(m.Keys)}, f, g, both); }
  }

  lemma {:induction false} SumSame<K, V>(m: map<K, V>, f: (K, V) -> int, g: (K, V) -> int)
    requires forall k :: k in m ==> f(k, m[k]) == g(k, m[k])
    ensures Sum(m, f) == Sum(m, g)
    decreases |m|
  {
    if m != map[] { SumSame(m - {Choose(m.Keys)}, f, g); }
  }

  lemma {:induction false} SumZero<K, V>(m: map<K, V>, f: (K, V) -> int)
    requires forall k :: k in m ==> f(k, m[k]) == 0
    ensures Sum(m, f) == 0
    decreases |m|
  {
    if m != map[] { SumZero(m - {Choose(m.Keys)}, f); }
  }

  // Rows that count for nothing can be left out.
  lemma {:induction false} SumWithout<K, V>(m: map<K, V>, keys: set<K>, f: (K, V) -> int)
    requires forall k :: k in m && k in keys ==> f(k, m[k]) == 0
    ensures Sum(m - keys, f) == Sum(m, f)
    decreases |m|
  {
    if m == map[] {
      assert m - keys == map[];
    } else {
      var k := Choose(m.Keys);
      SumWithout(m - {k}, keys, f);
      if k in keys {
        assert m - keys == m - {k} - keys;
      } else {
        SumSplit(m - keys, k, f);
        assert m - keys - {k} == m - {k} - keys;
      }
    }
  }
}
