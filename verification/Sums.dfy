/** Sums of the values of a finite map: the measures that retries and batches use up. */
module Sums {

  ghost function Total<K>(m: map<K, int>): int
    decreases |m|
  {
    if m == map[] then 0 else
      var k :| k in m;
      m[k] + Total(m - {k})
  }

  /** The order of summation does not matter: any key can be taken out first. */
  lemma {:induction false} TotalRemove<K>(m: map<K, int>, k: K)
    requires k in m
    ensures Total(m) == m[k] + Total(m - {k})
    decreases |m|
  {
    var first :| first in m && Total(m) == m[first] + Total(m - {first});
    if first != k {
      TotalRemove(m - {first}, k);
      TotalRemove(m - {k}, first);
      assert m - {first} - {k} == m - {k} - {first};
    }
  }

  /** Lowering the values at the keys in `s` by one lowers the total by the number of keys. */
  lemma {:induction false} TotalLowered<K>(m: map<K, int>, lowered: map<K, int>, s: set<K>)
    requires m.Keys == lowered.Keys && s <= m.Keys
    requires forall k | k in m :: lowered[k] == if k in s then m[k] - 1 else m[k]
    ensures Total(lowered) == Total(m) - |s|
    decreases |m|
  {
    if m == map[] {
      assert lowered == map[];
      assert s == {};
    } else {
      var k :| k in m;
      TotalRemove(m, k);
      TotalRemove(lowered, k);
      TotalLowered(m - {k}, lowered - {k}, s - {k});
    }
  }

  /** The same when the values may fall further. */
  lemma {:induction false} TotalDrops<K>(m: map<K, int>, lowered: map<K, int>, s: set<K>)
    requires m.Keys == lowered.Keys && s <= m.Keys
    requires forall k | k in m :: lowered[k] <= if k in s then m[k] - 1 else m[k]
    ensures Total(lowered) <= Total(m) - |s|
    decreases |m|
  {
    if m == map[] {
      assert lowered == map[] && s == {};
    } else {
      var k :| k in m;
      TotalRemove(m, k);
      TotalRemove(lowered, k);
      TotalDrops(m - {k}, lowered - {k}, s - {k});
    }
  }

  /** Values of at most `high` on the keys in `s` and of at most zero elsewhere. */
  lemma {:induction false} TotalSupport<K>(m: map<K, int>, s: set<K>, high: nat)
    requires s <= m.Keys
    requires forall k | k in m :: m[k] <= if k in s then high else 0
    ensures Total(m) <= high * |s|
    decreases |m|
  {
    if m == map[] {
      assert s == {};
    } else {
      var k :| k in m;
      TotalRemove(m, k);
      TotalSupport(m - {k}, s - {k}, high);
      if k in s {
        assert |s| == |s - {k}| + 1;
        Distributes(high, |s - {k}|);
      } else {
        assert s - {k} == s;
      }
    }
  }

  lemma {:induction false} TotalAtMost<K>(m: map<K, int>, high: int)
    requires forall k | k in m :: m[k] <= high
    ensures Total(m) <= high * |m|
    decreases |m|
  {
    if m == map[] {
    } else {
      var k :| k in m;
      var rest := m - {k};
      TotalRemove(m, k);
      TotalAtMost(rest, high);
      assert m == rest[k := m[k]];
      Distributes(high, |rest|);
    }
  }

  lemma {:induction false} TotalAtLeast<K>(m: map<K, int>, low: int)
    requires forall k | k in m :: low <= m[k]
    ensures low * |m| <= Total(m)
    decreases |m|
  {
    if m == map[] {
    } else {
      var k :| k in m;
      var rest := m - {k};
      TotalRemove(m, k);
      TotalAtLeast(rest, low);
      assert m == rest[k := m[k]];
      Distributes(low, |rest|);
    }
  }

  lemma Distributes(c: int, n: int)
    ensures c * (n + 1) == c * n + c
  {
  }

  lemma TotalInsert<K>(m: map<K, int>, k: K, v: int)
    requires k !in m
    ensures Total(m[k := v]) == Total(m) + v
  {
    TotalRemove(m[k := v], k);
    assert m[k := v] - {k} == m;
  }
}
