/** Sums over maps, and over lists of their keys. */
module Sums {
  import opened Ordering

  ghost function Pick<K>(m: map<K, real>): (k: K)
    requires m != map[]
    ensures k in m
  {
    var k :| k in m;
    k
  }

  ghost function MapSum<K>(m: map<K, real>): real
    decreases |m.Keys|
  {
    if m == map[] then 0.0 else
    var k := Pick(m);
    assert (m - {k}).Keys == m.Keys - {k};
    m[k] + MapSum(m - {k})
  }

  lemma {:induction false} MapSumAt<K>(m: map<K, real>, k: K)
    requires k in m
    ensures MapSum(m) == m[k] + MapSum(m - {k})
    decreases |m.Keys|
  {
    var j := Pick(m);
    assert (m - {j}).Keys == m.Keys - {j} && (m - {k}).Keys == m.Keys - {k};
    if j != k {
      MapSumAt(m - {j}, k);
      MapSumAt(m - {k}, j);
      assert m - {j} - {k} == m - {k} - {j};
    }
  }

  function ValueOr<K>(m: map<K, real>, k: K): real {
    if k in m then m[k] else 0.0
  }

  lemma {:induction false} MapSumUpdate<K>(m: map<K, real>, k: K, v: real)
    ensures MapSum(m[k := v]) == MapSum(m) - ValueOr(m, k) + v
  {
    MapSumAt(m[k := v], k);
    assert m[k := v] - {k} == m - {k};
    if k in m {
      MapSumAt(m, k);
    } else {
      assert m - {k} == m;
    }
  }

  /** A sum over a list of keys, those that are there. */
  function SumOf<K>(m: map<K, real>, keys: seq<K>): real {
    if keys == [] then 0.0 else SumOf(m, keys[..|keys| - 1]) + ValueOr(m, keys[|keys| - 1])
  }

  lemma {:induction false} SumOfSame<K>(m: map<K, real>, n: map<K, real>, keys: seq<K>)
    requires forall i :: 0 <= i < |keys| ==> ValueOr(m, keys[i]) == ValueOr(n, keys[i])
    ensures SumOf(m, keys) == SumOf(n, keys)
  {
    if keys != [] {
      SumOfSame(m, n, keys[..|keys| - 1]);
    }
  }

  /** Summing over a list that names every key once is summing over the map. */
  lemma {:induction false} SumOfAll<K>(m: map<K, real>, keys: seq<K>)
    requires AllDifferent(keys) && forall k :: k in m ==> k in keys
    ensures SumOf(m, keys) == MapSum(m)
  {
    if keys != [] {
      var front, last := keys[..|keys| - 1], keys[|keys| - 1];
      assert keys == front + [last];
      SumOfAll(m - {last}, front);
      SumOfSame(m, m - {last}, front);
      if last in m {
        MapSumAt(m, last);
      } else {
        assert m - {last} == m;
      }
    }
  }
}
