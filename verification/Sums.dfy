/** Sums over finite maps and sequences, shared by the accounting proofs. */
module Sums {

  /** The sum of a map's values. */
  ghost function MapSum<K>(m: map<K, int>): int {
    if m == map[] then 0 else
      var k :| k in m;
      m[k] + MapSum(m - {k})
  }

  lemma {:induction false} MapSumRemove<K>(m: map<K, int>, k: K)
    requires k in m
    ensures MapSum(m) == m[k] + MapSum(m - {k})
    decreases |m|
  {
    var j :| j in m && MapSum(m) == m[j] + MapSum(m - {j});
    if j != k {
      MapSumRemove(m - {j}, k);
      MapSumRemove(m - {k}, j);
      assert m - {j} - {k} == m - {k} - {j};
    }
  }

  lemma MapSumUpdate<K>(m: map<K, int>, k: K, v: int)
    ensures MapSum(m[k := v]) == MapSum(m) - (if k in m then m[k] else 0) + v
  {
    MapSumRemove(m[k := v], k);
    if k in m {
      MapSumRemove(m, k);
      assert m[k := v] - {k} == m - {k};
    } else {
      assert m[k := v] - {k} == m;
    }
  }

  ghost function Raise<K>(m: map<K, int>, k: K, d: int): map<K, int> {
    m[k := (if k in m then m[k] else 0) + d]
  }

  lemma MapSumRaise<K>(m: map<K, int>, k: K, d: int)
    ensures MapSum(Raise(m, k, d)) == MapSum(m) + d
  {
    MapSumUpdate(m, k, (if k in m then m[k] else 0) + d);
  }
}
