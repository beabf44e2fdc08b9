/** Sums over the values of finite maps: the totals of a key-value store. */
module MapSums {

  /** The sum of `weight` over every entry of `m`. */
  ghost function SumBy<K, V>(m: map<K, V>, weight: V -> int): int
    decreases |m|
  {
    if m == map[] then 0
    else
      var k :| k in m;
      weight(m[k]) + SumBy(m - {k}, weight)
  }

  /** Any entry may be taken out first. */
  lemma {:induction false} SumTakeOut<K, V>(m: map<K, V>, weight: V -> int, k: K)
    requires k in m
    ensures SumBy(m, weight) == weight(m[k]) + SumBy(m - {k}, weight)
    decreases |m|
  {
    var first :| first in m && SumBy(m, weight) == weight(m[first]) + SumBy(m - {first}, weight);
    if first != k {
      SumTakeOut(m - {first}, weight, k);
      SumTakeOut(m - {k}, weight, first);
      assert m - {first} - {k} == m - {k} - {first};
    }
  }

  ghost function WeightAt<K, V>(m: map<K, V>, weight: V -> int, k: K): int {
    if k in m then weight(m[k]) else 0
  }

  lemma {:induction false} SumRemove<K, V>(m: map<K, V>, weight: V -> int, k: K)
    ensures SumBy(m - {k}, weight) == SumBy(m, weight) - WeightAt(m, weight, k)
  {
    if k in m {
      SumTakeOut(m, weight, k);
    } else {
      assert m - {k} == m;
    }
  }

  lemma {:induction false} SumUpdate<K, V>(m: map<K, V>, weight: V -> int, k: K, v: V)
    ensures SumBy(m[k := v], weight) == SumBy(m, weight) - WeightAt(m, weight, k) + weight(v)
  {
    SumTakeOut(m[k := v], weight, k);
    assert m[k := v] - {k} == m - {k};
    SumRemove(m, weight, k);
  }

  /** Pointwise comparison of two weighings of the same keys. */
  lemma {:induction false} SumMonotone<K, V, W>(m: map<K, V>, f: V -> int, n: map<K, W>, g: W -> int)
    requires m.Keys == n.Keys
    requires forall k :: k in m ==> f(m[k]) <= g(n[k])
    ensures SumBy(m, f) <= SumBy(n, g)
    decreases |m|
  {
    if m == map[] {
      assert n == map[];
    } else {
      var k :| k in m;
      SumTakeOut(m, f, k);
      SumTakeOut(n, g, k);
      SumMonotone(m - {k}, f, n - {k}, g);
    }
  }

  lemma SumEqual<K, V, W>(m: map<K, V>, f: V -> int, n: map<K, W>, g: W -> int)
    requires m.Keys == n.Keys
    requires forall k :: k in m ==> f(m[k]) == g(n[k])
    ensures SumBy(m, f) == SumBy(n, g)
  {
    SumMonotone(m, f, n, g);
    SumMonotone(n, g, m, f);
  }

  /** A sum of non-negative weights bounds each of them. */
  lemma SumBoundsEntry<K, V>(m: map<K, V>, weight: V -> int, k: K)
    requires forall j :: j in m ==> weight(m[j]) >= 0
    ensures SumBy(m, weight) >= WeightAt(m, weight, k)
  {
  }

  /** ... and any two of them together. */
  lemma SumBoundsTwo<K, V>(m: map<K, V>, weight: V -> int, j: K, k: K)
    requires forall i :: i in m ==> weight(m[i]) >= 0
    requires j != k
    ensures SumBy(m, weight) >= WeightAt(m, weight, j) + WeightAt(m, weight, k)
  {
  }

  function Itself(x: int): int { x }

  lemma {:induction false} SumZero<K>(m: map<K, int>)
    requires forall k :: k in m ==> m[k] == 0
    ensures SumBy(m, Itself) == 0
    decreases |m|
  {
    if m != map[] {
      var k :| k in m;
      SumTakeOut(m, Itself, k);
      SumZero(m - {k});
    }
  }
}
