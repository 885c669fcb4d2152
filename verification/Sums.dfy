/** Sums of integers held in finite maps. */
module Sums {
  import opened Host

  ghost function Sum<K>(m: map<K, int>): int
    decreases |m|
  {
    if m == map[] then 0 else
      var k :| k in m;
      m[k] + Sum(m - {k})
  }

  // Every key can be taken out first.
  lemma {:induction false} SumRemove<K>(m: map<K, int>, k: K)
    requires k in m
    ensures Sum(m) == m[k] + Sum(m - {k})
    decreases |m|
  {
    var j :| j in m && Sum(m) == m[j] + Sum(m - {j});
    if j != k {
      SumRemove(m - {j}, k);
      SumRemove(m - {k}, j);
      assert m - {j} - {k} == m - {k} - {j};
    }
  }

  // Writing one entry moves the sum by the change of that entry.
  lemma SumWrite<K>(m: map<K, int>, k: K, v: int)
    ensures Sum(m[k := v]) == Sum(m) - Read(m, k) + v
  {
    SumRemove(m[k := v], k);
    assert m[k := v] - {k} == m - {k};
    if k in m {
      SumRemove(m, k);
    } else {
      assert m - {k} == m;
    }
  }

  // Fewer keys with smaller entries sum to less.
  lemma {:induction false} SumMonotone<K>(a: map<K, int>, b: map<K, int>)
    requires forall k :: k in a ==> k in b && a[k] <= b[k]
    requires forall k :: k in b ==> 0 <= b[k]
    ensures Sum(a) <= Sum(b)
    decreases |b|
  {
    if b != map[] {
      var k :| k in b;
      SumRemove(b, k);
      SumMonotone(a - {k}, b - {k});
      if k in a {
        SumRemove(a, k);
      } else {
        assert a - {k} == a;
      }
    } else {
      assert a == map[];
    }
  }

  // The sum of one figure of every value of a map.
  ghost function SumOf<K, V>(m: map<K, V>, f: V -> int): int {
    Sum(map k | k in m :: f(m[k]))
  }

  lemma SumOfEmpty<K, V>(m: map<K, V>, f: V -> int)
    requires m == map[]
    ensures SumOf(m, f) == 0
  {
  }

  lemma SumOfWrite<K, V>(m: map<K, V>, f: V -> int, k: K, v: V)
    ensures SumOf(m[k := v], f) == SumOf(m, f) - (if k in m then f(m[k]) else 0) + f(v)
  {
    var p := map j | j in m :: f(m[j]);
    SumWrite(p, k, f(v));
    var m' := m[k := v];
    assert (map j | j in m' :: f(m'[j])) == p[k := f(v)];
  }

  lemma SumOfNonNegative<K, V>(m: map<K, V>, f: V -> int)
    requires forall k :: k in m ==> f(m[k]) >= 0
    ensures SumOf(m, f) >= 0
  {
    SumMonotone(map[], map k | k in m :: f(m[k]));
    assert Sum<K>(map[]) == 0;
  }
}
