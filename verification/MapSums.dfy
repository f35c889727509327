/** Sums over finite dictionaries, independent of the order of iteration. */
module MapSums {

  ghost function Pick<K(!new)>(m: map<K, int>): (k: K)
    requires |m| != 0
    ensures k in m
  {
    var k :| k in m;
    k
  }

  ghost function Total<K(!new)>(m: map<K, int>): int
    decreases |m|
  {
    if |m| == 0 then 0 else m[Pick(m)] + Total(m - {Pick(m)})
  }

  lemma {:induction false} TotalWithout<K(!new)>(m: map<K, int>, k: K)
    requires k in m
    ensures Total(m) == m[k] + Total(m - {k})
    decreases |m|
  {
    assert |m| != 0;
    var first := Pick(m);
    if first != k {
      var without := m - {first} - {k};
      assert without == m - {k} - {first};
      TotalWithout(m - {first}, k);
      TotalWithout(m - {k}, first);
    }
  }

  lemma TotalUpdate<K(!new)>(m: map<K, int>, k: K, v: int)
    requires k in m
    ensures Total(m[k := v]) == Total(m) - m[k] + v
  {
    TotalWithout(m, k);
    TotalWithout(m[k := v], k);
    assert m[k := v] - {k} == m - {k};
  }

  lemma TotalInsert<K(!new)>(m: map<K, int>, k: K, v: int)
    requires k !in m
    ensures Total(m[k := v]) == Total(m) + v
  {
    TotalWithout(m[k := v], k);
    assert m[k := v] - {k} == m;
  }

  lemma {:induction false} TotalPlus<K(!new)>(a: map<K, int>, b: map<K, int>, c: map<K, int>)
    requires a.Keys == b.Keys == c.Keys
    requires forall k :: k in a ==> c[k] == a[k] + b[k]
    ensures Total(c) == Total(a) + Total(b)
    decreases |a|
  {
    if |a| != 0 {
      var k :| k in a;
      TotalWithout(a, k);
      TotalWithout(b, k);
      TotalWithout(c, k);
      TotalPlus(a - {k}, b - {k}, c - {k});
    } else {
      assert |b| == |c| == 0;
    }
  }

  lemma {:induction false} TotalNonneg<K(!new)>(m: map<K, int>)
    requires forall k :: k in m ==> 0 <= m[k]
    ensures 0 <= Total(m)
    decreases |m|
  {
    if |m| != 0 {
      var k :| k in m;
      TotalWithout(m, k);
      TotalNonneg(m - {k});
    }
  }

  lemma {:induction false} TotalWithin<K(!new)>(small: map<K, int>, large: map<K, int>)
    requires small.Keys <= large.Keys && forall k :: k in small ==> small[k] == large[k]
    requires forall k :: k in large ==> 0 <= large[k]
    ensures Total(small) <= Total(large)
    decreases |large|
  {
    if large.Keys == small.Keys {
      assert large == small;
    } else {
      var k :| k in large && k !in small;
      TotalWithout(large, k);
      TotalWithin(small, large - {k});
    }
  }
}
