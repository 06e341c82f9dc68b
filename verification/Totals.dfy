/**
  Sums over the values of a map, as Python's `sum(... for v in d.values())` computes them whatever
  the insertion order of `d` is.
*/
module Totals {

  ghost function Total<K, V>(m: map<K, V>, weight: V -> real): real {
    if m == map[] then 0.0
    else
      var k :| k in m;
      weight(m[k]) + Total(m - {k}, weight)
  }

  /** Any key may be split off, not only the one the definition picks. */
  lemma {:induction false} TotalSplit<K, V>(m: map<K, V>, k: K, weight: V -> real)
    requires k in m
    ensures Total(m, weight) == weight(m[k]) + Total(m - {k}, weight)
    decreases |m|
  {
    var c :| c in m && Total(m, weight) == weight(m[c]) + Total(m - {c}, weight);
    if c != k {
      TotalSplit(m - {c}, k, weight);
      TotalSplit(m - {k}, c, weight);
      assert m - {c} - {k} == m - {k} - {c};
    }
  }

  /** The total of a weight that is 1 on the keys of `s` and 0 on the others is the size of `s`. */
  lemma {:induction false} TotalCounts<K, V>(m: map<K, V>, weight: V -> real, s: set<K>)
    requires s <= m.Keys && forall k | k in m :: weight(m[k]) == if k in s then 1.0 else 0.0
    ensures Total(m, weight) == |s| as real
    decreases |m|
  {
    if m == map[] {
      assert s == {};
    } else {
      var k :| k in m;
      TotalSplit(m, k, weight);
      TotalCounts(m - {k}, weight, s - {k});
      assert k !in s ==> s - {k} == s;
    }
  }

  lemma TotalInsert<K, V>(m: map<K, V>, k: K, v: V, weight: V -> real)
    requires k !in m
    ensures Total(m[k := v], weight) == Total(m, weight) + weight(v)
  {
    TotalSplit(m[k := v], k, weight);
    assert m[k := v] - {k} == m;
  }

  lemma TotalUpdate<K, V>(m: map<K, V>, k: K, v: V, weight: V -> real)
    requires k in m
    ensures Total(m[k := v], weight) == Total(m, weight) - weight(m[k]) + weight(v)
  {
    TotalSplit(m, k, weight);
    TotalSplit(m[k := v], k, weight);
    assert m[k := v] - {k} == m - {k};
  }

  lemma {:induction false} TotalMonotone<K, V>(m: map<K, V>, f: V -> real, g: V -> real)
    requires forall k | k in m :: f(m[k]) <= g(m[k])
    ensures Total(m, f) <= Total(m, g)
    decreases |m|
  {
    if m != map[] {
      var k :| k in m;
      TotalSplit(m, k, f);
      TotalSplit(m, k, g);
      TotalMonotone(m - {k}, f, g);
    }
  }

  /** `n * x`, as repeated addition. */
  function Repeat(n: nat, x: real): real {
    if n == 0 then 0.0 else x + Repeat(n - 1, x)
  }

  function Repeated<V>(n: nat, f: V -> real): V -> real {
    v => Repeat(n, f(v))
  }

  lemma {:induction false} RepeatIsProduct(n: nat, x: real)
    ensures Repeat(n, x) == n as real * x
  {
    if n > 0 {
      RepeatIsProduct(n - 1, x);
      var k := (n - 1) as real;
      assert n as real == k + 1.0;
      assert (k + 1.0) * x == k * x + x;
    }
  }

  lemma {:induction false} RepeatAdds(n: nat, x: real, y: real)
    ensures Repeat(n, x + y) == Repeat(n, x) + Repeat(n, y)
  {
    if n > 0 {
      RepeatAdds(n - 1, x, y);
    }
  }

  lemma {:induction false} TotalRepeated<K, V>(m: map<K, V>, n: nat, f: V -> real)
    ensures Total(m, Repeated(n, f)) == Repeat(n, Total(m, f))
    decreases |m|
  {
    if m == map[] {
      RepeatIsProduct(n, 0.0);
    } else {
      var k :| k in m;
      TotalSplit(m, k, f);
      TotalSplit(m, k, Repeated(n, f));
      TotalRepeated(m - {k}, n, f);
      RepeatAdds(n, f(m[k]), Total(m - {k}, f));
    }
  }

  function Plus<V>(f: V -> real, g: V -> real): V -> real {
    v => f(v) + g(v)
  }

  lemma {:induction false} TotalPlus<K, V>(m: map<K, V>, f: V -> real, g: V -> real)
    ensures Total(m, Plus(f, g)) == Total(m, f) + Total(m, g)
    decreases |m|
  {
    if m != map[] {
      var k :| k in m;
      TotalSplit(m, k, f);
      TotalSplit(m, k, g);
      TotalSplit(m, k, Plus(f, g));
      TotalPlus(m - {k}, f, g);
    }
  }

  function One<V>(v: V): real {
    1.0
  }

  lemma {:induction false} TotalOne<K, V>(m: map<K, V>)
    ensures Total(m, One) == |m| as real
    decreases |m|
  {
    if m != map[] {
      var k :| k in m;
      TotalSplit(m, k, One);
      TotalOne(m - {k});
      assert m == (m - {k})[k := m[k]];
    }
  }
}
