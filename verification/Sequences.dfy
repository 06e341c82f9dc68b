/**
  Sequence operations of Python that several modules use: the stable `sorted`, filters and maps, and
  the lexicographic order on strings and lists.
*/
module Sequences {

  ghost predicate TotalPreorder<T(!new)>(le: (T, T) -> bool) {
    && (forall x, y :: le(x, y) || le(y, x))
    && (forall x, y, z :: le(x, y) && le(y, z) ==> le(x, z))
  }

  ghost predicate SortedBy<T>(xs: seq<T>, le: (T, T) -> bool) {
    forall i, j | 0 <= i < j < |xs| :: le(xs[i], xs[j])
  }

  ghost predicate Distinct<T>(xs: seq<T>) {
    forall i, j | 0 <= i < j < |xs| :: xs[i] != xs[j]
  }

  function Insert<T>(x: T, xs: seq<T>, le: (T, T) -> bool): seq<T> {
    if xs == [] || le(x, xs[0]) then [x] + xs else [xs[0]] + Insert(x, xs[1..], le)
  }

  /** The stable sort: an element goes before the later elements it is tied with. */
  function Sort<T>(xs: seq<T>, le: (T, T) -> bool): seq<T> {
    if xs == [] then [] else Insert(xs[0], Sort(xs[1..], le), le)
  }

  function Filter<T>(xs: seq<T>, p: T -> bool): seq<T> {
    if xs == [] then []
    else (if p(xs[0]) then [xs[0]] else []) + Filter(xs[1..], p)
  }

  lemma {:induction false} InsertMultiset<T>(x: T, xs: seq<T>, le: (T, T) -> bool)
    ensures multiset(Insert(x, xs, le)) == multiset{x} + multiset(xs)
  {
    if xs != [] && !le(x, xs[0]) {
      InsertMultiset(x, xs[1..], le);
      assert xs == [xs[0]] + xs[1..];
    }
  }

  lemma InsertMembers<T>(x: T, xs: seq<T>, le: (T, T) -> bool)
    ensures forall y :: y in Insert(x, xs, le) <==> y == x || y in xs
  {
  }

  lemma {:induction false} InsertSorted<T(!new)>(x: T, xs: seq<T>, le: (T, T) -> bool)
    requires TotalPreorder(le) && SortedBy(xs, le)
    ensures SortedBy(Insert(x, xs, le), le)
  {
    if xs == [] {
    } else if le(x, xs[0]) {
      forall i | 0 <= i < |xs| ensures le(x, xs[i]) {
        assert i == 0 || le(xs[0], xs[i]);
      }
    } else {
      InsertSorted(x, xs[1..], le);
      InsertMembers(x, xs[1..], le);
      assert forall y | y in xs[1..] :: le(xs[0], y);
      assert forall y | y in Insert(x, xs[1..], le) :: le(xs[0], y);
    }
  }

  /** `sorted` returns a sorted permutation of its argument. */
  lemma {:induction false} SortIsSortedPermutation<T(!new)>(xs: seq<T>, le: (T, T) -> bool)
    requires TotalPreorder(le)
    ensures SortedBy(Sort(xs, le), le)
    ensures multiset(Sort(xs, le)) == multiset(xs)
    ensures |Sort(xs, le)| == |xs|
    ensures forall x :: x in Sort(xs, le) <==> x in xs
  {
    if xs != [] {
      SortIsSortedPermutation(xs[1..], le);
      InsertSorted(xs[0], Sort(xs[1..], le), le);
      InsertMultiset(xs[0], Sort(xs[1..], le), le);
      assert xs == [xs[0]] + xs[1..];
    }
    SameMultiset(Sort(xs, le), xs);
  }

  lemma SameMultiset<T>(xs: seq<T>, ys: seq<T>)
    requires multiset(xs) == multiset(ys)
    ensures |xs| == |ys|
    ensures forall x :: x in xs <==> x in ys
  {
    assert |multiset(xs)| == |xs| && |multiset(ys)| == |ys|;
    forall x ensures x in xs <==> x in ys {
      assert x in xs <==> x in multiset(xs);
      assert x in ys <==> x in multiset(ys);
    }
  }

  /** A multiset has one sorted arrangement when distinct elements are never tied. */
  lemma {:induction false} SortedUnique<T(!new)>(xs: seq<T>, ys: seq<T>, le: (T, T) -> bool)
    requires SortedBy(xs, le) && SortedBy(ys, le)
    requires multiset(xs) == multiset(ys)
    requires forall x, y | x in xs && y in xs && le(x, y) && le(y, x) :: x == y
    ensures xs == ys
  {
    SameMultiset(xs, ys);
    if xs != [] {
      FirstIsLeast(xs, ys[0], le);
      FirstIsLeast(ys, xs[0], le);
      TailMultiset(xs);
      TailMultiset(ys);
      assert forall x | x in xs[1..] :: x in xs;
      SortedUnique(xs[1..], ys[1..], le);
    }
  }

  lemma FirstIsLeast<T>(xs: seq<T>, y: T, le: (T, T) -> bool)
    requires SortedBy(xs, le) && y in xs
    ensures y == xs[0] || le(xs[0], y)
  {
  }

  lemma TailMultiset<T>(xs: seq<T>)
    requires xs != []
    ensures multiset(xs[1..]) == multiset(xs) - multiset{xs[0]}
    ensures xs == [xs[0]] + xs[1..]
  {
    assert xs == [xs[0]] + xs[1..];
  }

  lemma {:induction false} InsertBefore<T>(x: T, xs: seq<T>, ys: seq<T>, le: (T, T) -> bool)
    requires ys == [] || le(x, ys[0])
    ensures Insert(x, xs + ys, le) == Insert(x, xs, le) + ys
  {
    if xs == [] {
      assert xs + ys == ys;
    } else {
      assert (xs + ys)[0] == xs[0] && (xs + ys)[1..] == xs[1..] + ys;
      if !le(x, xs[0]) {
        InsertBefore(x, xs[1..], ys, le);
      }
    }
  }

  /** Elements that come after all the others stay after them: the sort is stable. */
  lemma {:induction false} SortAppend<T(!new)>(xs: seq<T>, ys: seq<T>, le: (T, T) -> bool)
    requires TotalPreorder(le)
    requires forall x, y | x in xs && y in ys :: le(x, y)
    ensures Sort(xs + ys, le) == Sort(xs, le) + Sort(ys, le)
  {
    if xs == [] {
      assert xs + ys == ys;
    } else {
      assert (xs + ys)[1..] == xs[1..] + ys;
      SortAppend(xs[1..], ys, le);
      SortIsSortedPermutation(ys, le);
      var tail := Sort(ys, le);
      if tail != [] {
        assert tail[0] in tail && tail[0] in ys && xs[0] in xs;
      }
      InsertBefore(xs[0], Sort(xs[1..], le), tail, le);
    }
  }

  lemma {:induction false} InsertBetween<T>(x: T, xs: seq<T>, ys: seq<T>, le: (T, T) -> bool)
    requires forall y | y in xs :: !le(x, y)
    requires ys == [] || le(x, ys[0])
    ensures Insert(x, xs + ys, le) == xs + [x] + ys
  {
    if xs == [] {
      assert xs + ys == ys;
    } else {
      assert (xs + ys)[0] == xs[0] && (xs + ys)[1..] == xs[1..] + ys;
      InsertBetween(x, xs[1..], ys, le);
      assert xs + [x] + ys == [xs[0]] + (xs[1..] + [x] + ys);
    }
  }

  lemma {:induction false} SplitBefore<T>(x: T, xs: seq<T>, le: (T, T) -> bool) returns (p: nat)
    ensures p <= |xs|
    ensures forall y | y in xs[..p] :: !le(x, y)
    ensures p < |xs| ==> le(x, xs[p])
  {
    p := 0;
    if xs != [] && !le(x, xs[0]) {
      var q := SplitBefore(x, xs[1..], le);
      p := q + 1;
      assert xs[..p] == [xs[0]] + xs[1..][..q];
    }
  }

  lemma InsertTwo<T>(x: T, y: T, xs: seq<T>, ys: seq<T>, le: (T, T) -> bool)
    requires forall z | z in xs :: !le(x, z) && !le(y, z)
    requires le(x, y) && (ys == [] || le(y, ys[0]))
    ensures Insert(x, Insert(y, xs + ys, le), le) == xs + [x] + ([y] + ys)
  {
    InsertBetween(y, xs, ys, le);
    assert xs + [y] + ys == xs + ([y] + ys);
    InsertBetween(x, xs, [y] + ys, le);
  }

  lemma SortTwo<T>(x: T, y: T, rest: seq<T>, le: (T, T) -> bool)
    ensures Sort([x, y] + rest, le) == Insert(x, Insert(y, Sort(rest, le), le), le)
  {
    assert ([x, y] + rest)[1..] == [y] + rest && ([y] + rest)[1..] == rest;
  }

  /** Two tied elements in front come out next to each other, in the order given, after all smaller ones. */
  lemma SortTiedPair<T(!new)>(x: T, y: T, rest: seq<T>, le: (T, T) -> bool) returns (p: nat)
    requires TotalPreorder(le) && le(x, y) && le(y, x)
    ensures var s := Sort(rest, le);
      && p <= |s|
      && Sort([x, y] + rest, le) == s[..p] + [x] + ([y] + s[p..])
      && Sort([y, x] + rest, le) == s[..p] + [y] + ([x] + s[p..])
      && forall z | z in s[..p] :: !le(x, z)
  {
    var s := Sort(rest, le);
    p := SplitBefore(x, s, le);
    var before, after := s[..p], s[p..];
    assert before + after == s;
    forall z | z in before ensures !le(y, z) {
      assert le(y, z) ==> le(x, z);
    }
    assert after != [] ==> le(x, after[0]) && le(y, after[0]);
    SortTwo(x, y, rest, le);
    SortTwo(y, x, rest, le);
    InsertTwo(x, y, before, after, le);
    InsertTwo(y, x, before, after, le);
  }

  lemma {:induction false} FilterAppend<T>(xs: seq<T>, ys: seq<T>, p: T -> bool)
    ensures Filter(xs + ys, p) == Filter(xs, p) + Filter(ys, p)
  {
    if xs == [] {
      assert xs + ys == ys;
    } else {
      FilterAppend(xs[1..], ys, p);
      assert (xs + ys)[0] == xs[0] && (xs + ys)[1..] == xs[1..] + ys;
      var head := if p(xs[0]) then [xs[0]] else [];
      assert head + (Filter(xs[1..], p) + Filter(ys, p)) == (head + Filter(xs[1..], p)) + Filter(ys, p);
    }
  }

  lemma {:induction false} FilterMembers<T>(xs: seq<T>, p: T -> bool)
    ensures forall x :: x in Filter(xs, p) <==> x in xs && p(x)
  {
    if xs != [] {
      FilterMembers(xs[1..], p);
      assert xs == [xs[0]] + xs[1..];
    }
  }

  /** Two complementary filters split the elements between them. */
  lemma {:induction false} FilterPartition<T>(xs: seq<T>, p: T -> bool, q: T -> bool)
    requires forall x | x in xs :: p(x) != q(x)
    ensures multiset(Filter(xs, p)) + multiset(Filter(xs, q)) == multiset(xs)
  {
    if xs != [] {
      FilterPartition(xs[1..], p, q);
      FilterStep(xs, p);
      FilterStep(xs, q);
      TailMultiset(xs);
      assert p(xs[0]) != q(xs[0]);
    }
  }

  lemma FilterStep<T>(xs: seq<T>, p: T -> bool)
    requires xs != []
    ensures multiset(Filter(xs, p)) == multiset(Filter(xs[1..], p)) + if p(xs[0]) then multiset{xs[0]} else multiset{}
  {
  }

  /** Where the elements with the property stand. */
  ghost function Indices<T>(xs: seq<T>, p: T -> bool): set<int> {
    set i | 0 <= i < |xs| && p(xs[i])
  }

  lemma OneMoreIndex<T>(xs: seq<T>, x: T, p: T -> bool)
    ensures |Indices(xs + [x], p)| == |Indices(xs, p)| + if p(x) then 1 else 0
  {
    var more := Indices(xs + [x], p);
    assert forall i | 0 <= i < |xs| :: (xs + [x])[i] == xs[i];
    assert (xs + [x])[|xs|] == x;
    assert more == Indices(xs, p) + if p(x) then {|xs|} else {};
  }

  lemma DistinctMultiset<T>(xs: seq<T>, ys: seq<T>)
    requires Distinct(xs) && multiset(xs) == multiset(ys)
    ensures Distinct(ys)
  {
    DistinctCounts(xs);
    CountsDistinct(ys);
  }

  lemma {:induction false} CountsDistinct<T>(ys: seq<T>)
    requires forall x :: multiset(ys)[x] <= 1
    ensures Distinct(ys)
  {
    if ys != [] {
      assert ys == [ys[0]] + ys[1..];
      assert multiset(ys) == multiset{ys[0]} + multiset(ys[1..]);
      forall x ensures multiset(ys[1..])[x] <= 1 {
        assert multiset(ys)[x] <= 1;
      }
      assert multiset(ys)[ys[0]] <= 1;
      CountsDistinct(ys[1..]);
    }
  }

  lemma DistinctConcat<T>(xs: seq<T>, ys: seq<T>)
    requires Distinct(xs) && Distinct(ys)
    requires forall x | x in xs :: x !in ys
    ensures Distinct(xs + ys)
  {
    var zs := xs + ys;
    forall i, j | 0 <= i < j < |zs| ensures zs[i] != zs[j] {
      if i < |xs| <= j {
        assert zs[i] == xs[i] && zs[j] == ys[j - |xs|] && xs[i] !in ys;
      }
    }
  }

  lemma {:induction false} DistinctCounts<T>(xs: seq<T>)
    requires Distinct(xs)
    ensures forall x :: multiset(xs)[x] == if x in xs then 1 else 0
  {
    if xs != [] {
      DistinctCounts(xs[1..]);
      assert xs == [xs[0]] + xs[1..];
      assert xs[0] !in xs[1..];
    }
  }

  function Map<T, K>(xs: seq<T>, f: T -> K): seq<K> {
    if xs == [] then [] else [f(xs[0])] + Map(xs[1..], f)
  }

  lemma {:induction false} MapAt<T, K>(xs: seq<T>, f: T -> K)
    ensures |Map(xs, f)| == |xs|
    ensures forall i | 0 <= i < |xs| :: Map(xs, f)[i] == f(xs[i])
  {
    if xs != [] {
      MapAt(xs[1..], f);
    }
  }

  lemma {:induction false} MapTakeOut<T, K>(xs: seq<T>, k: nat, f: T -> K)
    requires k < |xs|
    ensures multiset(Map(xs, f)) == multiset{f(xs[k])} + multiset(Map(xs[..k] + xs[k + 1..], f))
  {
    var rest := xs[..k] + xs[k + 1..];
    if k == 0 {
      assert rest == xs[1..];
    } else {
      MapTakeOut(xs[1..], k - 1, f);
      assert rest[0] == xs[0] && rest[1..] == xs[1..][..k - 1] + xs[1..][k..];
    }
  }

  /** Mapping two permutations of each other gives two permutations of each other. */
  lemma {:induction false} MapPermutes<T, K>(xs: seq<T>, ys: seq<T>, f: T -> K)
    requires multiset(xs) == multiset(ys)
    ensures multiset(Map(xs, f)) == multiset(Map(ys, f))
    decreases |xs|
  {
    SameMultiset(xs, ys);
    if xs != [] {
      assert xs[0] in ys;
      var k :| 0 <= k < |ys| && ys[k] == xs[0];
      var rest := ys[..k] + ys[k + 1..];
      MapTakeOut(ys, k, f);
      TakeOut(ys, k);
      TailMultiset(xs);
      MapPermutes(xs[1..], rest, f);
      assert multiset(Map(xs, f)) == multiset{f(xs[0])} + multiset(Map(xs[1..], f));
    }
  }

  lemma SplitAt<T>(xs: seq<T>, k: nat)
    requires k < |xs|
    ensures xs == xs[..k] + [xs[k]] + xs[k + 1..]
  {
  }

  lemma TakeOut<T>(xs: seq<T>, k: nat)
    requires k < |xs|
    ensures multiset(xs[..k] + xs[k + 1..]) == multiset(xs) - multiset{xs[k]}
  {
    assert xs == xs[..k] + [xs[k]] + xs[k + 1..];
  }

  // ----- Lexicographic order, as Python compares strings, lists and tuples -----

  ghost predicate TotalOrder<T(!new)>(le: (T, T) -> bool) {
    TotalPreorder(le) && forall x, y :: le(x, y) && le(y, x) ==> x == y
  }

  /** Element by element; a proper prefix comes first. */
  predicate LexLe<T(==)>(s: seq<T>, t: seq<T>, le: (T, T) -> bool) {
    s == [] || (t != [] && if s[0] == t[0] then LexLe(s[1..], t[1..], le) else le(s[0], t[0]))
  }

  lemma {:induction false} LexTransitive<T(!new)>(s: seq<T>, t: seq<T>, u: seq<T>, le: (T, T) -> bool)
    requires TotalOrder(le) && LexLe(s, t, le) && LexLe(t, u, le)
    ensures LexLe(s, u, le)
  {
    if s != [] && s[0] == t[0] && t[0] == u[0] {
      LexTransitive(s[1..], t[1..], u[1..], le);
    }
  }

  lemma {:induction false} LexTotal<T(!new)>(s: seq<T>, t: seq<T>, le: (T, T) -> bool)
    requires TotalOrder(le)
    ensures LexLe(s, t, le) || LexLe(t, s, le)
    ensures LexLe(s, t, le) && LexLe(t, s, le) ==> s == t
  {
    if s != [] && t != [] && s[0] == t[0] {
      LexTotal(s[1..], t[1..], le);
      assert s == [s[0]] + s[1..] && t == [t[0]] + t[1..];
    }
  }

  predicate CharLe(c: char, d: char) {
    c <= d
  }

  predicate StringLe(s: string, t: string) {
    LexLe(s, t, CharLe)
  }

  lemma StringOrder()
    ensures TotalOrder(StringLe)
  {
    assert TotalOrder(CharLe);
    forall s, t ensures (StringLe(s, t) || StringLe(t, s)) && (StringLe(s, t) && StringLe(t, s) ==> s == t) {
      LexTotal(s, t, CharLe);
    }
    forall s, t, u | StringLe(s, t) && StringLe(t, u) ensures StringLe(s, u) {
      LexTransitive(s, t, u, CharLe);
    }
  }
}
