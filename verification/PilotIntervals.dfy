/**
  `normalize_intervals` of the working-context pilot: half-open integer intervals in canonical form.
*/
module PilotIntervals {
  import opened Wrappers
  import opened Sequences

  /** An endpoint is an integer or something else; a bool is something else (`type(a) is not int`). */
  datatype Endpoint = IntEnd(n: int) | OtherEnd

  /** An input item: a list or tuple with its elements, or something else. */
  datatype RawPair = NotAPair | Items(items: seq<Endpoint>)

  datatype Reason = BadPair | BadBounds

  datatype Interval = Interval(lo: int, hi: int)

  // ----- Validation -----

  predicate Shaped(p: RawPair) {
    p.Items? && |p.items| == 2
  }

  predicate Acceptable(p: RawPair) {
    Shaped(p) && p.items[0].IntEnd? && p.items[1].IntEnd? && p.items[0].n <= p.items[1].n
  }

  function Bounds(p: RawPair): Interval
    requires Acceptable(p)
  {
    Interval(p.items[0].n, p.items[1].n)
  }

  /** The nonempty intervals of an acceptable input, in input order. */
  function Nonempty(input: seq<RawPair>): seq<Interval>
    requires forall p | p in input :: Acceptable(p)
  {
    if input == [] then []
    else (if Bounds(input[0]).lo != Bounds(input[0]).hi then [Bounds(input[0])] else []) + Nonempty(input[1..])
  }

  predicate IntervalLe(a: Interval, b: Interval) {
    a.lo < b.lo || (a.lo == b.lo && a.hi <= b.hi)
  }

  // ----- What an interval list covers, and which neighbouring integers it joins -----

  ghost predicate Covers(r: seq<Interval>, x: int) {
    exists i :: 0 <= i < |r| && r[i].lo <= x < r[i].hi
  }

  /** Some single interval contains both `x - 1` and `x`. */
  ghost predicate Joins(r: seq<Interval>, x: int) {
    exists i :: 0 <= i < |r| && r[i].lo <= x - 1 && x < r[i].hi
  }

  ghost predicate Proper(r: seq<Interval>) {
    forall i | 0 <= i < |r| :: r[i].lo < r[i].hi
  }

  /** Sorted, pairwise disjoint and without empty intervals; neighbours may touch. */
  ghost predicate Canonical(r: seq<Interval>) {
    && Proper(r)
    && (forall i, j | 0 <= i < j < |r| :: r[i].hi <= r[j].lo)
  }

  /** The two lists agree on every integer and on every pair of neighbouring integers. */
  ghost predicate SameShape(r: seq<Interval>, s: seq<Interval>) {
    forall x :: (Covers(r, x) <==> Covers(s, x)) && (Joins(r, x) <==> Joins(s, x))
  }

  /** `r` is the canonical list that covers and joins exactly what the intervals of `input` do. */
  ghost predicate NormalForm(input: seq<RawPair>, r: seq<Interval>)
    requires forall p | p in input :: Acceptable(p)
  {
    Canonical(r) && SameShape(r, Nonempty(input))
  }

  /** The item is the pair of these two integers. */
  ghost predicate IsPair(p: RawPair, a: int, b: int) {
    p == Items([IntEnd(a), IntEnd(b)])
  }

  /** The item is a pair of integers in order. */
  ghost predicate IsOrdered(p: RawPair) {
    exists a, b :: IsPair(p, a, b) && a <= b
  }

  /** Not two elements, or two that are not integers in order. */
  ghost predicate Refused(p: RawPair, reason: Reason) {
    match reason
    case BadPair => forall u, v :: p != Items([u, v])
    case BadBounds => exists u, v :: p == Items([u, v]) && forall a, b | a <= b :: !IsPair(p, a, b)
  }

  lemma PairMeans(p: RawPair)
    ensures Acceptable(p) <==> IsOrdered(p)
    ensures forall a, b | IsPair(p, a, b) && a <= b :: Acceptable(p) && Bounds(p) == Interval(a, b)
    ensures Acceptable(p) ==> IsPair(p, Bounds(p).lo, Bounds(p).hi)
    ensures !Acceptable(p) ==> Refused(p, if Shaped(p) then BadBounds else BadPair)
  {
    if Shaped(p) {
      assert p.items == [p.items[0], p.items[1]];
      assert p == Items([p.items[0], p.items[1]]);
    }
    if Acceptable(p) {
      assert p.items == [IntEnd(p.items[0].n), IntEnd(p.items[1].n)];
      assert IsPair(p, p.items[0].n, p.items[1].n);
    }
  }

  /** The first item that is not a pair of integers in order stops the call. */
  ghost predicate StopsAt(input: seq<RawPair>, i: int, reason: Reason) {
    && 0 <= i < |input| && Refused(input[i], reason)
    && forall j | 0 <= j < i :: IsOrdered(input[j])
  }

  lemma FirstRefused(input: seq<RawPair>, i: nat)
    requires i < |input| && (forall p | p in input[..i] :: Acceptable(p)) && !Acceptable(input[i])
    ensures StopsAt(input, i, if Shaped(input[i]) then BadBounds else BadPair)
  {
    PairMeans(input[i]);
    forall j | 0 <= j < i ensures IsOrdered(input[j]) {
      assert input[..i][j] == input[j] && input[j] in input[..i];
      PairMeans(input[j]);
    }
  }

  /** Acceptance and shape, in terms of the pairs themselves. */
  lemma InPairs(input: seq<RawPair>)
    ensures forall p :: Acceptable(p) <==> IsOrdered(p)
    ensures forall p | !Acceptable(p) :: Refused(p, if Shaped(p) then BadBounds else BadPair)
    ensures (forall p | p in input :: Acceptable(p)) ==> forall x ::
              && (Covers(Nonempty(input), x) <==> exists p, a, b :: p in input && IsPair(p, a, b) && a <= x < b)
              && (Joins(Nonempty(input), x) <==>
                  exists p, a, b :: p in input && IsPair(p, a, b) && a <= x - 1 && x < b)
  {
    forall p { PairMeans(p); }
    if forall p | p in input :: Acceptable(p) {
      forall x
        ensures Covers(Nonempty(input), x) <==> exists p, a, b :: p in input && IsPair(p, a, b) && a <= x < b
        ensures Joins(Nonempty(input), x) <==> exists p, a, b :: p in input && IsPair(p, a, b) && a <= x - 1 && x < b
      {
        ShapeOfPairs(input, x);
      }
    }
  }

  lemma ShapeOfPairs(input: seq<RawPair>, x: int)
    requires forall p | p in input :: Acceptable(p)
    ensures Covers(Nonempty(input), x) <==> exists p, a, b :: p in input && IsPair(p, a, b) && a <= x < b
    ensures Joins(Nonempty(input), x) <==> exists p, a, b :: p in input && IsPair(p, a, b) && a <= x - 1 && x < b
  {
    var r := Nonempty(input);
    forall v ensures v in r <==> v.lo < v.hi && Items([IntEnd(v.lo), IntEnd(v.hi)]) in input {
      NonemptyMembers(input, v);
    }
    forall p, a, b | p in input && IsPair(p, a, b) && a < b ensures exists i :: 0 <= i < |r| && r[i] == Interval(a, b) {
      assert Interval(a, b) in r;
    }
    forall i | 0 <= i < |r| ensures exists p :: p in input && IsPair(p, r[i].lo, r[i].hi) {
      assert r[i] in r;
    }
  }

  method NormalizeIntervals(input: seq<RawPair>) returns (r: Result<seq<Interval>, Reason>)
    ensures r.Ok? <==> forall p | p in input :: Acceptable(p)
    ensures r.Ok? ==> NormalForm(input, r.value)
    ensures r.Raised? ==> exists i ::
              && 0 <= i < |input| && (forall p | p in input[..i] :: Acceptable(p))
              && !Acceptable(input[i]) && r.error == if Shaped(input[i]) then BadBounds else BadPair
    ensures r.Ok? <==> forall p | p in input :: IsOrdered(p)
    ensures r.Ok? ==> Canonical(r.value) && forall x ::
              && (Covers(r.value, x) <==> exists p, a, b :: p in input && IsPair(p, a, b) && a <= x < b)
              && (Joins(r.value, x) <==> exists p, a, b :: p in input && IsPair(p, a, b) && a <= x - 1 && x < b)
    ensures r.Raised? ==> exists i :: StopsAt(input, i, r.error)
  {
    InPairs(input);
    var valid: seq<Interval> := [];
    for i := 0 to |input|
      invariant forall p | p in input[..i] :: Acceptable(p)
      invariant valid == Nonempty(input[..i])
    {
      var pair := input[i];
      assert input[..i + 1] == input[..i] + [pair];
      assert pair in input;
      if !Acceptable(pair) { FirstRefused(input, i); }
      if !pair.Items? || |pair.items| != 2 { return Raised(BadPair); }
      var a, b := pair.items[0], pair.items[1];
      if !a.IntEnd? || !b.IntEnd? || a.n > b.n { return Raised(BadBounds); }
      NonemptyAppend(input[..i], pair);
      if a.n != b.n {
        valid := valid + [Interval(a.n, b.n)];
      }
    }
    assert input[..|input|] == input;
    var result := MergeSorted(valid, input);
    r := Ok(result);
  }

  /** The second half of `normalize_intervals`: sort, then extend or open the last interval. */
  method MergeSorted(valid: seq<Interval>, ghost input: seq<RawPair>) returns (result: seq<Interval>)
    requires forall p | p in input :: Acceptable(p)
    requires valid == Nonempty(input)
    ensures NormalForm(input, result)
  {
    var ordered := Sort(valid, IntervalLe);
    SortedIntervals(input, ordered);
    result := [];
    ghost var done := ordered[..0];
    for i := 0 to |ordered|
      invariant done == ordered[..i] && Merged(result, done)
    {
      var p := ordered[i];
      MergeStep(result, done, p);
      done := done + [p];
      if result != [] && p.lo < result[|result| - 1].hi {
        var last := result[|result| - 1];
        result := result[|result| - 1 := Interval(last.lo, if p.hi > last.hi then p.hi else last.hi)];
      } else {
        result := result + [p];
      }
    }
    assert ordered[..|ordered|] == ordered;
  }

  lemma SortedIntervals(input: seq<RawPair>, ordered: seq<Interval>)
    requires forall p | p in input :: Acceptable(p)
    requires ordered == Sort(Nonempty(input), IntervalLe)
    ensures forall i | 0 <= i < |ordered| :: ordered[i].lo < ordered[i].hi
    ensures forall i | 0 < i < |ordered| :: ordered[i - 1].lo <= ordered[i].lo
    ensures SameShape(ordered, Nonempty(input))
  {
    NonemptyProper(input);
    IntervalOrder();
    SortIsSortedPermutation(Nonempty(input), IntervalLe);
    forall i | 0 <= i < |ordered| ensures ordered[i].lo < ordered[i].hi {
      assert ordered[i] in Nonempty(input);
    }
    forall i | 0 < i < |ordered| ensures ordered[i - 1].lo <= ordered[i].lo {
      assert IntervalLe(ordered[i - 1], ordered[i]);
    }
    PermutedShape(ordered, Nonempty(input));
  }

  /** The loop invariant: `result` is the canonical form of the sorted prefix `done`. */
  ghost predicate Merged(result: seq<Interval>, done: seq<Interval>) {
    && Canonical(result) && SameShape(result, done)
    && (result == [] <==> done == [])
    && (result != [] ==> result[|result| - 1].lo <= done[|done| - 1].lo)
  }

  function Absorb(r: seq<Interval>, p: Interval): seq<Interval> {
    if r != [] && p.lo < r[|r| - 1].hi
    then r[|r| - 1 := Interval(r[|r| - 1].lo, if p.hi > r[|r| - 1].hi then p.hi else r[|r| - 1].hi)]
    else r + [p]
  }

  lemma MergeStep(r: seq<Interval>, done: seq<Interval>, p: Interval)
    requires Merged(r, done) && p.lo < p.hi
    requires done != [] ==> done[|done| - 1].lo <= p.lo
    ensures Merged(Absorb(r, p), done + [p])
  {
    AbsorbShape(r, p);
    AppendShape(r, done, p);
  }

  lemma IntervalOrder()
    ensures TotalPreorder(IntervalLe)
  {
  }

  lemma {:induction false} NonemptyAppend(input: seq<RawPair>, p: RawPair)
    requires Acceptable(p) && forall q | q in input :: Acceptable(q)
    ensures Nonempty(input + [p]) == Nonempty(input) + if Bounds(p).lo != Bounds(p).hi then [Bounds(p)] else []
  {
    if input == [] {
      assert input + [p] == [p];
    } else {
      assert (input + [p])[1..] == input[1..] + [p];
      NonemptyAppend(input[1..], p);
    }
  }

  lemma {:induction false} NonemptyProper(input: seq<RawPair>)
    requires forall q | q in input :: Acceptable(q)
    ensures forall v | v in Nonempty(input) :: v.lo < v.hi
  {
    if input != [] {
      assert input[0] in input;
      NonemptyProper(input[1..]);
    }
  }

  /** Extending the last interval loses no join: it shares an integer with the new one. */
  lemma AbsorbShape(r: seq<Interval>, p: Interval)
    requires Canonical(r) && p.lo < p.hi
    requires r != [] ==> r[|r| - 1].lo <= p.lo
    ensures SameShape(Absorb(r, p), r + [p])
  {
    var n, after, wide := |r|, Absorb(r, p), r + [p];
    assert wide[n] == p;
    if r != [] && p.lo < r[n - 1].hi {
      var front, last := r[..n - 1], r[n - 1];
      assert r == front + [last] && after == front + [after[n - 1]];
      forall x ensures (Covers(after, x) <==> Covers(wide, x)) && (Joins(after, x) <==> Joins(wide, x)) {
        LastShape(front, after[n - 1], x);
        LastShape(front, last, x);
        LastShape(r, p, x);
      }
    }
  }

  lemma LastShape(r: seq<Interval>, p: Interval, x: int)
    ensures Covers(r + [p], x) <==> Covers(r, x) || p.lo <= x < p.hi
    ensures Joins(r + [p], x) <==> Joins(r, x) || (p.lo <= x - 1 && x < p.hi)
  {
    var r' := r + [p];
    assert r'[|r|] == p;
    assert forall i | 0 <= i < |r| :: r'[i] == r[i];
  }

  lemma AppendShape(r: seq<Interval>, s: seq<Interval>, p: Interval)
    requires SameShape(r, s)
    ensures SameShape(r + [p], s + [p])
  {
    forall x ensures (Covers(r + [p], x) <==> Covers(s + [p], x)) && (Joins(r + [p], x) <==> Joins(s + [p], x)) {
      LastShape(r, p, x);
      LastShape(s, p, x);
    }
  }

  lemma PermutedShape(r: seq<Interval>, s: seq<Interval>)
    requires forall v :: v in r <==> v in s
    ensures SameShape(r, s)
  {
    forall x ensures (Covers(r, x) ==> Covers(s, x)) && (Joins(r, x) ==> Joins(s, x)) {
      MembersShape(r, s, x);
    }
    forall x ensures (Covers(s, x) ==> Covers(r, x)) && (Joins(s, x) ==> Joins(r, x)) {
      MembersShape(s, r, x);
    }
  }

  lemma MembersShape(r: seq<Interval>, s: seq<Interval>, x: int)
    requires forall v :: v in r ==> v in s
    ensures Covers(r, x) ==> Covers(s, x)
    ensures Joins(r, x) ==> Joins(s, x)
  {
    if Covers(r, x) {
      var i :| 0 <= i < |r| && r[i].lo <= x < r[i].hi;
      assert r[i] in s;
    }
    if Joins(r, x) {
      var i :| 0 <= i < |r| && r[i].lo <= x - 1 && x < r[i].hi;
      assert r[i] in s;
    }
  }

  // ----- Main results -----

  /** What is covered and what is joined fix the canonical list: there is one normal form. */
  lemma {:induction false} CanonicalUnique(r: seq<Interval>, s: seq<Interval>)
    requires Canonical(r) && Canonical(s) && SameShape(r, s)
    ensures r == s
  {
    assert r != [] ==> Covers(r, r[0].lo);
    assert s != [] ==> Covers(s, s[0].lo);
    if r != [] && s != [] {
      FirstIntervals(r, s);
      var r', s' := r[1..], s[1..];
      forall x ensures (Covers(r', x) <==> Covers(s', x)) && (Joins(r', x) <==> Joins(s', x)) {
        TailShape(r, x);
        TailShape(s, x);
      }
      CanonicalUnique(r', s');
      assert r == [r[0]] + r' && s == [s[0]] + s';
    }
  }

  lemma FirstIntervals(r: seq<Interval>, s: seq<Interval>)
    requires Canonical(r) && Canonical(s) && SameShape(r, s) && r != [] && s != []
    ensures r[0] == s[0]
  {
    FirstNotAfter(r, s);
    FirstNotAfter(s, r);
    FirstNotLonger(r, s);
    FirstNotLonger(s, r);
  }

  lemma FirstNotAfter(r: seq<Interval>, s: seq<Interval>)
    requires Canonical(r) && Canonical(s) && SameShape(r, s) && r != [] && s != []
    ensures s[0].lo <= r[0].lo
  {
    assert Covers(r, r[0].lo);
    assert Covers(s, r[0].lo);
  }

  lemma FirstNotLonger(r: seq<Interval>, s: seq<Interval>)
    requires Canonical(r) && Canonical(s) && SameShape(r, s) && r != [] && s != []
    requires r[0].lo == s[0].lo
    ensures r[0].hi <= s[0].hi
  {
    var x := s[0].hi;
    assert Joins(r, x) ==> Joins(s, x);
    assert !Joins(s, x);
  }

  lemma TailShape(r: seq<Interval>, x: int)
    requires Canonical(r) && r != []
    ensures Covers(r[1..], x) <==> Covers(r, x) && r[0].hi <= x
    ensures Joins(r[1..], x) <==> Joins(r, x) && r[0].hi <= x - 1
  {
  }

  /** Inputs made of the same items, in any order and with repetitions, have the same normal form. */
  lemma OrderAndRepetitionDoNotMatter(input: seq<RawPair>, other: seq<RawPair>, r: seq<Interval>, s: seq<Interval>)
    requires forall p :: p in input <==> p in other
    requires forall p | p in input :: Acceptable(p)
    requires NormalForm(input, r) && NormalForm(other, s)
    ensures r == s
  {
    forall v ensures v in Nonempty(input) <==> v in Nonempty(other) {
      NonemptyMembers(input, v);
      NonemptyMembers(other, v);
    }
    PermutedShape(Nonempty(input), Nonempty(other));
    CanonicalUnique(r, s);
  }

  lemma {:induction false} NonemptyMembers(input: seq<RawPair>, v: Interval)
    requires forall q | q in input :: Acceptable(q)
    ensures v in Nonempty(input) <==> v.lo < v.hi && Items([IntEnd(v.lo), IntEnd(v.hi)]) in input
  {
    if input != [] {
      var p := input[0];
      assert p in input;
      NonemptyMembers(input[1..], v);
      assert p.items == [p.items[0], p.items[1]];
    }
  }

  /** An interval list handed back as input. */
  function AsInput(r: seq<Interval>): seq<RawPair> {
    if r == [] then [] else [Items([IntEnd(r[0].lo), IntEnd(r[0].hi)])] + AsInput(r[1..])
  }

  lemma {:induction false} AsInputNonempty(r: seq<Interval>)
    requires Proper(r)
    ensures forall p | p in AsInput(r) :: Acceptable(p)
    ensures Nonempty(AsInput(r)) == r
  {
    if r != [] {
      AsInputNonempty(r[1..]);
      assert r == [r[0]] + r[1..];
    }
  }

  /** A canonical list is its own normal form, so normalising twice equals normalising once. */
  lemma NormalFormIsFixed(r: seq<Interval>, s: seq<Interval>)
    requires Canonical(r)
    ensures forall p | p in AsInput(r) :: Acceptable(p)
    ensures NormalForm(AsInput(r), s) <==> s == r
  {
    AsInputNonempty(r);
    if NormalForm(AsInput(r), s) {
      CanonicalUnique(r, s);
    }
  }
}
