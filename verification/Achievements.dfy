/**
  Achievements from run receipts: the level curve, the streaks and the badges of `achievements.py`.
  A timestamp is an integer, or absent when neither `ended_at` nor `started_at` parses.
*/
module Achievements {
  import opened Wrappers
  import opened Sequences

  const XP_PER_VERIFIED := 10
  const XP_ONE_SHOT_BONUS := 5
  const LEVEL_XP_FACTOR := 10
  const MARATHONER_VERIFIED_THRESHOLD := 25
  const PERFECT_STREAK_THRESHOLD := 10

  /** `iterations` is `None` when the receipt does not hold a number there. */
  datatype Receipt = Receipt(verified: bool, iterations: Option<real>, when: Option<int>)

  predicate IsOneShot(r: Receipt) {
    r.verified && r.iterations.Some? && r.iterations.value <= 1.0
  }

  function XpForReceipt(r: Receipt): nat {
    if !r.verified then 0 else XP_PER_VERIFIED + if IsOneShot(r) then XP_ONE_SHOT_BONUS else 0
  }

  // ----- Levels -----

  /** Total XP to reach a level; level 1 needs none. */
  function TotalXpForLevel(level: int): int {
    var n := level - 1;
    n * (n + 1) * LEVEL_XP_FACTOR / 2
  }

  /** `level` is the level `xp` falls into. */
  predicate InLevel(xp: int, level: int) {
    level >= 1 && TotalXpForLevel(level) <= xp < TotalXpForLevel(level + 1)
  }

  lemma InLevelMeans(xp: int, level: int)
    requires InLevel(xp, level)
    ensures level >= 1 && 5 * (level - 1) * level <= xp < 5 * level * (level + 1)
    ensures TotalXpForLevel(level) == 5 * (level - 1) * level
  {
    var n := level - 1;
    assert n * (n + 1) * 10 / 2 == n * (n + 1) * 5;
  }

  lemma LevelWidth(level: int)
    requires level >= 1
    ensures TotalXpForLevel(level + 1) - TotalXpForLevel(level) == LEVEL_XP_FACTOR * level
  {
  }

  /** The formula of the documentation gives the end of a level and not its start; level 2 needs 10 XP, not 30. */
  lemma DocumentedCurveIsOneLevelOn(level: int)
    requires level >= 1
    ensures level * (level + 1) * LEVEL_XP_FACTOR / 2 == TotalXpForLevel(level + 1) > TotalXpForLevel(level)
    ensures TotalXpForLevel(1) == 0 && TotalXpForLevel(2) == 10 && 2 * (2 + 1) * LEVEL_XP_FACTOR / 2 == 30
  {
    LevelWidth(level);
  }

  lemma {:induction false} CurveRises(low: int, high: int)
    requires 1 <= low <= high
    ensures TotalXpForLevel(low) + (high - low) <= TotalXpForLevel(high)
    ensures TotalXpForLevel(1) == 0
    decreases high
  {
    if low < high {
      CurveRises(low, high - 1);
      LevelWidth(high - 1);
    }
  }

  /** Every amount of XP lies in at most one level, and more XP never lies in a lower one. */
  lemma LevelIsMonotone(xp: int, more: int, level: int, higher: int)
    requires InLevel(xp, level) && InLevel(more, higher) && xp <= more
    ensures level <= higher
    ensures xp == more ==> level == higher
  {
    if higher < level {
      CurveRises(higher + 1, level);
    }
    if level < higher {
      CurveRises(level + 1, higher);
    }
  }

  /** `seed` is what the floating-point square root gives: any natural number will do. */
  method LevelFromXp(totalXp: int, seed: nat) returns (level: int)
    ensures totalXp >= 0 ==> InLevel(totalXp, level)
    ensures totalXp < 0 ==> level == 1
  {
    if totalXp <= 0 {
      LevelWidth(1);
      return 1;
    }
    var n: int := seed;
    while TotalXpForLevel(n + 2) <= totalXp
      invariant n >= 0
      decreases totalXp - n
    {
      CurveRises(1, n + 2);
      n := n + 1;
    }
    while n > 0 && TotalXpForLevel(n + 1) > totalXp
      invariant n >= 0 && totalXp < TotalXpForLevel(n + 2)
    {
      n := n - 1;
    }
    CurveRises(1, 1);
    return n + 1;
  }

  /** XP into the level is not negative, XP still missing is positive, and they add up to the level's width. */
  lemma LevelProgress(xp: int, level: int)
    requires InLevel(xp, level)
    ensures xp - TotalXpForLevel(level) >= 0
    ensures TotalXpForLevel(level + 1) - xp > 0
    ensures (xp - TotalXpForLevel(level)) + (TotalXpForLevel(level + 1) - xp) == LEVEL_XP_FACTOR * level
  {
  }

  // ----- Streaks -----

  predicate AllVerified(rs: seq<Receipt>) {
    forall r | r in rs :: r.verified
  }

  /** The receipts `rs[lo..hi]` are a run of verified ones. */
  ghost predicate Window(rs: seq<Receipt>, lo: int, hi: int) {
    0 <= lo <= hi <= |rs| && forall i | lo <= i < hi :: rs[i].verified
  }

  function Trailing(rs: seq<Receipt>): nat {
    if rs == [] || !rs[|rs| - 1].verified then 0 else 1 + Trailing(rs[..|rs| - 1])
  }

  /** The trailing streak is the longest window that reaches the end. */
  lemma {:induction false} TrailingIsLongestSuffix(rs: seq<Receipt>)
    ensures Trailing(rs) <= |rs| && Window(rs, |rs| - Trailing(rs), |rs|)
    ensures forall lo | Window(rs, lo, |rs|) :: |rs| - lo <= Trailing(rs)
  {
    if rs != [] && rs[|rs| - 1].verified {
      var init := rs[..|rs| - 1];
      TrailingIsLongestSuffix(init);
      forall lo | Window(rs, lo, |rs|) ensures |rs| - lo <= Trailing(rs) {
        if lo < |rs| { assert Window(init, lo, |init|); }
      }
    }
  }

  method CurrentStreak(ordered: seq<Receipt>) returns (streak: nat)
    ensures streak == Trailing(ordered)
    ensures Window(ordered, |ordered| - streak, |ordered|)
    ensures forall lo | Window(ordered, lo, |ordered|) :: |ordered| - lo <= streak
  {
    TrailingIsLongestSuffix(ordered);
    streak := 0;
    var i := |ordered|;
    assert ordered[..i] == ordered;
    while i > 0
      invariant 0 <= i <= |ordered| && streak == |ordered| - i
      invariant Trailing(ordered) == streak + Trailing(ordered[..i])
    {
      i := i - 1;
      assert ordered[..i + 1][..i] == ordered[..i];
      if ordered[i].verified {
        streak := streak + 1;
      } else {
        break;
      }
    }
  }

  /** Some window has length `n`, and none is longer. */
  ghost predicate IsLongest(rs: seq<Receipt>, n: int) {
    && (exists lo, hi :: Window(rs, lo, hi) && hi - lo == n)
    && (forall lo, hi | Window(rs, lo, hi) :: hi - lo <= n)
  }

  /** The longest window anywhere, and so never less than the current streak. */
  method LongestStreak(ordered: seq<Receipt>) returns (longest: nat)
    ensures IsLongest(ordered, longest)
    ensures Trailing(ordered) <= longest
  {
    longest := 0;
    var running := 0;
    ghost var from := 0;
    for i := 0 to |ordered|
      invariant running == Trailing(ordered[..i])
      invariant Window(ordered, from, from + longest) && from + longest <= i
      invariant forall lo, hi | Window(ordered, lo, hi) && hi <= i :: hi - lo <= longest
    {
      var prefix := ordered[..i + 1];
      assert prefix[..i] == ordered[..i];
      TrailingIsLongestSuffix(prefix);
      if ordered[i].verified {
        running := running + 1;
        if running > longest {
          longest, from := running, i + 1 - running;
          assert forall j | from <= j < i + 1 :: ordered[j] == prefix[j];
        }
      } else {
        running := 0;
      }
      forall lo, hi | Window(ordered, lo, hi) && hi <= i + 1 ensures hi - lo <= longest {
        if hi == i + 1 { assert Window(prefix, lo, i + 1); }
      }
    }
    assert ordered[..|ordered|] == ordered;
    TrailingIsLongestSuffix(ordered);
  }

  // ----- Order -----

  predicate IsDated(r: Receipt) {
    r.when.Some?
  }

  predicate IsUndated(r: Receipt) {
    r.when.None?
  }

  predicate WhenLe(r: Receipt, s: Receipt) {
    r.when.None? || (s.when.Some? && r.when.value <= s.when.value)
  }

  lemma WhenOrder()
    ensures TotalPreorder(WhenLe)
  {
  }

  function Dated(rs: seq<Receipt>): seq<Receipt> {
    Sort(Filter(rs, IsDated), WhenLe)
  }

  /** Dated receipts by time, undated ones after them in their original order. */
  function Order(rs: seq<Receipt>): seq<Receipt> {
    Dated(rs) + Filter(rs, IsUndated)
  }

  lemma OrderParts(rs: seq<Receipt>)
    ensures forall r | r in Dated(rs) :: r.when.Some?
    ensures forall r | r in Filter(rs, IsUndated) :: r.when.None?
    ensures forall r :: r in Order(rs) <==> r in rs
  {
    WhenOrder();
    SortIsSortedPermutation(Filter(rs, IsDated), WhenLe);
    FilterMembers(rs, IsDated);
    FilterMembers(rs, IsUndated);
  }

  /**
    What the undated receipts do to the current streak: they are walked first, so it counts them, and
    goes on to the dated ones exactly when all of them are verified.
   */
  lemma UndatedReceiptsExtendTheStreak(rs: seq<Receipt>)
    ensures var undated := Filter(rs, IsUndated);
      Trailing(Order(rs)) == if AllVerified(undated) then |undated| + Trailing(Dated(rs)) else Trailing(undated)
    ensures var undated := Filter(rs, IsUndated);
      Trailing(Order(rs)) == Trailing(Dated(rs))
      <==> undated == [] || (!AllVerified(undated) && Trailing(undated) == Trailing(Dated(rs)))
    ensures var undated := Filter(rs, IsUndated);
      undated != [] ==> (Trailing(Order(rs)) > 0 <==> undated[|undated| - 1].verified)
  {
    TrailingOfConcat(Dated(rs), Filter(rs, IsUndated));
  }

  function Leading(rs: seq<Receipt>): nat {
    if rs == [] || !rs[0].verified then 0 else 1 + Leading(rs[1..])
  }

  lemma {:induction false} LeadingIsLongestPrefix(rs: seq<Receipt>)
    ensures Leading(rs) <= |rs| && Window(rs, 0, Leading(rs))
    ensures forall hi | Window(rs, 0, hi) :: hi <= Leading(rs)
  {
    if rs != [] && rs[0].verified {
      LeadingIsLongestPrefix(rs[1..]);
      forall hi | Window(rs, 0, hi) ensures hi <= Leading(rs) {
        if hi > 0 { assert Window(rs[1..], 0, hi - 1); }
      }
    }
  }

  function Max(a: int, b: int): int {
    if a < b then b else a
  }

  /** The longest window of a concatenation lies in one part, or is the run that joins them. */
  lemma LongestOfConcat(xs: seq<Receipt>, ys: seq<Receipt>, m: int, n: int)
    requires IsLongest(xs, m) && IsLongest(ys, n)
    ensures IsLongest(xs + ys, Max(Max(m, n), Trailing(xs) + Leading(ys)))
  {
    var all, k := xs + ys, |xs|;
    TrailingIsLongestSuffix(xs);
    LeadingIsLongestPrefix(ys);
    var lo, hi :| Window(xs, lo, hi) && hi - lo == m;
    assert Window(all, lo, hi);
    var lo', hi' :| Window(ys, lo', hi') && hi' - lo' == n;
    WindowOfPart(xs, ys, lo', hi');
    JoiningWindow(xs, ys);
    forall lo, hi | Window(all, lo, hi) ensures hi - lo <= Max(Max(m, n), Trailing(xs) + Leading(ys)) {
      WindowParts(xs, ys, lo, hi);
    }
  }

  lemma WindowOfPart(xs: seq<Receipt>, ys: seq<Receipt>, lo: int, hi: int)
    requires Window(ys, lo, hi)
    ensures Window(xs + ys, |xs| + lo, |xs| + hi)
  {
    forall i | |xs| + lo <= i < |xs| + hi ensures (xs + ys)[i].verified {
      assert (xs + ys)[i] == ys[i - |xs|];
    }
  }

  lemma JoiningWindow(xs: seq<Receipt>, ys: seq<Receipt>)
    ensures Window(xs + ys, |xs| - Trailing(xs), |xs| + Leading(ys))
  {
    TrailingIsLongestSuffix(xs);
    LeadingIsLongestPrefix(ys);
    WindowOfPart(xs, ys, 0, Leading(ys));
  }

  /** A window of the concatenation is one of a part, or a suffix of the first and a prefix of the second. */
  lemma WindowParts(xs: seq<Receipt>, ys: seq<Receipt>, lo: int, hi: int)
    requires Window(xs + ys, lo, hi)
    ensures if hi <= |xs| then Window(xs, lo, hi)
            else if lo >= |xs| then Window(ys, lo - |xs|, hi - |xs|)
            else |xs| - lo <= Trailing(xs) && hi - |xs| <= Leading(ys)
  {
    var all, k := xs + ys, |xs|;
    assert forall i | 0 <= i < |ys| :: ys[i] == all[i + k];
    assert hi <= k ==> forall i | lo <= i < hi :: all[i] == xs[i];
    if lo < k < hi {
      TrailingIsLongestSuffix(xs);
      LeadingIsLongestPrefix(ys);
      assert forall i | lo <= i < k :: all[i] == xs[i];
      assert Window(xs, lo, k);
      assert Window(ys, 0, hi - k);
    }
  }

  /**
    What the undated receipts do to the longest streak: it is the longest of the dated ones, of the undated
    ones, and of the run that joins them, and so unchanged exactly when neither of the last two is longer.
   */
  lemma UndatedReceiptsInTheLongestStreak(rs: seq<Receipt>, longest: int, dated: int, undated: int)
    requires IsLongest(Order(rs), longest)
    requires IsLongest(Dated(rs), dated) && IsLongest(Filter(rs, IsUndated), undated)
    ensures var joint := Trailing(Dated(rs)) + Leading(Filter(rs, IsUndated));
      longest == Max(Max(dated, undated), joint) && (longest == dated <==> undated <= dated && joint <= dated)
  {
    LongestOfConcat(Dated(rs), Filter(rs, IsUndated), dated, undated);
    OneLongest(Order(rs), longest, Max(Max(dated, undated), Trailing(Dated(rs)) + Leading(Filter(rs, IsUndated))));
  }

  lemma OneLongest(rs: seq<Receipt>, m: int, n: int)
    requires IsLongest(rs, m) && IsLongest(rs, n)
    ensures m == n
  {
  }

  /** The promise that an undated receipt cannot start a streak fails on a single verified one. */
  lemma UndatedReceiptStartsAStreak(r: Receipt)
    requires r.verified && r.when.None?
    ensures Trailing(Order([r])) == 1 && Trailing(Dated([r])) == 0
  {
    assert [r][1..] == [];
    assert Filter([r], IsUndated) == [r] && Filter([r], IsDated) == [];
    assert Order([r]) == [r] && [r][..0] == [];
  }

  lemma {:induction false} TrailingOfConcat(xs: seq<Receipt>, ys: seq<Receipt>)
    ensures Trailing(xs + ys) == if AllVerified(ys) then |ys| + Trailing(xs) else Trailing(ys)
    decreases |ys|
  {
    if ys == [] {
      assert xs + ys == xs;
    } else {
      var init, last := ys[..|ys| - 1], ys[|ys| - 1];
      assert ys == init + [last] && (xs + ys)[..|xs + ys| - 1] == xs + init;
      TrailingOfConcat(xs, init);
      assert AllVerified(ys) <==> AllVerified(init) && last.verified;
    }
  }

  // ----- Badges -----

  datatype Badge = FirstBlood | OneShot | PerfectStreak | Marathoner

  const CATALOGUE := [FirstBlood, OneShot, PerfectStreak, Marathoner]

  function Count(rs: seq<Receipt>, p: Receipt -> bool): nat {
    if rs == [] then 0 else Count(rs[..|rs| - 1], p) + if p(rs[|rs| - 1]) then 1 else 0
  }

  predicate IsVerified(r: Receipt) {
    r.verified
  }

  datatype Facts = Facts(verifiedTotal: nat, oneShotCount: nat, runningStreak: nat)

  function FactsOf(rs: seq<Receipt>): Facts {
    Facts(Count(rs, IsVerified), Count(rs, IsOneShot), Trailing(rs))
  }

  /** The `check` of a badge's catalogue entry. */
  predicate Check(badge: Badge, facts: Facts) {
    match badge
    case FirstBlood => facts.verifiedTotal >= 1
    case OneShot => facts.oneShotCount >= 1
    case PerfectStreak => facts.runningStreak >= PERFECT_STREAK_THRESHOLD
    case Marathoner => facts.verifiedTotal >= MARATHONER_VERIFIED_THRESHOLD
  }

  /** The i-th receipt is verified and the badge is earned once it is in. */
  predicate Reaches(rs: seq<Receipt>, i: nat, badge: Badge)
    requires i < |rs|
  {
    rs[i].verified && Check(badge, FactsOf(rs[..i + 1]))
  }

  /** Among the first `n` receipts, `stamp` is the time of the earliest that reaches the badge and has one. */
  ghost predicate StampedWithin(rs: seq<Receipt>, n: nat, badge: Badge, stamp: Option<int>)
    requires n <= |rs|
  {
    if stamp.None? then forall i | 0 <= i < n && Reaches(rs, i, badge) :: rs[i].when.None?
    else exists i | 0 <= i < n && Reaches(rs, i, badge) ::
        && rs[i].when == stamp
        && forall j | 0 <= j < i && Reaches(rs, j, badge) :: rs[j].when.None?
  }

  ghost predicate StampedBy(rs: seq<Receipt>, badge: Badge, stamp: Option<int>) {
    StampedWithin(rs, |rs|, badge, stamp)
  }

  type Stamps = map<Badge, Option<int>>

  method ComputeBadges(ordered: seq<Receipt>) returns (unlockedAt: Stamps)
    ensures forall badge :: badge in unlockedAt && StampedBy(ordered, badge, unlockedAt[badge])
  {
    unlockedAt := map[FirstBlood := None, OneShot := None, PerfectStreak := None, Marathoner := None];
    forall badge: Badge ensures badge in unlockedAt && unlockedAt[badge].None? {
      assert badge.FirstBlood? || badge.OneShot? || badge.PerfectStreak? || badge.Marathoner?;
    }
    var verifiedTotal, oneShotCount, runningStreak := 0, 0, 0;
    for i := 0 to |ordered|
      invariant forall badge :: badge in unlockedAt && StampedWithin(ordered, i, badge, unlockedAt[badge])
      invariant verifiedTotal == Count(ordered[..i], IsVerified) && oneShotCount == Count(ordered[..i], IsOneShot)
      invariant runningStreak == Trailing(ordered[..i])
    {
      var receipt := ordered[i];
      ghost var was := unlockedAt;
      assert ordered[..i + 1][..i] == ordered[..i];
      if receipt.verified {
        verifiedTotal := verifiedTotal + 1;
        runningStreak := runningStreak + 1;
      } else {
        runningStreak := 0;
        forall badge { StampStep(ordered, i, badge, unlockedAt[badge]); }
        continue;
      }
      if IsOneShot(receipt) {
        oneShotCount := oneShotCount + 1;
      }
      var facts := Facts(verifiedTotal, oneShotCount, runningStreak);
      assert facts == FactsOf(ordered[..i + 1]);
      unlockedAt := CheckCatalogue(unlockedAt, facts, receipt.when);
      forall badge { StampStep(ordered, i, badge, was[badge]); }
    }
  }

  /** The inner loop: an unlocked badge keeps its stamp, one that checks takes the receipt's. */
  method CheckCatalogue(was: Stamps, facts: Facts, stamp: Option<int>) returns (unlockedAt: Stamps)
    requires forall badge :: badge in was
    ensures forall badge :: badge in unlockedAt
              && unlockedAt[badge] == if was[badge].None? && Check(badge, facts) then stamp else was[badge]
  {
    unlockedAt := was;
    for e := 0 to |CATALOGUE|
      invariant forall badge :: badge in unlockedAt
      invariant forall k | e <= k < |CATALOGUE| :: unlockedAt[CATALOGUE[k]] == was[CATALOGUE[k]]
      invariant forall k | 0 <= k < e ::
          unlockedAt[CATALOGUE[k]]
          == if was[CATALOGUE[k]].None? && Check(CATALOGUE[k], facts) then stamp else was[CATALOGUE[k]]
    {
      var key := CATALOGUE[e];
      if unlockedAt[key].Some? { continue; }
      if Check(key, facts) {
        unlockedAt := unlockedAt[key := stamp];
      }
    }
    forall badge: Badge
      ensures unlockedAt[badge] == if was[badge].None? && Check(badge, facts) then stamp else was[badge]
    {
      var k := match badge case FirstBlood => 0 case OneShot => 1 case PerfectStreak => 2 case Marathoner => 3;
      assert CATALOGUE[k] == badge;
    }
  }

  lemma StampStep(rs: seq<Receipt>, i: nat, badge: Badge, stamp: Option<int>)
    requires i < |rs| && StampedWithin(rs, i, badge, stamp)
    ensures StampedWithin(rs, i + 1, badge, if stamp.None? && Reaches(rs, i, badge) then rs[i].when else stamp)
  {
  }

  /** Whether a receipt reaches a badge does not depend on the receipts after it. */
  lemma PrefixStamp(rs: seq<Receipt>, n: nat, badge: Badge)
    requires n <= |rs|
    ensures forall j | 0 <= j < n :: rs[..n][j] == rs[j] && (Reaches(rs[..n], j, badge) <==> Reaches(rs, j, badge))
  {
    forall j | 0 <= j < n ensures rs[..n][j] == rs[j] && (Reaches(rs[..n], j, badge) <==> Reaches(rs, j, badge)) {
      assert rs[..n][..j + 1] == rs[..j + 1];
    }
  }

  /** A badge already stamped keeps its stamp, whatever follows; receipts without a time stamp nothing. */
  lemma LaterReceiptsKeepStamps(rs: seq<Receipt>, later: seq<Receipt>, badge: Badge, stamp: Option<int>)
    requires StampedBy(rs, badge, stamp)
    requires stamp.Some? || forall r | r in later :: r.when.None?
    ensures StampedBy(rs + later, badge, stamp)
  {
    var all := rs + later;
    assert all[..|rs|] == rs;
    PrefixStamp(all, |rs|, badge);
    if stamp.Some? {
      var k :| 0 <= k < |rs| && Reaches(rs, k, badge) && rs[k].when == stamp
               && forall j | 0 <= j < k && Reaches(rs, j, badge) :: rs[j].when.None?;
      assert Reaches(all, k, badge);
    }
  }

  lemma StampIsUnique(rs: seq<Receipt>, badge: Badge, s: Option<int>, t: Option<int>)
    requires StampedBy(rs, badge, s) && StampedBy(rs, badge, t)
    ensures s == t
  {
  }

  // ----- Main results on badges -----

  ghost predicate NotBefore(newer: seq<Receipt>, rs: seq<Receipt>) {
    forall n, r | n in newer && r in rs :: n.when.None? || r.when.None? || r.when.value <= n.when.value
  }

  /** Receipts dated no earlier than those before never relock a badge and never change its stamp. */
  lemma NewerReceiptsKeepBadges(
      rs: seq<Receipt>, newer: seq<Receipt>, badge: Badge, stamp: Option<int>, stamp': Option<int>)
    requires NotBefore(newer, rs)
    requires StampedBy(Order(rs), badge, stamp) && StampedBy(Order(rs + newer), badge, stamp')
    ensures stamp.Some? ==> stamp' == stamp
  {
    if stamp.Some? {
      DatedDecides(rs, badge, stamp);
      WhenOrder();
      FilterAppend(rs, newer, IsDated);
      FilterMembers(rs, IsDated);
      FilterMembers(newer, IsDated);
      SortAppend(Filter(rs, IsDated), Filter(newer, IsDated), WhenLe);
      LaterReceiptsKeepStamps(Dated(rs), Dated(newer), badge, stamp);
      LaterReceiptsKeepStamps(Dated(rs + newer), Filter(rs + newer, IsUndated), badge, stamp);
      StampIsUnique(Order(rs + newer), badge, stamp, stamp');
    }
  }

  /** Only dated receipts matter: the undated ones come last and leave no stamp. */
  lemma DatedDecides(rs: seq<Receipt>, badge: Badge, stamp: Option<int>)
    requires StampedBy(Order(rs), badge, stamp)
    ensures StampedBy(Dated(rs), badge, stamp)
  {
    var dated, all := Dated(rs), Order(rs);
    OrderParts(rs);
    assert all[..|dated|] == dated;
    PrefixStamp(all, |dated|, badge);
    forall i | |dated| <= i < |all| ensures all[i].when.None? {
      assert all[i] == Filter(rs, IsUndated)[i - |dated|];
    }
  }

  lemma {:induction false} CountReached(rs: seq<Receipt>, p: Receipt -> bool, k: nat) returns (i: nat)
    requires 1 <= k <= Count(rs, p)
    ensures i < |rs| && p(rs[i]) && Count(rs[..i + 1], p) >= k
  {
    var init, last := rs[..|rs| - 1], |rs| - 1;
    if p(rs[last]) {
      assert rs[..last + 1] == rs;
      return last;
    }
    i := CountReached(init, p, k);
    assert init[..i + 1] == rs[..i + 1];
  }

  lemma {:induction false} CountGrows(rs: seq<Receipt>, i: nat, p: Receipt -> bool)
    requires i <= |rs|
    ensures Count(rs[..i], p) <= Count(rs, p)
    decreases |rs|
  {
    if i == |rs| {
      assert rs[..i] == rs;
    } else {
      CountGrows(rs[..|rs| - 1], i, p);
      assert rs[..|rs| - 1][..i] == rs[..i];
    }
  }

  /** What the dated receipts must hold for a badge, without any walk over them. */
  ghost predicate Deserved(badge: Badge, dated: seq<Receipt>) {
    match badge
    case FirstBlood => Count(dated, IsVerified) >= 1
    case OneShot => Count(dated, IsOneShot) >= 1
    case PerfectStreak => exists lo, hi :: Window(dated, lo, hi) && hi - lo >= PERFECT_STREAK_THRESHOLD
    case Marathoner => Count(dated, IsVerified) >= MARATHONER_VERIFIED_THRESHOLD
  }

  lemma ReachedWhenDeserved(dated: seq<Receipt>, badge: Badge)
    ensures Deserved(badge, dated) <==> exists i :: 0 <= i < |dated| && Reaches(dated, i, badge)
  {
    if i :| 0 <= i < |dated| && Reaches(dated, i, badge) {
      CountGrows(dated, i + 1, IsVerified);
      CountGrows(dated, i + 1, IsOneShot);
      var prefix := dated[..i + 1];
      TrailingIsLongestSuffix(prefix);
      var lo := i + 1 - Trailing(prefix);
      assert forall j | lo <= j < i + 1 :: dated[j] == prefix[j];
      assert Window(dated, lo, i + 1);
    }
    if Deserved(badge, dated) {
      var i: nat;
      match badge {
      case FirstBlood => i := CountReached(dated, IsVerified, 1);
      case OneShot => i := CountReached(dated, IsOneShot, 1);
      case Marathoner => i := CountReached(dated, IsVerified, MARATHONER_VERIFIED_THRESHOLD);
      case PerfectStreak =>
        var lo, hi :| Window(dated, lo, hi) && hi - lo >= PERFECT_STREAK_THRESHOLD;
        TrailingIsLongestSuffix(dated[..hi]);
        assert Window(dated[..hi], lo, hi);
        i := hi - 1;
      }
      assert Reaches(dated, i, badge);
    }
  }

  /** A badge is unlocked exactly when the dated receipts deserve it, e.g. hold ten verified runs in a row. */
  lemma UnlockedExactlyWhenDeserved(rs: seq<Receipt>, badge: Badge, stamp: Option<int>)
    requires StampedBy(Order(rs), badge, stamp)
    ensures stamp.Some? <==> Deserved(badge, Dated(rs))
  {
    OrderParts(rs);
    DatedDecides(rs, badge, stamp);
    ReachedWhenDeserved(Dated(rs), badge);
    var dated := Dated(rs);
    forall i | 0 <= i < |dated| ensures dated[i].when.Some? {
      assert dated[i] in dated;
    }
  }

  // ----- The same in the fields of the receipts -----

  /** The verified receipts, and those of them with at most one iteration. */
  ghost function VerifiedAt(rs: seq<Receipt>): set<int> {
    set i | 0 <= i < |rs| && rs[i].verified
  }

  ghost function OneShotAt(rs: seq<Receipt>): set<int> {
    set i | 0 <= i < |rs| && rs[i].verified && rs[i].iterations.Some? && rs[i].iterations.value <= 1.0
  }

  lemma {:induction false} CountsAreSizes(rs: seq<Receipt>)
    ensures Count(rs, IsVerified) == |VerifiedAt(rs)| && Count(rs, IsOneShot) == |OneShotAt(rs)|
  {
    assert VerifiedAt(rs) == Indices(rs, IsVerified) && OneShotAt(rs) == Indices(rs, IsOneShot);
    if rs != [] {
      var init, last := rs[..|rs| - 1], rs[|rs| - 1];
      CountsAreSizes(init);
      assert VerifiedAt(init) == Indices(init, IsVerified) && OneShotAt(init) == Indices(init, IsOneShot);
      assert rs == init + [last];
      OneMoreIndex(init, last, IsVerified);
      OneMoreIndex(init, last, IsOneShot);
    }
  }

  ghost predicate TenFrom(rs: seq<Receipt>, lo: int) {
    0 <= lo <= |rs| - 10 && forall i | lo <= i < lo + 10 :: rs[i].verified
  }

  /** What earns a badge: one pass, one pass in one iteration, ten passes in a row, or 25 passes. */
  ghost predicate Earns(badge: Badge, rs: seq<Receipt>) {
    match badge
    case FirstBlood => |VerifiedAt(rs)| >= 1
    case OneShot => |OneShotAt(rs)| >= 1
    case PerfectStreak => exists lo :: TenFrom(rs, lo)
    case Marathoner => |VerifiedAt(rs)| >= 25
  }

  lemma EarnsMeans(badge: Badge, rs: seq<Receipt>)
    ensures Earns(badge, rs) <==> Deserved(badge, rs)
  {
    CountsAreSizes(rs);
    if badge.PerfectStreak? {
      if lo :| TenFrom(rs, lo) {
        assert Window(rs, lo, lo + 10);
      }
      if lo, hi :| Window(rs, lo, hi) && hi - lo >= PERFECT_STREAK_THRESHOLD {
        assert TenFrom(rs, lo);
      }
    }
  }

  /** A stamp is the time of the receipt that first earned the badge, counting the dated receipts by time. */
  ghost predicate EarnedBy(badge: Badge, dated: seq<Receipt>, i: nat, stamp: int) {
    && i < |dated| && dated[i].when == Some(stamp)
    && Earns(badge, dated[..i + 1]) && !Earns(badge, dated[..i])
  }

  lemma StampIsOfTheFirst(rs: seq<Receipt>, badge: Badge, stamp: Option<int>)
    requires StampedBy(Order(rs), badge, stamp)
    ensures stamp == None <==> !Earns(badge, Dated(rs))
    ensures stamp.Some? ==> exists i :: EarnedBy(badge, Dated(rs), i, stamp.value)
  {
    var dated := Dated(rs);
    UnlockedExactlyWhenDeserved(rs, badge, stamp);
    EarnsMeans(badge, dated);
    DatedDecides(rs, badge, stamp);
    OrderParts(rs);
    if stamp.Some? {
      var i: nat :|
        && i < |dated| && Reaches(dated, i, badge) && dated[i].when == stamp
        && forall j | 0 <= j < i && Reaches(dated, j, badge) :: dated[j].when.None?;
      forall j | 0 <= j < i ensures !Reaches(dated, j, badge) {
        assert dated[j] in dated;
      }
      FirstReachEarns(dated, i, badge);
      assert EarnedBy(badge, dated, i, stamp.value);
    }
  }

  lemma FirstReachEarns(dated: seq<Receipt>, i: nat, badge: Badge)
    requires i < |dated| && Reaches(dated, i, badge) && forall j | 0 <= j < i :: !Reaches(dated, j, badge)
    ensures Earns(badge, dated[..i + 1]) && !Earns(badge, dated[..i])
  {
    PrefixStamp(dated, i, badge);
    ReachedWhenDeserved(dated[..i], badge);
    EarnsMeans(badge, dated[..i]);
    PrefixStamp(dated, i + 1, badge);
    ReachedWhenDeserved(dated[..i + 1], badge);
    EarnsMeans(badge, dated[..i + 1]);
    assert Reaches(dated[..i + 1], i, badge);
  }

  /** The dated receipts are those with a time, earliest first; the others follow them as they came. */
  lemma OrderIsByTime(rs: seq<Receipt>)
    ensures forall i, j | 0 <= i < j < |Dated(rs)| ::
              Dated(rs)[i].when.Some? && Dated(rs)[j].when.Some? && Dated(rs)[i].when.value <= Dated(rs)[j].when.value
    ensures forall r :: r in Dated(rs) <==> r in rs && r.when != None
    ensures multiset(Order(rs)) == multiset(rs) && Dated(rs) <= Order(rs)
    ensures forall i | |Dated(rs)| <= i < |Order(rs)| :: Order(rs)[i].when == None
  {
    WhenOrder();
    OrderParts(rs);
    OrderPermutes(rs);
    FilterMembers(rs, IsDated);
    SortIsSortedPermutation(Filter(rs, IsDated), WhenLe);
    forall i | 0 <= i < |Dated(rs)| ensures Dated(rs)[i].when.Some? {
      assert Dated(rs)[i] in Dated(rs);
    }
    forall i | |Dated(rs)| <= i < |Order(rs)| ensures Order(rs)[i].when == None {
      assert Order(rs)[i] == Filter(rs, IsUndated)[i - |Dated(rs)|];
    }
  }

  // ----- The report -----

  datatype Report = Report(
    totalRuns: nat, verifiedTotal: nat, totalXp: nat, level: int, xpIntoLevel: int, xpToNextLevel: int,
    currentStreak: nat, longestStreak: nat, oneShotCount: nat, badges: Stamps)

  function TotalXp(rs: seq<Receipt>): nat {
    if rs == [] then 0 else TotalXp(rs[..|rs| - 1]) + XpForReceipt(rs[|rs| - 1])
  }

  /** Every badge has an entry: a stamp exactly when the dated receipts earn it, and then that of the first to do so. */
  ghost predicate BadgesOf(receipts: seq<Receipt>, badges: Stamps) {
    && (forall badge :: badge in badges && StampedBy(Order(receipts), badge, badges[badge]))
    && (forall badge :: badge in badges && (badges[badge].Some? <==> Earns(badge, Dated(receipts))))
    && (forall badge | badge in badges && badges[badge].Some? ::
          exists i :: EarnedBy(badge, Dated(receipts), i, badges[badge].value))
  }

  lemma BadgesAreEarned(receipts: seq<Receipt>, badges: Stamps)
    requires forall badge :: badge in badges && StampedBy(Order(receipts), badge, badges[badge])
    ensures BadgesOf(receipts, badges)
  {
    forall badge
      ensures badges[badge].Some? <==> Earns(badge, Dated(receipts))
      ensures badges[badge].Some? ==> exists i :: EarnedBy(badge, Dated(receipts), i, badges[badge].value)
    {
      StampIsOfTheFirst(receipts, badge, badges[badge]);
    }
  }

  /** The level and progress of an amount of XP, in numbers. */
  ghost predicate Figures(xp: int, level: int, into: int, left: int) {
    && level >= 1 && 5 * (level - 1) * level <= xp < 5 * level * (level + 1)
    && into == xp - 5 * (level - 1) * level && into >= 0 && left > 0 && into + left == 10 * level
  }

  lemma LevelFigures(xp: int, level: int)
    requires InLevel(xp, level)
    ensures Figures(xp, level, xp - TotalXpForLevel(level), TotalXpForLevel(level + 1) - xp)
  {
    InLevelMeans(xp, level);
    LevelProgress(xp, level);
  }

  method BuildReport(receipts: seq<Receipt>, seed: nat) returns (r: Report)
    ensures r.totalXp == XP_PER_VERIFIED * r.verifiedTotal + XP_ONE_SHOT_BONUS * r.oneShotCount
    ensures InLevel(r.totalXp, r.level)
    ensures r.xpIntoLevel >= 0 && r.xpToNextLevel > 0 && r.xpIntoLevel + r.xpToNextLevel == LEVEL_XP_FACTOR * r.level
    ensures r.oneShotCount <= r.verifiedTotal <= r.totalRuns == |receipts|
    ensures r.verifiedTotal == |VerifiedAt(receipts)| && r.oneShotCount == |OneShotAt(receipts)|
    ensures r.totalXp == 10 * |VerifiedAt(receipts)| + 5 * |OneShotAt(receipts)|
    ensures Figures(r.totalXp, r.level, r.xpIntoLevel, r.xpToNextLevel)
    ensures r.currentStreak == Trailing(Order(receipts)) && IsLongest(Order(receipts), r.longestStreak)
    ensures r.currentStreak <= r.longestStreak <= r.verifiedTotal
    ensures BadgesOf(receipts, r.badges)
  {
    var ordered := Order(receipts);
    OrderPermutes(receipts);
    CountPermutes(ordered, receipts, IsVerified);
    CountPermutes(ordered, receipts, IsOneShot);
    Totals(ordered);
    var totalXp := TotalXp(ordered);
    var level := LevelFromXp(totalXp, seed);
    LevelFigures(totalXp, level);
    var current := CurrentStreak(ordered);
    var longest := LongestStreak(ordered);
    ghost var lo, hi :| Window(ordered, lo, hi) && hi - lo == longest;
    WindowCounts(ordered, lo, hi);
    var badges := ComputeBadges(ordered);
    BadgesAreEarned(receipts, badges);
    CountsAreSizes(receipts);
    r := Report(|ordered|, Count(ordered, IsVerified), totalXp, level, totalXp - TotalXpForLevel(level),
                TotalXpForLevel(level + 1) - totalXp, current, longest, Count(ordered, IsOneShot), badges);
  }

  lemma OrderPermutes(rs: seq<Receipt>)
    ensures multiset(Order(rs)) == multiset(rs) && |Order(rs)| == |rs|
  {
    WhenOrder();
    SortIsSortedPermutation(Filter(rs, IsDated), WhenLe);
    FilterPartition(rs, IsDated, IsUndated);
    SameMultiset(Order(rs), rs);
  }

  lemma {:induction false} CountConcat(xs: seq<Receipt>, ys: seq<Receipt>, p: Receipt -> bool)
    ensures Count(xs + ys, p) == Count(xs, p) + Count(ys, p)
    decreases |ys|
  {
    if ys == [] {
      assert xs + ys == xs;
    } else {
      assert (xs + ys)[..|xs + ys| - 1] == xs + ys[..|ys| - 1];
      CountConcat(xs, ys[..|ys| - 1], p);
    }
  }

  /** Sorting the receipts changes no count. */
  lemma {:induction false} CountPermutes(xs: seq<Receipt>, ys: seq<Receipt>, p: Receipt -> bool)
    requires multiset(xs) == multiset(ys)
    ensures Count(xs, p) == Count(ys, p)
    decreases |xs|
  {
    SameMultiset(xs, ys);
    if xs != [] {
      assert xs[0] in ys;
      var k :| 0 <= k < |ys| && ys[k] == xs[0];
      TakeOut(ys, k);
      TailMultiset(xs);
      CountPermutes(xs[1..], ys[..k] + ys[k + 1..], p);
      CountConcat([xs[0]], xs[1..], p);
      CountTakeOut(ys, k, p);
    }
  }

  lemma CountTakeOut(ys: seq<Receipt>, k: nat, p: Receipt -> bool)
    requires k < |ys|
    ensures Count(ys, p) == Count([ys[k]], p) + Count(ys[..k] + ys[k + 1..], p)
  {
    SplitAt(ys, k);
    CountMiddle(ys[..k], ys[k], ys[k + 1..], p);
  }

  lemma CountMiddle(xs: seq<Receipt>, r: Receipt, ys: seq<Receipt>, p: Receipt -> bool)
    ensures Count(xs + [r] + ys, p) == Count([r], p) + Count(xs + ys, p)
  {
    CountConcat(xs, ys, p);
    CountConcat(xs, [r], p);
    CountConcat(xs + [r], ys, p);
  }

  lemma {:induction false} Totals(rs: seq<Receipt>)
    ensures TotalXp(rs) == XP_PER_VERIFIED * Count(rs, IsVerified) + XP_ONE_SHOT_BONUS * Count(rs, IsOneShot)
    ensures Count(rs, IsOneShot) <= Count(rs, IsVerified) <= |rs|
  {
    if rs != [] {
      Totals(rs[..|rs| - 1]);
    }
  }

  lemma {:induction false} WindowCounts(rs: seq<Receipt>, lo: int, hi: int)
    requires Window(rs, lo, hi)
    ensures hi - lo <= Count(rs, IsVerified)
    decreases |rs|
  {
    if lo < hi {
      var init := rs[..|rs| - 1];
      WindowCounts(init, lo, if hi == |rs| then hi - 1 else hi);
    }
  }
}
