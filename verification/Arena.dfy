/**
  The arena's ELO ledger: `update_elo`, `_ensure_model`, `_apply_bout`, `build_ledger` and `rank_ledger`,
  with ratings as reals and the expected-score curve as a parameter.
*/
module Arena {
  import opened Sequences
  import opened Totals

  const DEFAULT_RATING := 1000.0

  /** `winner` is "A", "B" or anything else for a draw. */
  datatype Bout = Bout(modelA: string, modelB: string, winner: string)

  type Curve = (real, real) -> real

  /** What the logistic curve guarantees: scores strictly between 0 and 1 that sum to 1. */
  ghost predicate EloCurve(expected: Curve) {
    && (forall a, b :: 0.0 < expected(a, b) < 1.0)
    && (forall a, b :: expected(a, b) + expected(b, a) == 1.0)
  }

  function ScoreA(outcome: string): real {
    if outcome == "A" then 1.0 else if outcome == "B" then 0.0 else 0.5
  }

  function ScoreB(outcome: string): real {
    if outcome == "A" then 0.0 else if outcome == "B" then 1.0 else 0.5
  }

  function UpdateElo(ra: real, rb: real, outcome: string, k: real, expected: Curve): (real, real) {
    var ea := expected(ra, rb);
    var eb := 1.0 - ea;
    (Moved(ra, k, ScoreA(outcome), ea), Moved(rb, k, ScoreB(outcome), eb))
  }

  function Moved(rating: real, k: real, score: real, expectedScore: real): real {
    rating + k * (score - expectedScore)
  }

  // ----- The ledger as a value -----

  datatype Rec = Rec(model: string, rating: real, wins: nat, losses: nat, draws: nat, bouts: nat, history: seq<real>)

  type Book = map<string, Rec>

  datatype Tally = Win | Loss | Draw

  function TallyA(winner: string): Tally {
    if winner == "A" then Win else if winner == "B" then Loss else Draw
  }

  function TallyB(winner: string): Tally {
    if winner == "A" then Loss else if winner == "B" then Win else Draw
  }

  function Played(r: Rec, rating: real, t: Tally): Rec {
    Rec(r.model, rating,
        r.wins + if t.Win? then 1 else 0, r.losses + if t.Loss? then 1 else 0, r.draws + if t.Draw? then 1 else 0,
        r.bouts + 1, r.history + [rating])
  }

  function Ensured(b: Book, name: string): Book {
    if name in b then b else b[name := Rec(name, DEFAULT_RATING, 0, 0, 0, 0, [])]
  }

  function Entrants(b: Book, bout: Bout): Book {
    Ensured(Ensured(b, bout.modelA), bout.modelB)
  }

  /** Both sides are booked in turn, so a model that meets itself is booked twice. */
  function Booked(b: Book, bout: Bout, newRa: real, newRb: real): Book
    requires bout.modelA in b && bout.modelB in b
  {
    var b2 := b[bout.modelA := Played(b[bout.modelA], newRa, TallyA(bout.winner))];
    b2[bout.modelB := Played(b2[bout.modelB], newRb, TallyB(bout.winner))]
  }

  function Applied(b: Book, bout: Bout, k: real, expected: Curve): Book {
    var b1 := Entrants(b, bout);
    var (newRa, newRb) := UpdateElo(b1[bout.modelA].rating, b1[bout.modelB].rating, bout.winner, k, expected);
    Booked(b1, bout, newRa, newRb)
  }

  predicate Malformed(bout: Bout) {
    bout.modelA == "" || bout.modelB == ""
  }

  function Folded(b: Book, bouts: seq<Bout>, k: real, expected: Curve): Book
    decreases |bouts|
  {
    if bouts == [] then b
    else Folded(if Malformed(bouts[0]) then b else Applied(b, bouts[0], k, expected), bouts[1..], k, expected)
  }

  // ----- The ledger as the program keeps it -----

  class ModelRecord {
    const model: string
    var rating: real
    var wins: nat
    var losses: nat
    var draws: nat
    var bouts: nat
    var ratingHistory: seq<real>

    constructor (model: string, rating: real)
      ensures View() == Rec(model, rating, 0, 0, 0, 0, [])
    {
      this.model, this.rating := model, rating;
      wins, losses, draws, bouts, ratingHistory := 0, 0, 0, 0, [];
    }

    function View(): Rec
      reads this
    {
      Rec(model, rating, wins, losses, draws, bouts, ratingHistory)
    }
  }

  class Ledger {
    var models: map<string, ModelRecord>

    constructor ()
      ensures Valid() && View() == map[] && models == map[]
    {
      models := map[];
    }

    /** No two names share a record. */
    ghost predicate Valid()
      reads this
    {
      forall m, n | m in models && n in models && m != n :: models[m] != models[n]
    }

    ghost function View(): Book
      reads this, models.Values
    {
      map n | n in models :: models[n].View()
    }

    method EnsureModel(name: string) returns (r: ModelRecord)
      requires Valid()
      modifies this
      ensures Valid() && name in models && r == models[name]
      ensures View() == Ensured(old(View()), name)
      ensures fresh(models.Values - old(models.Values))
      ensures forall n | n in old(models) :: n in models && models[n] == old(models[n])
    {
      if name !in models {
        var rec := new ModelRecord(name, DEFAULT_RATING);
        models := models[name := rec];
      }
      return models[name];
    }

    method ApplyBout(bout: Bout, k: real, expected: Curve)
      requires Valid()
      modifies this, models.Values
      ensures Valid()
      ensures View() == Applied(old(View()), bout, k, expected)
      ensures BooksBout(old(View()), View(), bout, k, expected)
      ensures fresh(models.Values - old(models.Values))
    {
      var recA := EnsureModel(bout.modelA);
      var recB := EnsureModel(bout.modelB);
      assert View() == Entrants(old(View()), bout);
      assert recA.View() == View()[bout.modelA] && recB.View() == View()[bout.modelB];
      var (newRa, newRb) := UpdateElo(recA.rating, recB.rating, bout.winner, k, expected);
      BookResult(recA, recB, bout, newRa, newRb);
      AppliedBooks(old(View()), bout, k, expected);
    }

    /** The second half of `_apply_bout`; `recA` and `recB` may be one record. */
    method BookResult(recA: ModelRecord, recB: ModelRecord, bout: Bout, newRa: real, newRb: real)
      requires Valid()
      requires bout.modelA in models && models[bout.modelA] == recA
      requires bout.modelB in models && models[bout.modelB] == recB
      modifies recA, recB
      ensures View() == Booked(old(View()), bout, newRa, newRb)
    {
      ghost var was, wasA, wasB := View(), recA.View(), recB.View();
      ghost var now := Booked(was, bout, newRa, newRb);
      assert was[bout.modelA] == wasA && was[bout.modelB] == wasB;
      assert recA == recB <==> bout.modelA == bout.modelB;
      UpdateRecords(recA, recB, newRa, newRb, bout.winner);
      assert View().Keys == now.Keys;
      forall n | n in models ensures models[n].View() == now[n] {
        if n != bout.modelA && n != bout.modelB {
          assert models[n].View() == was[n];
        }
      }
    }
  }

  method UpdateRecords(recA: ModelRecord, recB: ModelRecord, newRa: real, newRb: real, winner: string)
    modifies recA, recB
    ensures recA != recB ==> recA.View() == Played(old(recA.View()), newRa, TallyA(winner))
    ensures recA != recB ==> recB.View() == Played(old(recB.View()), newRb, TallyB(winner))
    ensures recA == recB ==>
              recB.View() == Played(Played(old(recA.View()), newRa, TallyA(winner)), newRb, TallyB(winner))
  {
    recA.rating := newRa;
    recB.rating := newRb;
    recA.bouts := recA.bouts + 1;
    recB.bouts := recB.bouts + 1;
    recA.ratingHistory := recA.ratingHistory + [newRa];
    recB.ratingHistory := recB.ratingHistory + [newRb];
    if winner == "A" {
      recA.wins := recA.wins + 1;
      recB.losses := recB.losses + 1;
    } else if winner == "B" {
      recA.losses := recA.losses + 1;
      recB.wins := recB.wins + 1;
    } else {
      recA.draws := recA.draws + 1;
      recB.draws := recB.draws + 1;
    }
  }

  method BuildLedger(bouts: seq<Bout>, k: real, expected: Curve) returns (ledger: Ledger)
    ensures fresh(ledger) && fresh(ledger.models.Values)
    ensures ledger.Valid() && ledger.View() == Folded(map[], bouts, k, expected)
  {
    ledger := new Ledger();
    for i := 0 to |bouts|
      invariant fresh(ledger) && fresh(ledger.models.Values)
      invariant ledger.Valid()
      invariant Folded(ledger.View(), bouts[i..], k, expected) == Folded(map[], bouts, k, expected)
    {
      var bout := bouts[i];
      assert bouts[i..][1..] == bouts[i + 1..];
      if bout.modelA == "" || bout.modelB == "" { continue; }
      ledger.ApplyBout(bout, k, expected);
    }
  }

  // ----- What one bout does to the records -----

  /** The rating a bout starts from: that of the record, or 1000 for a model that has none. */
  function RatingIn(b: Book, name: string): real {
    if name in b then b[name].rating else 1000.0
  }

  /** What side A gains, and side B loses, in units of `k`, when A was expected to score `e`. */
  function Gain(e: real, winner: string): real {
    if winner == "A" then 1.0 - e else if winner == "B" then -e else 0.5 - e
  }

  /** The record with one more bout, ending in `rating`. */
  function OneMore(r: Rec, rating: real, won: bool, lost: bool): Rec {
    Rec(r.model, rating,
        r.wins + (if won then 1 else 0), r.losses + (if lost then 1 else 0), r.draws + (if won || lost then 0 else 1),
        r.bouts + 1, r.history + [rating])
  }

  function RecordIn(b: Book, name: string): Rec {
    if name in b then b[name] else Rec(name, 1000.0, 0, 0, 0, 0, [])
  }

  /** The two records of the bout, and no others, have changed, in the names and with the ratings of their sides. */
  ghost predicate BooksResult(was: Book, now: Book, bout: Bout, newRa: real, newRb: real) {
    var a, b, won, lost := bout.modelA, bout.modelB, bout.winner == "A", bout.winner == "B";
    && now.Keys == was.Keys + {a, b}
    && (forall n | n in was && n != a && n != b :: now[n] == was[n])
    && if a != b then
         && now[a] == OneMore(RecordIn(was, a), newRa, won, lost)
         && now[b] == OneMore(RecordIn(was, b), newRb, lost, won)
       else now[a] == OneMore(OneMore(RecordIn(was, a), newRa, won, lost), newRb, lost, won)
  }

  /** `now` is `was` after the bout: side A has gained, and side B lost, `k` times the gain. */
  ghost predicate BooksBout(was: Book, now: Book, bout: Bout, k: real, expected: Curve) {
    var ra, rb := RatingIn(was, bout.modelA), RatingIn(was, bout.modelB);
    var gain := k * Gain(expected(ra, rb), bout.winner);
    BooksResult(was, now, bout, ra + gain, rb - gain)
  }

  lemma UpdateGains(ra: real, rb: real, outcome: string, k: real, expected: Curve)
    ensures var (newRa, newRb) := UpdateElo(ra, rb, outcome, k, expected);
      var gain := k * Gain(expected(ra, rb), outcome);
      newRa == ra + gain && newRb == rb - gain
  {
    var e := expected(ra, rb);
    MovedBy(ra, k, ScoreA(outcome), e, Gain(e, outcome));
    MovedDown(rb, k, ScoreB(outcome), 1.0 - e, Gain(e, outcome));
  }

  lemma MovedBy(rating: real, k: real, score: real, expectedScore: real, gain: real)
    requires score - expectedScore == gain
    ensures Moved(rating, k, score, expectedScore) == rating + k * gain
  {
  }

  lemma MovedDown(rating: real, k: real, score: real, expectedScore: real, gain: real)
    requires score - expectedScore == -gain
    ensures Moved(rating, k, score, expectedScore) == rating - k * gain
  {
    var d := score - expectedScore;
    assert k * (-gain) == -(k * gain);
    assert k * d == k * (-gain);
  }

  lemma EntrantsBook(b: Book, bout: Bout, newRa: real, newRb: real)
    ensures var b1 := Entrants(b, bout);
      && bout.modelA in b1 && bout.modelB in b1
      && b1[bout.modelA].rating == RatingIn(b, bout.modelA) && b1[bout.modelB].rating == RatingIn(b, bout.modelB)
      && BooksResult(b, Booked(b1, bout, newRa, newRb), bout, newRa, newRb)
  {
    var b1 := Entrants(b, bout);
    assert b1.Keys == b.Keys + {bout.modelA, bout.modelB};
    assert b1[bout.modelA] == RecordIn(b, bout.modelA) && b1[bout.modelB] == RecordIn(b, bout.modelB);
    PlayedIsOneMore(b1[bout.modelA], newRa, bout.winner);
    PlayedIsOneMore(b1[bout.modelB], newRb, bout.winner);
    PlayedIsOneMore(Played(b1[bout.modelA], newRa, TallyA(bout.winner)), newRb, bout.winner);
  }

  lemma PlayedIsOneMore(r: Rec, rating: real, winner: string)
    ensures Played(r, rating, TallyA(winner)) == OneMore(r, rating, winner == "A", winner == "B")
    ensures Played(r, rating, TallyB(winner)) == OneMore(r, rating, winner == "B", winner == "A")
  {
  }

  lemma AppliedBooks(b: Book, bout: Bout, k: real, expected: Curve)
    ensures BooksBout(b, Applied(b, bout, k, expected), bout, k, expected)
  {
    var ra, rb := RatingIn(b, bout.modelA), RatingIn(b, bout.modelB);
    var (newRa, newRb) := UpdateElo(ra, rb, bout.winner, k, expected);
    UpdateGains(ra, rb, bout.winner, k, expected);
    EntrantsBook(b, bout, newRa, newRb);
    assert Applied(b, bout, k, expected) == Booked(Entrants(b, bout), bout, newRa, newRb);
  }

  /** With a positive `k` a draw raises exactly the side that was expected to score less than one half. */
  lemma DrawFavoursTheWeaker(was: Book, now: Book, bout: Bout, k: real, expected: Curve)
    requires BooksBout(was, now, bout, k, expected) && bout.modelA != bout.modelB && k > 0.0
    requires bout.winner != "A" && bout.winner != "B"
    ensures var ra, rb := RatingIn(was, bout.modelA), RatingIn(was, bout.modelB);
      && (now[bout.modelA].rating > ra <==> expected(ra, rb) < 0.5)
      && (now[bout.modelB].rating > rb <==> 1.0 - expected(ra, rb) < 0.5)
  {
    var d := 0.5 - expected(RatingIn(was, bout.modelA), RatingIn(was, bout.modelB));
    assert k * d > 0.0 <==> d > 0.0;
    assert k * d < 0.0 <==> d < 0.0;
  }

  /** The ledger of a longer log: a bout without both names changes nothing, any other one is booked. */
  lemma LedgerGrows(bouts: seq<Bout>, bout: Bout, k: real, expected: Curve)
    ensures var was, now := Folded(map[], bouts, k, expected), Folded(map[], bouts + [bout], k, expected);
      if bout.modelA == "" || bout.modelB == "" then now == was else BooksBout(was, now, bout, k, expected)
    ensures Folded(map[], [], k, expected) == map[]
  {
    FoldedConcat(map[], bouts, [bout], k, expected);
    assert [bout][1..] == [];
    AppliedBooks(Folded(map[], bouts, k, expected), bout, k, expected);
  }

  // ----- Each record accounts for its bouts -----

  function Abs(x: real): real {
    if x < 0.0 then -x else x
  }

  predicate Accounted(r: Rec, k: real) {
    && r.bouts == r.wins + r.losses + r.draws == |r.history|
    && r.rating == (if r.history == [] then DEFAULT_RATING else r.history[|r.history| - 1])
    && Abs(r.rating - DEFAULT_RATING) <= Abs(k) * r.bouts as real
  }

  ghost predicate AllAccounted(b: Book, k: real) {
    forall n | n in b :: b[n].model == n && Accounted(b[n], k)
  }

  lemma PlayedAccounted(r: Rec, rating: real, t: Tally, k: real)
    requires Accounted(r, k) && Abs(rating - r.rating) <= Abs(k)
    ensures Accounted(Played(r, rating, t), k)
  {
    var n := r.bouts as real;
    assert Abs(k) * (n + 1.0) == Abs(k) * n + Abs(k);
    assert (r.bouts + 1) as real == n + 1.0;
  }

  lemma AppliedAccounted(b: Book, bout: Bout, k: real, expected: Curve)
    requires EloCurve(expected) && AllAccounted(b, k)
    ensures AllAccounted(Applied(b, bout, k, expected), k)
  {
    var b1 := Entrants(b, bout);
    assert Abs(k) * 0.0 == 0.0;
    assert AllAccounted(b1, k);
    var recA, recB := b1[bout.modelA], b1[bout.modelB];
    var (newRa, newRb) := UpdateElo(recA.rating, recB.rating, bout.winner, k, expected);
    UpdateBounds(recA.rating, recB.rating, bout.winner, k, expected);
    PlayedAccounted(recA, newRa, TallyA(bout.winner), k);
    if bout.modelA != bout.modelB {
      PlayedAccounted(recB, newRb, TallyB(bout.winner), k);
    } else {
      SelfBounds(recA.rating, bout.winner, k, expected);
      PlayedAccounted(Played(recA, newRa, TallyA(bout.winner)), newRb, TallyB(bout.winner), k);
    }
  }

  lemma UpdateBounds(ra: real, rb: real, outcome: string, k: real, expected: Curve)
    requires EloCurve(expected)
    ensures var (newRa, newRb) := UpdateElo(ra, rb, outcome, k, expected);
      Abs(newRa - ra) <= Abs(k) && Abs(newRb - rb) <= Abs(k)
  {
  }

  lemma SelfBounds(r: real, outcome: string, k: real, expected: Curve)
    requires EloCurve(expected)
    ensures var (newRa, newRb) := UpdateElo(r, r, outcome, k, expected); Abs(newRb - newRa) <= Abs(k)
  {
  }

  // ----- Conservation -----

  lemma UpdateConserves(ra: real, rb: real, outcome: string, k: real, expected: Curve)
    ensures var (newRa, newRb) := UpdateElo(ra, rb, outcome, k, expected); newRa + newRb == ra + rb
  {
  }

  /** Of a bout of a model with itself only the "B" side's new rating survives: half of `k` off the old one. */
  lemma SelfBout(r: real, outcome: string, k: real, expected: Curve)
    requires EloCurve(expected)
    ensures var (newRa, newRb) := UpdateElo(r, r, outcome, k, expected);
      && newRb == r + SelfCredit(outcome, k)
      && newRa == r - SelfCredit(outcome, k)
  {
  }

  function SelfCredit(winner: string, k: real): real {
    if winner == "B" then k / 2.0 else if winner == "A" then -(k / 2.0) else 0.0
  }

  predicate SelfBoutWonBy(bout: Bout, side: string) {
    !Malformed(bout) && bout.modelA == bout.modelB && bout.winner == side
  }

  /** Bouts of a model with itself won by "B", less those won by "A". */
  function NetSelfWins(bouts: seq<Bout>): int {
    if bouts == [] then 0
    else
      (if SelfBoutWonBy(bouts[0], "B") then 1 else if SelfBoutWonBy(bouts[0], "A") then -1 else 0)
      + NetSelfWins(bouts[1..])
  }

  function SelfCredits(bouts: seq<Bout>, k: real): real {
    if bouts == [] then 0.0
    else
      var b := bouts[0];
      (if !Malformed(b) && b.modelA == b.modelB then SelfCredit(b.winner, k) else 0.0) + SelfCredits(bouts[1..], k)
  }

  lemma PlusOne(n: real, x: real)
    ensures (n + 1.0) * x == n * x + x
    ensures (n - 1.0) * x == n * x - x
  {
  }

  lemma {:induction false} CreditsCountNetWins(bouts: seq<Bout>, k: real)
    ensures SelfCredits(bouts, k) == NetSelfWins(bouts) as real * (k / 2.0)
  {
    if bouts != [] {
      CreditsCountNetWins(bouts[1..], k);
      PlusOne(NetSelfWins(bouts[1..]) as real, k / 2.0);
    }
  }

  function RatingOf(r: Rec): real {
    r.rating
  }

  /** How far the ratings are from 1000 points for each model. */
  ghost function Surplus(b: Book): real {
    Total(b, RatingOf) - DEFAULT_RATING * |b| as real
  }

  lemma EnsuredKeepsSurplus(b: Book, name: string)
    ensures Surplus(Ensured(b, name)) == Surplus(b)
  {
    if name !in b {
      TotalInsert(b, name, Ensured(b, name)[name], RatingOf);
      assert |Ensured(b, name)| == |b| + 1;
    }
  }

  lemma BookedSurplus(b: Book, bout: Bout, newRa: real, newRb: real)
    requires bout.modelA in b && bout.modelB in b
    ensures Surplus(Booked(b, bout, newRa, newRb)) - Surplus(b)
            == if bout.modelA == bout.modelB then newRb - b[bout.modelB].rating
               else (newRa - b[bout.modelA].rating) + (newRb - b[bout.modelB].rating)
  {
    var a' := Played(b[bout.modelA], newRa, TallyA(bout.winner));
    var b2 := b[bout.modelA := a'];
    TotalUpdate(b, bout.modelA, a', RatingOf);
    TotalUpdate(b2, bout.modelB, Played(b2[bout.modelB], newRb, TallyB(bout.winner)), RatingOf);
    assert b2.Keys == b.Keys == Booked(b, bout, newRa, newRb).Keys;
    assert |b2.Keys| == |b2| && |b.Keys| == |b|;
    assert |Booked(b, bout, newRa, newRb).Keys| == |Booked(b, bout, newRa, newRb)|;
  }

  lemma AppliedSurplus(b: Book, bout: Bout, k: real, expected: Curve)
    requires EloCurve(expected)
    ensures Surplus(Applied(b, bout, k, expected))
            == Surplus(b) + if bout.modelA == bout.modelB then SelfCredit(bout.winner, k) else 0.0
  {
    var b1 := Entrants(b, bout);
    EnsuredKeepsSurplus(b, bout.modelA);
    EnsuredKeepsSurplus(Ensured(b, bout.modelA), bout.modelB);
    var ra, rb := b1[bout.modelA].rating, b1[bout.modelB].rating;
    var (newRa, newRb) := UpdateElo(ra, rb, bout.winner, k, expected);
    BookedSurplus(b1, bout, newRa, newRb);
    if bout.modelA == bout.modelB {
      SelfBout(ra, bout.winner, k, expected);
    } else {
      UpdateConserves(ra, rb, bout.winner, k, expected);
    }
  }

  lemma {:induction false} FoldedLedger(b: Book, bouts: seq<Bout>, k: real, expected: Curve)
    requires EloCurve(expected) && AllAccounted(b, k)
    ensures Surplus(Folded(b, bouts, k, expected)) == Surplus(b) + SelfCredits(bouts, k)
    ensures AllAccounted(Folded(b, bouts, k, expected), k)
    decreases |bouts|
  {
    if bouts != [] && Malformed(bouts[0]) {
      FoldedLedger(b, bouts[1..], k, expected);
    } else if bouts != [] {
      AppliedSurplus(b, bouts[0], k, expected);
      AppliedAccounted(b, bouts[0], k, expected);
      FoldedLedger(Applied(b, bouts[0], k, expected), bouts[1..], k, expected);
    }
  }

  /**
    In every ledger the ratings sum to 1000 for each model, plus half of `k` for each bout of a model
    with itself that "B" won, less half of `k` for each that "A" won; every record accounts for its
    bouts and lies within `k` times their number of 1000.
   */
  lemma LedgerConservesRating(bouts: seq<Bout>, k: real, expected: Curve)
    requires EloCurve(expected)
    ensures var b := Folded(map[], bouts, k, expected);
      && Total(b, RatingOf) == DEFAULT_RATING * |b| as real + NetSelfWins(bouts) as real * (k / 2.0)
      && AllAccounted(b, k)
  {
    FoldedLedger(map[], bouts, k, expected);
    CreditsCountNetWins(bouts, k);
  }

  lemma MovedSign(rating: real, k: real, score: real, expectedScore: real)
    requires k > 0.0
    ensures score > expectedScore ==> Moved(rating, k, score, expectedScore) > rating
    ensures score < expectedScore ==> Moved(rating, k, score, expectedScore) < rating
    ensures score == expectedScore ==> Moved(rating, k, score, expectedScore) == rating
  {
    var d := score - expectedScore;
    assert d > 0.0 ==> k * d > 0.0;
    assert d < 0.0 ==> k * d < 0.0;
  }

  /** With a positive `k` the winner gains and the loser loses, whatever their ratings. */
  lemma WinnerGains(ra: real, rb: real, k: real, expected: Curve)
    requires EloCurve(expected) && k > 0.0
    ensures var (newRa, newRb) := UpdateElo(ra, rb, "A", k, expected); newRa > ra && newRb < rb
    ensures var (newRa, newRb) := UpdateElo(ra, rb, "B", k, expected); newRa < ra && newRb > rb
    ensures ra == rb ==> UpdateElo(ra, rb, "draw", k, expected) == (ra, rb)
  {
    var ea := expected(ra, rb);
    MovedSign(ra, k, 1.0, ea);
    MovedSign(rb, k, 0.0, 1.0 - ea);
    MovedSign(ra, k, 0.0, ea);
    MovedSign(rb, k, 1.0, 1.0 - ea);
    MovedSign(ra, k, 0.5, ea);
    MovedSign(rb, k, 0.5, 1.0 - ea);
  }

  // ----- Tallies -----

  function Wins(bouts: seq<Bout>, name: string): nat {
    if bouts == [] then 0
    else
      var b := bouts[0];
      (if !Malformed(b) && b.modelA == name && b.winner == "A" then 1 else 0)
      + (if !Malformed(b) && b.modelB == name && b.winner == "B" then 1 else 0) + Wins(bouts[1..], name)
  }

  function Losses(bouts: seq<Bout>, name: string): nat {
    if bouts == [] then 0
    else
      var b := bouts[0];
      (if !Malformed(b) && b.modelA == name && b.winner == "B" then 1 else 0)
      + (if !Malformed(b) && b.modelB == name && b.winner == "A" then 1 else 0) + Losses(bouts[1..], name)
  }

  /** The sides a model has taken, both of them in a bout against itself. */
  function Sides(bouts: seq<Bout>, name: string): nat {
    if bouts == [] then 0
    else
      var b := bouts[0];
      (if !Malformed(b) && b.modelA == name then 1 else 0)
      + (if !Malformed(b) && b.modelB == name then 1 else 0) + Sides(bouts[1..], name)
  }

  function RecIn(b: Book, name: string): Rec {
    if name in b then b[name] else Rec(name, DEFAULT_RATING, 0, 0, 0, 0, [])
  }

  /** The tallies of every record count the log: its wins, its losses, and the sides it took. */
  lemma {:induction false} TalliesCountTheLog(b: Book, bouts: seq<Bout>, k: real, expected: Curve, name: string)
    ensures var r, r0 := RecIn(Folded(b, bouts, k, expected), name), RecIn(b, name);
      && r.wins == r0.wins + Wins(bouts, name)
      && r.losses == r0.losses + Losses(bouts, name)
      && r.bouts == r0.bouts + Sides(bouts, name)
      && (name in Folded(b, bouts, k, expected) <==> name in b || Sides(bouts, name) > 0)
    decreases |bouts|
  {
    if bouts != [] {
      var b' := if Malformed(bouts[0]) then b else Applied(b, bouts[0], k, expected);
      TalliesCountTheLog(b', bouts[1..], k, expected, name);
    }
  }

  // ----- Symmetry -----

  function Swapped(bout: Bout): Bout {
    Bout(bout.modelB, bout.modelA,
         if bout.winner == "A" then "B" else if bout.winner == "B" then "A" else bout.winner)
  }

  lemma SwapOneBout(b: Book, bout: Bout, k: real, expected: Curve)
    requires EloCurve(expected) && bout.modelA != bout.modelB
    ensures Applied(b, Swapped(bout), k, expected) == Applied(b, bout, k, expected)
  {
  }

  lemma {:induction false} FoldedConcat(b: Book, xs: seq<Bout>, ys: seq<Bout>, k: real, expected: Curve)
    ensures Folded(b, xs + ys, k, expected) == Folded(Folded(b, xs, k, expected), ys, k, expected)
    decreases |xs|
  {
    if xs == [] {
      assert xs + ys == ys;
    } else {
      assert (xs + ys)[1..] == xs[1..] + ys;
      FoldedConcat(if Malformed(xs[0]) then b else Applied(b, xs[0], k, expected), xs[1..], ys, k, expected);
    }
  }

  /** Exchanging the sides of any one bout between two models leaves the whole ledger as it was. */
  lemma SidesDoNotMatter(before: seq<Bout>, bout: Bout, after: seq<Bout>, k: real, expected: Curve)
    requires EloCurve(expected) && bout.modelA != bout.modelB
    ensures Folded(map[], before + [Swapped(bout)] + after, k, expected)
            == Folded(map[], before + [bout] + after, k, expected)
  {
    var b := Folded(map[], before, k, expected);
    FoldedConcat(map[], before, [bout], k, expected);
    FoldedConcat(map[], before, [Swapped(bout)], k, expected);
    FoldedConcat(map[], before + [bout], after, k, expected);
    FoldedConcat(map[], before + [Swapped(bout)], after, k, expected);
    SwapOneBout(b, bout, k, expected);
    assert [bout][1..] == [] && [Swapped(bout)][1..] == [];
  }

  // ----- Ranking -----

  /** Higher ratings first; equal ratings by name. */
  predicate RankLe(r: Rec, s: Rec) {
    r.rating > s.rating || (r.rating == s.rating && StringLe(r.model, s.model))
  }

  /** The leaderboard depends on the ledger alone, not on the order its records are listed in. */
  lemma RankingIsUnique(b: Book, xs: seq<Rec>, ys: seq<Rec>, k: real)
    requires AllAccounted(b, k)
    requires multiset(xs) == multiset(ys) && forall r | r in xs :: r.model in b && b[r.model] == r
    ensures Sort(xs, RankLe) == Sort(ys, RankLe)
    ensures SortedBy(Sort(xs, RankLe), RankLe) && multiset(Sort(xs, RankLe)) == multiset(xs)
    ensures var ranked := Sort(xs, RankLe);
      forall i, j | 0 <= i < j < |ranked| ::
        || ranked[i].rating > ranked[j].rating
        || (ranked[i].rating == ranked[j].rating && StringLe(ranked[i].model, ranked[j].model))
  {
    StringOrder();
    assert TotalPreorder(RankLe);
    SortIsSortedPermutation(xs, RankLe);
    SortIsSortedPermutation(ys, RankLe);
    SortedUnique(Sort(xs, RankLe), Sort(ys, RankLe), RankLe);
  }
}
