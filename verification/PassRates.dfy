/**
  Per-task pass rates and consistency: `_pass_hat_k` and `rates` of the benchmarks, without rounding.
*/
module PassRates {
  import opened Wrappers
  import opened Sequences
  import opened Totals
  import opened FailureTaxonomy

  /** `by_task`: the outcomes of each task's usable trials, in order. */
  type Groups = map<string, seq<bool>>

  function Outcomes(rows: seq<Row>, task: string): seq<bool> {
    if rows == [] then []
    else (if rows[0].task == task then [rows[0].passed] else []) + Outcomes(rows[1..], task)
  }

  /** The tasks that occur, each with its outcomes. */
  ghost predicate GroupsOf(groups: Groups, rows: seq<Row>) {
    forall t :: (t in groups <==> Outcomes(rows, t) != []) && (t in groups ==> groups[t] == Outcomes(rows, t))
  }

  lemma {:induction false} OutcomesAppend(rows: seq<Row>, row: Row, task: string)
    ensures Outcomes(rows + [row], task) == Outcomes(rows, task) + if row.task == task then [row.passed] else []
  {
    if rows == [] {
      assert rows + [row] == [row] && [row][1..] == [];
    } else {
      assert (rows + [row])[0] == rows[0] && (rows + [row])[1..] == rows[1..] + [row];
      OutcomesAppend(rows[1..], row, task);
      var first := if rows[0].task == task then [rows[0].passed] else [];
      var last := if row.task == task then [row.passed] else [];
      assert first + (Outcomes(rows[1..], task) + last) == (first + Outcomes(rows[1..], task)) + last;
    }
  }

  method ByTask(rows: seq<Row>) returns (groups: Groups)
    ensures GroupsOf(groups, rows)
  {
    groups := map[];
    for i := 0 to |rows|
      invariant GroupsOf(groups, rows[..i])
    {
      var row := rows[i];
      assert rows[..i + 1] == rows[..i] + [row];
      forall t { OutcomesAppend(rows[..i], row, t); }
      groups := groups[row.task := (if row.task in groups then groups[row.task] else []) + [row.passed]];
    }
    assert rows[..|rows|] == rows;
  }

  function Passes(v: seq<bool>): nat {
    if v == [] then 0 else (if v[0] then 1 else 0) + Passes(v[1..])
  }

  /** `mean` of a task's outcomes; a task without trials has no rate and never occurs. */
  function Rate(v: seq<bool>): real {
    if v == [] then 0.0 else Passes(v) as real / |v| as real
  }

  function AllPass(v: seq<bool>): real {
    if false in v then 0.0 else 1.0
  }

  /** The mean of `weight(v)` over the tasks, as the reports take it. */
  ghost function Mean(groups: Groups, weight: seq<bool> -> real): real
    requires groups != map[]
  {
    Total(groups, weight) / |groups| as real
  }

  method MeanOver(groups: Groups, weight: seq<bool> -> real) returns (mean: real)
    requires groups != map[]
    ensures mean == Mean(groups, weight)
  {
    var sum, rest := 0.0, groups;
    while rest != map[]
      invariant sum + Total(rest, weight) == Total(groups, weight)
      decreases |rest|
    {
      var t :| t in rest;
      TotalSplit(rest, t, weight);
      sum := sum + weight(rest[t]);
      rest := rest - {t};
    }
    mean := sum / |groups| as real;
  }

  method PassHatK(rows: seq<Row>) returns (r: Option<real>)
    ensures r.None? <==> rows == []
    ensures r.Some? ==> forall groups | GroupsOf(groups, rows) && groups != map[] :: r.value == Mean(groups, AllPass)
    ensures r.Some? ==> 0.0 <= r.value <= 1.0
    ensures r == Some(1.0) <==> rows != [] && forall row | row in rows :: row.passed
    ensures r.Some? ==> |Tasks(rows)| > 0 && r.value == |AlwaysPassed(rows)| as real / |Tasks(rows)| as real
  {
    var groups := ByTask(rows);
    assert rows != [] ==> Outcomes(rows, rows[0].task) != [];
    if groups == map[] { return None; }
    assert rows != [];
    var mean := MeanOver(groups, AllPass);
    forall other | GroupsOf(other, rows) ensures other == groups { SameGroups(groups, other, rows); }
    PassHatKRange(groups);
    AllTasksPass(groups, rows);
    ShareOfTasks(groups, rows);
    return Some(mean);
  }

  /** The tasks that occur. */
  ghost function Tasks(rows: seq<Row>): set<string> {
    set row | row in rows :: row.task
  }

  /** Those of them all of whose rows passed. */
  ghost function AlwaysPassed(rows: seq<Row>): set<string> {
    set t | t in Tasks(rows) && forall q | q in rows && q.task == t :: q.passed
  }

  /** Full consistency is the share of the tasks that passed on every row. */
  lemma ShareOfTasks(groups: Groups, rows: seq<Row>)
    requires GroupsOf(groups, rows) && groups != map[]
    ensures |Tasks(rows)| > 0 && Mean(groups, AllPass) == |AlwaysPassed(rows)| as real / |Tasks(rows)| as real
  {
    TasksAreKeys(groups, rows);
    TotalCounts(groups, AllPass, AlwaysPassed(rows));
    assert |groups| == |groups.Keys|;
  }

  lemma TasksAreKeys(groups: Groups, rows: seq<Row>)
    requires GroupsOf(groups, rows)
    ensures Tasks(rows) == groups.Keys && AlwaysPassed(rows) <= groups.Keys
    ensures forall t | t in groups :: AllPass(groups[t]) == if t in AlwaysPassed(rows) then 1.0 else 0.0
  {
    forall t
      ensures t in groups <==> t in Tasks(rows)
      ensures t in groups ==> (t in AlwaysPassed(rows) <==> false !in groups[t])
    {
      TaskOccurs(groups, rows, t);
    }
  }

  lemma TaskOccurs(groups: Groups, rows: seq<Row>, t: string)
    requires GroupsOf(groups, rows)
    ensures t in groups <==> t in Tasks(rows)
    ensures t in groups ==> (t in AlwaysPassed(rows) <==> false !in groups[t])
  {
    var v := Outcomes(rows, t);
    OutcomeOccurs(rows, t, true);
    OutcomeOccurs(rows, t, false);
    if v != [] {
      OutcomeOccurs(rows, t, v[0]);
      var row :| row in rows && row.task == t;
      assert row.task in Tasks(rows);
    }
    if t in Tasks(rows) {
      var row :| row in rows && row.task == t;
      assert row.passed || !row.passed;
      assert (if row.passed then true in v else false in v);
    }
  }

  // ----- Per-task rates of a condition -----

  /** The rows of a task that count for a condition, and those of them that passed. */
  function TrialOf(condition: string, task: string): Row -> bool {
    (row: Row) => row.task == task && row.arm == condition && row.infraError == None
  }

  function PassOf(condition: string, task: string): Row -> bool {
    (row: Row) => row.task == task && row.arm == condition && row.infraError == None && row.passed
  }

  ghost function Trials(rows: seq<Row>, condition: string, task: string): set<int> {
    Indices(rows, TrialOf(condition, task))
  }

  ghost function Passing(rows: seq<Row>, condition: string, task: string): set<int> {
    Indices(rows, PassOf(condition, task))
  }

  function CountsFor(condition: string): Row -> bool {
    (row: Row) => row.arm == condition && row.infraError.None?
  }

  function Usable(rows: seq<Row>, condition: string): seq<Row> {
    Filter(rows, CountsFor(condition))
  }

  /** `rates`: each task with a usable trial, and the share of its usable trials that passed. */
  method Rates(rows: seq<Row>, condition: string) returns (rates: map<string, real>)
    ensures forall t :: t in rates <==> Trials(rows, condition, t) != {}
    ensures forall t | t in rates ::
              rates[t] == |Passing(rows, condition, t)| as real / |Trials(rows, condition, t)| as real
  {
    var buckets: Groups := map[];
    for i := 0 to |rows|
      invariant GroupsOf(buckets, Usable(rows[..i], condition))
    {
      var row := rows[i];
      assert rows[..i + 1] == rows[..i] + [row];
      UsableAppend(rows[..i], row, condition);
      if row.arm != condition || row.infraError.Some? { continue; }
      forall t { OutcomesAppend(Usable(rows[..i], condition), row, t); }
      buckets := buckets[row.task := (if row.task in buckets then buckets[row.task] else []) + [row.passed]];
    }
    assert rows[..|rows|] == rows;
    rates := map t | t in buckets :: Rate(buckets[t]);
    forall t
      ensures t in buckets <==> Trials(rows, condition, t) != {}
      ensures t in buckets ==>
                Rate(buckets[t]) == |Passing(rows, condition, t)| as real / |Trials(rows, condition, t)| as real
    {
      RateMeans(buckets, rows, condition, t);
    }
  }

  lemma UsableAppend(rows: seq<Row>, row: Row, condition: string)
    ensures Usable(rows + [row], condition)
            == if row.arm == condition && row.infraError == None then Usable(rows, condition) + [row]
               else Usable(rows, condition)
  {
    FilterAppend(rows, [row], CountsFor(condition));
    assert [row][1..] == [];
    assert Filter([row], CountsFor(condition)) == if CountsFor(condition)(row) then [row] else [];
    assert Usable(rows, condition) + [] == Usable(rows, condition);
  }

  lemma RateMeans(buckets: Groups, rows: seq<Row>, condition: string, t: string)
    requires GroupsOf(buckets, Usable(rows, condition))
    ensures t in buckets <==> Trials(rows, condition, t) != {}
    ensures t in buckets ==>
              Rate(buckets[t]) == |Passing(rows, condition, t)| as real / |Trials(rows, condition, t)| as real
  {
    TrialsAreOutcomes(rows, condition, t);
    assert |Trials(rows, condition, t)| == 0 <==> Trials(rows, condition, t) == {};
  }

  lemma {:induction false} TrialsAreOutcomes(rows: seq<Row>, condition: string, task: string)
    ensures |Trials(rows, condition, task)| == |Outcomes(Usable(rows, condition), task)|
    ensures |Passing(rows, condition, task)| == Passes(Outcomes(Usable(rows, condition), task))
  {
    if rows != [] {
      var init, last := rows[..|rows| - 1], rows[|rows| - 1];
      TrialsAreOutcomes(init, condition, task);
      assert rows == init + [last];
      UsableOutcomes(init, last, condition, task);
      PassesAppend(Outcomes(Usable(init, condition), task), last.passed);
      OneMoreIndex(init, last, TrialOf(condition, task));
      OneMoreIndex(init, last, PassOf(condition, task));
    }
  }

  lemma UsableOutcomes(rows: seq<Row>, row: Row, condition: string, task: string)
    ensures Outcomes(Usable(rows + [row], condition), task)
            == if TrialOf(condition, task)(row) then Outcomes(Usable(rows, condition), task) + [row.passed]
               else Outcomes(Usable(rows, condition), task)
  {
    UsableAppend(rows, row, condition);
    OutcomesAppend(Usable(rows, condition), row, task);
    var v := Outcomes(Usable(rows, condition), task);
    assert v + [] == v;
  }

  lemma {:induction false} PassesAppend(v: seq<bool>, b: bool)
    ensures Passes(v + [b]) == Passes(v) + if b then 1 else 0
  {
    if v == [] {
      assert v + [b] == [b] && [b][1..] == [];
    } else {
      assert (v + [b])[1..] == v[1..] + [b];
      PassesAppend(v[1..], b);
    }
  }

  lemma SameGroups(g: Groups, h: Groups, rows: seq<Row>)
    requires GroupsOf(g, rows) && GroupsOf(h, rows)
    ensures g == h
  {
  }

  // ----- Bounds -----

  lemma {:induction false} PassesBounds(v: seq<bool>)
    ensures Passes(v) <= |v|
    ensures Passes(v) == |v| <==> false !in v
  {
    if v != [] {
      PassesBounds(v[1..]);
      assert v == [v[0]] + v[1..];
      assert false in v <==> !v[0] || false in v[1..];
    }
  }

  function Shortfall(v: seq<bool>): real {
    1.0 - Rate(v)
  }

  function Failing(v: seq<bool>): real {
    1.0 - AllPass(v)
  }

  /** A task that fails some of its at most `k` trials falls short by at least `1 / k`. */
  lemma TaskBounds(v: seq<bool>, k: nat)
    requires 0 < |v| <= k
    ensures AllPass(v) <= Rate(v)
    ensures Failing(v) <= Repeat(k, Shortfall(v))
  {
    PassesBounds(v);
    ShortfallTimes(Passes(v) as real, |v| as real);
    if Passes(v) < |v| {
      ShortTask(Shortfall(v), |v|, Passes(v), k);
    } else {
      RepeatIsProduct(k, 0.0);
    }
  }

  lemma ShortfallTimes(p: real, n: real)
    requires 0.0 <= p <= n && 0.0 < n
    ensures (1.0 - p / n) * n == n - p
    ensures 0.0 <= p / n
    ensures p == n ==> p / n == 1.0
  {
  }

  lemma ShortTask(short: real, n: nat, p: nat, k: nat)
    requires short * n as real == n as real - p as real && p < n <= k
    ensures Repeat(k, short) >= 1.0
  {
    ScaleDown(0.0, short, n as real);
    ScaleUp(n as real, k as real, short);
    RepeatIsProduct(k, short);
  }

  lemma ScaleUp(x: real, y: real, c: real)
    requires x <= y && c >= 0.0
    ensures x * c <= y * c
  {
  }

  lemma ScaleDown(x: real, y: real, c: real)
    requires x * c <= y * c && c > 0.0
    ensures x <= y
  {
  }

  ghost predicate AtMostTrials(groups: Groups, k: nat) {
    forall t | t in groups :: 0 < |groups[t]| <= k
  }

  lemma Complement(groups: Groups, f: seq<bool> -> real, g: seq<bool> -> real)
    requires forall v :: f(v) + g(v) == 1.0
    ensures Total(groups, f) + Total(groups, g) == |groups| as real
  {
    TotalPlus(groups, f, g);
    TotalMonotone(groups, Plus(f, g), One);
    TotalMonotone(groups, One, Plus(f, g));
    TotalOne(groups);
  }

  /**
    Consistency against the mean pass rate `p`, with at most `k` trials a task:
    `1 - k * (1 - p) <= pass^k <= p`.
   */
  lemma PassHatKBounds(groups: Groups, k: nat)
    requires groups != map[] && AtMostTrials(groups, k)
    ensures 1.0 - k as real * (1.0 - Mean(groups, Rate)) <= Mean(groups, AllPass) <= Mean(groups, Rate)
  {
    TotalBounds(groups, k);
    Averages(Total(groups, AllPass), Total(groups, Rate), Total(groups, Shortfall), k, |groups| as real);
  }

  lemma TotalBounds(groups: Groups, k: nat)
    requires AtMostTrials(groups, k)
    ensures Total(groups, AllPass) <= Total(groups, Rate)
    ensures |groups| as real - Total(groups, AllPass) <= Repeat(k, Total(groups, Shortfall))
    ensures Total(groups, Shortfall) == |groups| as real - Total(groups, Rate)
  {
    forall t | t in groups
      ensures AllPass(groups[t]) <= Rate(groups[t]) && Failing(groups[t]) <= Repeat(k, Shortfall(groups[t]))
    {
      TaskBounds(groups[t], k);
    }
    TotalMonotone(groups, AllPass, Rate);
    TotalMonotone(groups, Failing, Repeated(k, Shortfall));
    TotalRepeated(groups, k, Shortfall);
    Complement(groups, AllPass, Failing);
    Complement(groups, Rate, Shortfall);
  }

  lemma Averages(a: real, r: real, short: real, trials: nat, n: real)
    requires n > 0.0 && a <= r && n - a <= Repeat(trials, short) && short == n - r
    ensures 1.0 - trials as real * (1.0 - r / n) <= a / n <= r / n
  {
    var k, x, y := trials as real, a / n, r / n;
    var z := 1.0 - y;
    Quotients(a, n);
    Quotients(r, n);
    ScaleDown(x, y, n);
    assert Repeat(trials, short) == Repeat(trials, z * n);
    RepeatIsProduct(trials, z * n);
    Regroup(k, z, n);
    ScaleDown(1.0 - x, k * z, n);
  }

  lemma Quotients(a: real, n: real)
    requires n > 0.0
    ensures (a / n) * n == a
    ensures (1.0 - a / n) * n == n - a
  {
  }

  lemma Regroup(k: real, z: real, n: real)
    ensures k * (z * n) == (k * z) * n
  {
  }

  lemma PassHatKRange(groups: Groups)
    requires groups != map[]
    ensures 0.0 <= Mean(groups, AllPass) <= 1.0
    ensures Mean(groups, AllPass) == 1.0 <==> Total(groups, Failing) == 0.0
  {
    Complement(groups, AllPass, Failing);
    NonNegative(groups, AllPass);
    NonNegative(groups, Failing);
    Quotient(Total(groups, AllPass), |groups| as real);
  }

  lemma Quotient(a: real, n: real)
    requires 0.0 <= a <= n && 0.0 < n
    ensures 0.0 <= a / n <= 1.0
    ensures a / n == 1.0 <==> a == n
  {
    var q := a / n;
    assert q * n == a;
    ScaleDown(q, 1.0, n);
    ScaleDown(0.0, q, n);
  }

  lemma {:induction false} NonNegative(groups: Groups, f: seq<bool> -> real)
    requires forall v :: f(v) >= 0.0
    ensures Total(groups, f) >= 0.0
    ensures Total(groups, f) == 0.0 ==> forall t | t in groups :: f(groups[t]) == 0.0
    decreases |groups|
  {
    forall t | t in groups ensures Total(groups, f) >= f(groups[t]) {
      TotalSplit(groups, t, f);
      NonNegative(groups - {t}, f);
    }
    if groups != map[] {
      var t :| t in groups;
      assert Total(groups, f) >= f(groups[t]);
    }
  }

  lemma {:induction false} ZeroTotal(groups: Groups, f: seq<bool> -> real)
    requires forall t | t in groups :: f(groups[t]) == 0.0
    ensures Total(groups, f) == 0.0
    decreases |groups|
  {
    if groups != map[] {
      var t :| t in groups;
      TotalSplit(groups, t, f);
      ZeroTotal(groups - {t}, f);
    }
  }

  lemma {:induction false} OutcomeOccurs(rows: seq<Row>, task: string, b: bool)
    ensures b in Outcomes(rows, task) <==> exists row :: row in rows && row.task == task && row.passed == b
  {
    if rows != [] {
      OutcomeOccurs(rows[1..], task, b);
      assert rows == [rows[0]] + rows[1..];
    }
  }

  /** Full consistency means that every usable trial passed. */
  lemma AllTasksPass(groups: Groups, rows: seq<Row>)
    requires groups != map[] && GroupsOf(groups, rows)
    ensures Mean(groups, AllPass) == 1.0 <==> forall row | row in rows :: row.passed
  {
    PassHatKRange(groups);
    if forall row | row in rows :: row.passed {
      forall t | t in groups ensures Failing(groups[t]) == 0.0 {
        OutcomeOccurs(rows, t, false);
      }
      ZeroTotal(groups, Failing);
    } else {
      var row :| row in rows && !row.passed;
      OutcomeOccurs(rows, row.task, false);
      NonNegative(groups, Failing);
      assert Failing(groups[row.task]) == 1.0;
    }
  }
}
