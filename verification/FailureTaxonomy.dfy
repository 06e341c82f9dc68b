/**
  Failure accounting of the benchmarks: `_taxonomy` and `arm_taxonomy`, with the rows `run_cell` records.
*/
module FailureTaxonomy {
  import opened Wrappers
  import opened PyText
  import opened Sequences

  datatype Status = Measured | Infra | BudgetStopped | Skipped | DryRun

  datatype Row = Row(
    task: string, arm: string, trial: int, passed: bool, infraError: Option<string>, cost: Option<real>,
    diffLines: int, testsTouched: bool, status: Status)

  datatype Bucket =
    | InfraFailure | FalseGreenTestEdit | NoChange | WrongChange
    | BudgetStoppedCell | SkippedCell | DryRunCell

  type Counts = map<Bucket, nat>

  /** The bucket of a row in the external report; a pass has none. */
  function Cause(row: Row): Option<Bucket> {
    if row.infraError.Some? then Some(InfraFailure)
    else if row.passed then None
    else if row.testsTouched then Some(FalseGreenTestEdit)
    else if row.diffLines == 0 then Some(NoChange)
    else Some(WrongChange)
  }

  /** The bucket of a row in the ablation report. */
  function ArmCause(row: Row): Option<Bucket> {
    match row.status
    case BudgetStopped => Some(BudgetStoppedCell)
    case Skipped => Some(SkippedCell)
    case DryRun => Some(DryRunCell)
    case _ => Cause(row)
  }

  function Tally(rows: seq<Row>, cause: Row -> Option<Bucket>, b: Bucket): nat {
    if rows == [] then 0 else (if cause(rows[0]) == Some(b) then 1 else 0) + Tally(rows[1..], cause, b)
  }

  function Get(counts: Counts, b: Bucket): nat {
    if b in counts then counts[b] else 0
  }

  /** Exactly the causes that occur have a bucket, and it holds how often they do. */
  ghost predicate IsTally(counts: Counts, rows: seq<Row>, cause: Row -> Option<Bucket>) {
    forall b :: Get(counts, b) == Tally(rows, cause, b) && (b in counts <==> Tally(rows, cause, b) > 0)
  }

  lemma {:induction false} TallyConcat(xs: seq<Row>, ys: seq<Row>, cause: Row -> Option<Bucket>, b: Bucket)
    ensures Tally(xs + ys, cause, b) == Tally(xs, cause, b) + Tally(ys, cause, b)
  {
    if xs == [] {
      assert xs + ys == ys;
    } else {
      assert (xs + ys)[1..] == xs[1..] + ys;
      TallyConcat(xs[1..], ys, cause, b);
    }
  }

  lemma TallyStep(rows: seq<Row>, i: nat, cause: Row -> Option<Bucket>)
    requires i < |rows|
    ensures forall b :: Tally(rows[..i + 1], cause, b)
                        == Tally(rows[..i], cause, b) + if cause(rows[i]) == Some(b) then 1 else 0
  {
    assert rows[..i + 1] == rows[..i] + [rows[i]];
    forall b
      ensures Tally(rows[..i + 1], cause, b)
              == Tally(rows[..i], cause, b) + if cause(rows[i]) == Some(b) then 1 else 0
    {
      TallyConcat(rows[..i], [rows[i]], cause, b);
      assert [rows[i]][1..] == [];
    }
  }

  method Taxonomy(rows: seq<Row>) returns (counts: Counts)
    ensures IsTally(counts, rows, Cause)
  {
    counts := map[];
    for i := 0 to |rows|
      invariant IsTally(counts, rows[..i], Cause)
    {
      var row := rows[i];
      TallyStep(rows, i, Cause);
      var key;
      if row.infraError.Some? {
        key := InfraFailure;
      } else if row.passed {
        continue;
      } else if row.testsTouched {
        key := FalseGreenTestEdit;
      } else if row.diffLines == 0 {
        key := NoChange;
      } else {
        key := WrongChange;
      }
      counts := counts[key := Get(counts, key) + 1];
    }
    assert rows[..|rows|] == rows;
  }

  function StatusCause(row: Row): Option<Bucket> {
    match row.status
    case BudgetStopped => Some(BudgetStoppedCell)
    case Skipped => Some(SkippedCell)
    case DryRun => Some(DryRunCell)
    case _ => None
  }

  /** The rows `arm_taxonomy` hands on to `_taxonomy`. */
  function Scored(rows: seq<Row>): seq<Row> {
    if rows == [] then []
    else (if StatusCause(rows[0]).None? then [rows[0]] else []) + Scored(rows[1..])
  }

  lemma {:induction false} ScoredAppend(rows: seq<Row>, row: Row)
    ensures Scored(rows + [row]) == Scored(rows) + if StatusCause(row).None? then [row] else []
  {
    if rows == [] {
      assert rows + [row] == [row] && [row][1..] == [];
    } else {
      assert (rows + [row])[1..] == rows[1..] + [row];
      ScoredAppend(rows[1..], row);
    }
  }

  lemma {:induction false} CausesSplit(rows: seq<Row>, b: Bucket)
    ensures Tally(rows, ArmCause, b) == Tally(rows, StatusCause, b) + Tally(Scored(rows), Cause, b)
  {
    if rows != [] {
      CausesSplit(rows[1..], b);
      var head := if StatusCause(rows[0]).None? then [rows[0]] else [];
      TallyConcat(head, Scored(rows[1..]), Cause, b);
      assert [rows[0]][1..] == [];
    }
  }

  method ArmTaxonomy(rows: seq<Row>) returns (counts: Counts)
    ensures IsTally(counts, rows, ArmCause)
  {
    counts := map[];
    var scored: seq<Row> := [];
    for i := 0 to |rows|
      invariant IsTally(counts, rows[..i], StatusCause)
      invariant scored == Scored(rows[..i])
    {
      var row := rows[i];
      TallyStep(rows, i, StatusCause);
      assert rows[..i + 1] == rows[..i] + [row];
      ScoredAppend(rows[..i], row);
      if row.status == BudgetStopped {
        counts := counts[BudgetStoppedCell := Get(counts, BudgetStoppedCell) + 1];
      } else if row.status == Skipped {
        counts := counts[SkippedCell := Get(counts, SkippedCell) + 1];
      } else if row.status == DryRun {
        counts := counts[DryRunCell := Get(counts, DryRunCell) + 1];
      } else {
        scored := scored + [row];
      }
    }
    assert rows[..|rows|] == rows;
    var causes := Taxonomy(scored);
    counts := AddCounts(counts, causes);
    forall b ensures Tally(rows, ArmCause, b) == Tally(rows, StatusCause, b) + Tally(scored, Cause, b) {
      CausesSplit(rows, b);
    }
  }

  /** The last loop of `arm_taxonomy`. */
  method AddCounts(counts: Counts, causes: Counts) returns (sum: Counts)
    ensures forall b :: Get(sum, b) == Get(counts, b) + Get(causes, b)
    ensures sum.Keys == counts.Keys + causes.Keys
  {
    sum := counts;
    var rest := causes.Keys;
    while rest != {}
      invariant rest <= causes.Keys
      invariant forall b :: Get(sum, b) == Get(counts, b) + if b in rest then 0 else Get(causes, b)
      invariant sum.Keys == counts.Keys + (causes.Keys - rest)
    {
      var key :| key in rest;
      sum := sum[key := Get(sum, key) + causes[key]];
      rest := rest - {key};
    }
  }

  // ----- Main results: every cell is a pass or is in one bucket -----

  function Sum(counts: Counts): nat {
    Get(counts, InfraFailure) + Get(counts, FalseGreenTestEdit) + Get(counts, NoChange) + Get(counts, WrongChange)
    + Get(counts, BudgetStoppedCell) + Get(counts, SkippedCell) + Get(counts, DryRunCell)
  }

  function Count(rows: seq<Row>, p: Row -> bool): nat {
    if rows == [] then 0 else (if p(rows[0]) then 1 else 0) + Count(rows[1..], p)
  }

  function AllTallies(rows: seq<Row>, cause: Row -> Option<Bucket>): nat {
    if rows == [] then 0 else (if cause(rows[0]).Some? then 1 else 0) + AllTallies(rows[1..], cause)
  }

  lemma {:induction false} TalliesAddUp(rows: seq<Row>, cause: Row -> Option<Bucket>)
    ensures AllTallies(rows, cause)
      == Tally(rows, cause, InfraFailure) + Tally(rows, cause, FalseGreenTestEdit) + Tally(rows, cause, NoChange)
         + Tally(rows, cause, WrongChange) + Tally(rows, cause, BudgetStoppedCell) + Tally(rows, cause, SkippedCell)
         + Tally(rows, cause, DryRunCell)
  {
    if rows != [] {
      TalliesAddUp(rows[1..], cause);
      match cause(rows[0]) {
        case None =>
        case Some(b) =>
          assert b.InfraFailure? || b.FalseGreenTestEdit? || b.NoChange? || b.WrongChange?
                 || b.BudgetStoppedCell? || b.SkippedCell? || b.DryRunCell?;
      }
    }
  }

  /** `passed` of the external summary: usable rows that passed. */
  predicate UsablePass(row: Row) {
    row.infraError.None? && row.passed
  }

  /** External report: the cells are the passes and the buckets, whatever the rows are. */
  lemma {:induction false} ExternalAccounting(rows: seq<Row>, counts: Counts)
    requires IsTally(counts, rows, Cause)
    ensures |rows| == Count(rows, UsablePass) + Sum(counts)
  {
    TalliesAddUp(rows, Cause);
    PassOrCause(rows);
  }

  lemma {:induction false} PassOrCause(rows: seq<Row>)
    ensures |rows| == Count(rows, UsablePass) + AllTallies(rows, Cause)
  {
    if rows != [] {
      PassOrCause(rows[1..]);
    }
  }

  // ----- The buckets, in the fields of the rows -----

  /** Which rows of the external report are in which bucket. */
  lemma CausesMean(row: Row)
    ensures Cause(row) == None <==> row.infraError == None && row.passed
    ensures Cause(row) == Some(InfraFailure) <==> row.infraError != None
    ensures Cause(row) == Some(FalseGreenTestEdit) <==> row.infraError == None && !row.passed && row.testsTouched
    ensures Cause(row) == Some(NoChange)
            <==> row.infraError == None && !row.passed && !row.testsTouched && row.diffLines == 0
    ensures Cause(row) == Some(WrongChange)
            <==> row.infraError == None && !row.passed && !row.testsTouched && row.diffLines != 0
    ensures match row.status
            case BudgetStopped => ArmCause(row) == Some(BudgetStoppedCell)
            case Skipped => ArmCause(row) == Some(SkippedCell)
            case DryRun => ArmCause(row) == Some(DryRunCell)
            case Measured => ArmCause(row) == Cause(row)
            case Infra => ArmCause(row) == Cause(row)
  {
  }

  /** A bucket holds the number of rows in it. */
  lemma {:induction false} TallyCounts(rows: seq<Row>, cause: Row -> Option<Bucket>, b: Bucket)
    ensures Tally(rows, cause, b) == |set i | 0 <= i < |rows| && cause(rows[i]) == Some(b)|
  {
    var inBucket := (row: Row) => cause(row) == Some(b);
    assert (set i | 0 <= i < |rows| && cause(rows[i]) == Some(b)) == Indices(rows, inBucket);
    if rows != [] {
      var init, last := rows[..|rows| - 1], rows[|rows| - 1];
      TallyCounts(init, cause, b);
      assert (set i | 0 <= i < |init| && cause(init[i]) == Some(b)) == Indices(init, inBucket);
      assert rows == init + [last];
      OneMoreIndex(init, last, inBucket);
      TallyConcat(init, [last], cause, b);
      assert [last][1..] == [];
    }
  }

  /** `passed` of the ablation summary: measured rows that passed. */
  predicate MeasuredPass(row: Row) {
    row.status.Measured? && row.passed
  }

  /** A measured pass that also reports an infrastructure error is counted twice. */
  predicate CountedTwice(row: Row) {
    row.status.Measured? && row.passed && row.infraError.Some?
  }

  /** A passing row marked `infra` without an error is not counted at all. */
  predicate NotCounted(row: Row) {
    row.status.Infra? && row.passed && row.infraError.None?
  }

  /** Ablation report: the cells are the passes and the buckets, up to rows with a broken status. */
  lemma {:induction false} ArmAccounting(rows: seq<Row>, counts: Counts)
    requires IsTally(counts, rows, ArmCause)
    ensures |rows| + Count(rows, CountedTwice) == Count(rows, MeasuredPass) + Sum(counts) + Count(rows, NotCounted)
  {
    TalliesAddUp(rows, ArmCause);
    ArmPassOrCause(rows);
  }

  lemma {:induction false} ArmPassOrCause(rows: seq<Row>)
    ensures |rows| + Count(rows, CountedTwice)
            == Count(rows, MeasuredPass) + AllTallies(rows, ArmCause) + Count(rows, NotCounted)
  {
    if rows != [] {
      ArmPassOrCause(rows[1..]);
    }
  }

  // ----- The rows that `run_cell` records -----

  /** What the arm runners report: an infrastructure error, if any, and the cost. */
  datatype Outcome = Outcome(infraError: Option<string>, cost: Option<real>)

  /** One run of an arm's command: its exit code and output, and the cost that was read from it. */
  datatype ArmRun =
    | BareRun(code: int, out: string, cost: Option<real>)
    | OnmcRun(prepared: bool, code: int, out: string, cost: Option<real>)

  const INFRA_MARKERS := [
    "capability was denied", "verifier=deny", "verifier-unavailable", "agent-unavailable", "agent-credentials"]

  /** The first marker that occurs in the output. */
  function FirstMarker(markers: seq<string>, out: string): Option<string> {
    if markers == [] then None
    else if Contains(out, markers[0]) then Some(markers[0])
    else FirstMarker(markers[1..], out)
  }

  /** `run_bare_arm` and `run_onmc_arm`, which test for a timeout and a missing command in opposite orders. */
  function OutcomeOf(run: ArmRun): Outcome {
    match run
    case BareRun(code, out, cost) =>
      if code == 127 then Outcome(Some("agent CLI unavailable: " + Take(out, 200)), cost)
      else if Contains(out, "[timeout]") then Outcome(Some("agent timeout"), cost)
      else Outcome(None, cost)
    case OnmcRun(prepared, code, out, cost) =>
      if !prepared then Outcome(Some("onmc entry point not prepared"), None)
      else if Contains(out, "[timeout]") then Outcome(Some("onmc run timeout"), cost)
      else if code == 127 then Outcome(Some("onmc unavailable: " + Take(out, 200)), cost)
      else match FirstMarker(INFRA_MARKERS, out)
        case Some(marker) => Outcome(Some("onmc did not execute (" + marker + ")"), cost)
        case None => Outcome(None, cost)
  }

  predicate Truthy(error: Option<string>) {
    error.Some? && error.value != ""
  }

  /** An arm never reports an error without a text. */
  lemma ArmErrorsHaveText(run: ArmRun)
    ensures OutcomeOf(run).infraError.Some? ==> Truthy(OutcomeOf(run).infraError)
  {
  }

  ghost predicate Says(out: string, part: string) {
    exists i :: 0 <= i <= |out| && part <= out[i..]
  }

  /** When an arm's run counts as an infrastructure failure, and that its cost is kept unless it never started. */
  lemma OutcomeMeans(run: ArmRun)
    ensures match run
            case BareRun(code, out, cost) =>
              && (OutcomeOf(run).infraError == None <==> code != 127 && !Says(out, "[timeout]"))
              && OutcomeOf(run).cost == cost
            case OnmcRun(prepared, code, out, cost) =>
              && (OutcomeOf(run).infraError == None <==>
                  prepared && code != 127 && !Says(out, "[timeout]") && !Says(out, "capability was denied")
                  && !Says(out, "verifier=deny") && !Says(out, "verifier-unavailable")
                  && !Says(out, "agent-unavailable") && !Says(out, "agent-credentials"))
              && OutcomeOf(run).cost == if prepared then cost else None
  {
    ContainsMeans(run.out, "[timeout]");
    MarkersMean(run.out);
  }

  lemma MarkersMean(out: string)
    ensures FirstMarker(INFRA_MARKERS, out) == None
            <==> !Says(out, "capability was denied") && !Says(out, "verifier=deny")
                 && !Says(out, "verifier-unavailable") && !Says(out, "agent-unavailable")
                 && !Says(out, "agent-credentials")
  {
    FirstMarkerMeans(INFRA_MARKERS, out);
    assert INFRA_MARKERS[0] == "capability was denied" && INFRA_MARKERS[1] == "verifier=deny";
    assert INFRA_MARKERS[2] == "verifier-unavailable" && INFRA_MARKERS[3] == "agent-unavailable";
    assert INFRA_MARKERS[4] == "agent-credentials" && |INFRA_MARKERS| == 5;
  }

  lemma {:induction false} FirstMarkerMeans(markers: seq<string>, out: string)
    ensures FirstMarker(markers, out) == None <==> forall k | 0 <= k < |markers| :: !Says(out, markers[k])
  {
    if markers != [] {
      ContainsMeans(out, markers[0]);
    }
    if markers != [] && !Contains(out, markers[0]) {
      FirstMarkerMeans(markers[1..], out);
      assert forall k | 0 < k < |markers| :: markers[k] == markers[1..][k - 1];
    }
  }

  /** A row without a run behind it. */
  function AdministrativeRow(task: string, arm: string, trial: int, status: Status): Row {
    Row(task, arm, trial, false, None, None, 0, false, status)
  }

  /** What preparing and running a cell gave: an error, or the arm's run, the verifier's word and the diff. */
  datatype Attempt =
    | Unprepared(error: Option<string>)
    | Prepared(run: ArmRun, verified: bool, diffLines: int, testsTouched: bool)

  function RunCell(task: string, arm: string, trial: int, active: bool, dryRun: bool, attempt: Attempt): Row {
    if !active then AdministrativeRow(task, arm, trial, Skipped)
    else match attempt
      case Unprepared(error) =>
        var text := if Truthy(error) then error.value else "cell unusable";
        Row(task, arm, trial, false, Some(text), None, 0, false, Infra)
      case Prepared(run, verified, diffLines, testsTouched) =>
        if dryRun then AdministrativeRow(task, arm, trial, DryRun)
        else
          var outcome := OutcomeOf(run);
          Row(task, arm, trial, verified && !testsTouched, outcome.infraError, outcome.cost, diffLines, testsTouched,
              if Truthy(outcome.infraError) then Infra else Measured)
  }

  /** The row is accounted for exactly once. */
  predicate Sound(row: Row) {
    !CountedTwice(row) && !NotCounted(row)
  }

  /**
    Every row of `run_cell` is accounted for exactly once: it is marked infra exactly when it has an error,
    and a pass was verified on an active arm without edited tests.
   */
  lemma RunCellSound(task: string, arm: string, trial: int, active: bool, dryRun: bool, attempt: Attempt)
    ensures var row := RunCell(task, arm, trial, active, dryRun, attempt);
      && Sound(row)
      && (row.status.Infra? <==> row.infraError.Some?)
      && (row.passed ==> active && !dryRun && attempt.Prepared? && attempt.verified && !attempt.testsTouched)
      && (row.status.DryRun? ==> dryRun) && !row.status.BudgetStopped?
      && row.task == task && row.arm == arm && row.trial == trial
    ensures var row := RunCell(task, arm, trial, active, dryRun, attempt);
      if !active then row.status == Skipped
      else match attempt
        case Unprepared(error) =>
          && row.status == Infra && !row.passed && row.cost == None
          && row.infraError == Some(if error == None || error == Some("") then "cell unusable" else error.value)
        case Prepared(run, verified, diffLines, testsTouched) =>
          if dryRun then row.status == DryRun && row.cost == None
          else
            && (row.passed <==> verified && !testsTouched)
            && row.diffLines == diffLines && row.testsTouched == testsTouched
            && row.infraError == OutcomeOf(run).infraError && row.cost == OutcomeOf(run).cost
  {
    if attempt.Prepared? {
      ArmErrorsHaveText(attempt.run);
    }
  }

  /** Rows that are each accounted for once balance the report. */
  lemma {:induction false} SoundRowsBalance(rows: seq<Row>, counts: Counts)
    requires IsTally(counts, rows, ArmCause) && forall row | row in rows :: Sound(row)
    ensures |rows| == Count(rows, MeasuredPass) + Sum(counts)
  {
    ArmAccounting(rows, counts);
    NoneCounted(rows, CountedTwice);
    NoneCounted(rows, NotCounted);
  }

  lemma {:induction false} NoneCounted(rows: seq<Row>, p: Row -> bool)
    requires forall row | row in rows :: !p(row)
    ensures Count(rows, p) == 0
  {
    if rows != [] {
      assert rows[0] in rows;
      NoneCounted(rows[1..], p);
    }
  }
}
