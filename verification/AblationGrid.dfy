/**
  The ablation grid: `plan_cells`, `execute_grid` under its spend ceiling, and the skipped rows of `main`.
*/
module AblationGrid {
  import opened Wrappers
  import opened Sequences
  import opened FailureTaxonomy

  datatype Arm = Arm(name: string, active: bool)

  datatype Cell = Cell(task: string, arm: string, trial: int)

  // ----- The planned grid -----

  function TrialCells(task: string, arm: string, trials: int): seq<Cell> {
    if trials <= 0 then [] else TrialCells(task, arm, trials - 1) + [Cell(task, arm, trials)]
  }

  function TaskCells(task: string, arms: seq<Arm>, trials: int): seq<Cell> {
    if arms == [] then []
    else (if arms[0].active then TrialCells(task, arms[0].name, trials) else []) + TaskCells(task, arms[1..], trials)
  }

  /** The comprehension of `plan_cells`, before the shuffle: tasks, active arms, trials from 1. */
  function GridCells(tasks: seq<string>, arms: seq<Arm>, trials: int): seq<Cell> {
    if tasks == [] then [] else TaskCells(tasks[0], arms, trials) + GridCells(tasks[1..], arms, trials)
  }

  // ----- Running it -----

  /** The k-th call of the cell runner returns `runner(k, cell)`, so its answers may change over time. */
  type Runner = (nat, Cell) -> Row

  function CellOf(row: Row): Cell {
    Cell(row.task, row.arm, row.trial)
  }

  /** A runner records the cell it was given, and only `execute_grid` marks a row budget-stopped. */
  ghost predicate FaithfulRunner(runner: Runner) {
    forall k: nat, cell :: CellOf(runner(k, cell)) == cell && runner(k, cell).status != BudgetStopped
  }

  function BudgetStoppedRow(cell: Cell): Row {
    AdministrativeRow(cell.task, cell.arm, cell.trial, BudgetStopped)
  }

  function SkippedRow(task: string, arm: Arm, trial: int): Row {
    AdministrativeRow(task, arm.name, trial, Skipped)
  }

  function CostOf(row: Row): real {
    if row.cost.Some? then row.cost.value else 0.0
  }

  function Spent(rows: seq<Row>): real {
    if rows == [] then 0.0 else Spent(rows[..|rows| - 1]) + CostOf(rows[|rows| - 1])
  }

  function Reported(rows: seq<Row>): nat {
    if rows == [] then 0 else Reported(rows[..|rows| - 1]) + if rows[|rows| - 1].cost.Some? then 1 else 0
  }

  datatype GridOutcome = GridOutcome(
    records: seq<Row>, reportedCost: Option<real>, reportedCells: nat, stoppedCells: nat)

  /** The i-th cell ran, and the spend before it was below the ceiling. */
  predicate RanAt(i: nat, cells: seq<Cell>, records: seq<Row>, ceiling: real, runner: Runner)
    requires i < |cells| && i < |records|
  {
    records[i] == runner(i, cells[i]) && Spent(records[..i]) < ceiling
  }

  /** The first `n` cells ran, each below the ceiling; the rest were stopped at or above it. */
  ghost predicate StoppedAfter(n: nat, cells: seq<Cell>, records: seq<Row>, ceiling: real, runner: Runner) {
    && n <= |cells| == |records|
    && (forall i | 0 <= i < n :: RanAt(i, cells, records, ceiling, runner))
    && (forall i | n <= i < |cells| :: records[i] == BudgetStoppedRow(cells[i]))
    && (n < |cells| ==> Spent(records[..n]) >= ceiling)
  }

  /** `spent` and `reported` are what the `n` executed rows add up to. */
  ghost predicate Progress(
    n: nat, cells: seq<Cell>, records: seq<Row>, spent: real, reported: nat, ceiling: real, runner: Runner)
  {
    && StoppedAfter(n, cells, records, ceiling, runner)
    && spent == Spent(records[..n])
    && reported == Reported(records[..n])
  }

  method ExecuteGrid(cells: seq<Cell>, ceiling: real, runner: Runner) returns (g: GridOutcome)
    ensures g.stoppedCells <= |cells| == |g.records|
    ensures StoppedAfter(|cells| - g.stoppedCells, cells, g.records, ceiling, runner)
    ensures var ran := g.records[..|cells| - g.stoppedCells];
      && g.reportedCells == Reported(ran)
      && g.reportedCost == if g.reportedCells > 0 then Some(Spent(ran)) else None
  {
    var records: seq<Row> := [];
    var spent, reported, stopped := 0.0, 0, 0;
    ghost var n, done := 0, cells[..0];
    for i := 0 to |cells|
      invariant n + stopped == i && done == cells[..i]
      invariant Progress(n, done, records, spent, reported, ceiling, runner)
    {
      var cell := cells[i];
      ghost var before := done;
      done := done + [cell];
      if spent >= ceiling {
        StopStep(n, before, records, cell, spent, reported, ceiling, runner);
        stopped := stopped + 1;
        records := records + [BudgetStoppedRow(cell)];
        continue;
      }
      RunStep(n, before, records, cell, spent, reported, ceiling, runner);
      n := n + 1;
      var record := runner(i, cell);
      records := records + [record];
      if record.cost.Some? {
        spent := spent + record.cost.value;
        reported := reported + 1;
      }
    }
    assert cells[..|cells|] == cells;
    assert n == |cells| - stopped;
    g := GridOutcome(records, if reported > 0 then Some(spent) else None, reported, stopped);
  }

  lemma StopStep(
      n: nat, cells: seq<Cell>, records: seq<Row>, cell: Cell, spent: real, reported: nat,
      ceiling: real, runner: Runner)
    requires Progress(n, cells, records, spent, reported, ceiling, runner) && spent >= ceiling
    ensures Progress(n, cells + [cell], records + [BudgetStoppedRow(cell)], spent, reported, ceiling, runner)
  {
    var cells', records' := cells + [cell], records + [BudgetStoppedRow(cell)];
    assert records'[..n] == records[..n];
    forall i | 0 <= i < n ensures RanAt(i, cells', records', ceiling, runner) {
      assert RanAt(i, cells, records, ceiling, runner) && records'[..i] == records[..i];
    }
  }

  lemma RunStep(
      n: nat, cells: seq<Cell>, records: seq<Row>, cell: Cell, spent: real, reported: nat,
      ceiling: real, runner: Runner)
    requires Progress(n, cells, records, spent, reported, ceiling, runner) && spent < ceiling
    ensures n == |cells|
    ensures var row := runner(n, cell);
      Progress(n + 1, cells + [cell], records + [row],
               if row.cost.Some? then spent + row.cost.value else spent,
               if row.cost.Some? then reported + 1 else reported, ceiling, runner)
  {
    var cells', records' := cells + [cell], records + [runner(n, cell)];
    assert records'[..n] == records == records[..n] && records'[..n + 1] == records';
    forall i | 0 <= i < n + 1 ensures RanAt(i, cells', records', ceiling, runner) {
      assert i < n ==> RanAt(i, cells, records, ceiling, runner) && records'[..i] == records[..i];
    }
  }

  lemma RanRows(n: nat, cells: seq<Cell>, records: seq<Row>, ceiling: real, runner: Runner)
    requires StoppedAfter(n, cells, records, ceiling, runner)
    ensures forall i | 0 <= i < n :: records[i] == runner(i, cells[i])
  {
    forall i | 0 <= i < n ensures records[i] == runner(i, cells[i]) {
      assert RanAt(i, cells, records, ceiling, runner);
    }
  }

  lemma RanBelow(i: nat, n: nat, cells: seq<Cell>, records: seq<Row>, ceiling: real, runner: Runner)
    requires StoppedAfter(n, cells, records, ceiling, runner)
    ensures i < n ==> Spent(records[..i]) < ceiling
  {
    assert i < n ==> RanAt(i, cells, records, ceiling, runner);
  }

  /** No cost was reported exactly when no executed cell reported one. */
  lemma {:induction false} NothingReported(rows: seq<Row>)
    ensures Reported(rows) == 0 <==> forall row | row in rows :: row.cost.None?
  {
    if rows != [] {
      var init, last := rows[..|rows| - 1], rows[|rows| - 1];
      NothingReported(init);
      assert rows == init + [last];
      assert last in rows && forall row :: row in rows <==> row in init || row == last;
    }
  }

  /** What a run has spent is the sum of the costs its rows report, and an absent cost adds nothing. */
  lemma {:induction false} SpentIsTheSum(xs: seq<Row>, ys: seq<Row>)
    ensures Spent(xs + ys) == Spent(xs) + Spent(ys) && Spent([]) == 0.0
    ensures forall row :: Spent([row]) == match row.cost case Some(c) => c case None => 0.0
    ensures Reported(xs) == |set i | 0 <= i < |xs| && xs[i].cost != None|
    decreases |ys|
  {
    ReportedCounts(xs);
    forall row ensures Spent([row]) == match row.cost case Some(c) => c case None => 0.0 {
      assert [row][..0] == [];
    }
    if ys == [] {
      assert xs + ys == xs;
    } else {
      assert (xs + ys)[..|xs + ys| - 1] == xs + ys[..|ys| - 1];
      SpentIsTheSum(xs, ys[..|ys| - 1]);
    }
  }

  lemma {:induction false} ReportedCounts(rows: seq<Row>)
    ensures Reported(rows) == |set i | 0 <= i < |rows| && rows[i].cost != None|
  {
    var reports := (row: Row) => row.cost != None;
    assert (set i | 0 <= i < |rows| && rows[i].cost != None) == Indices(rows, reports);
    if rows != [] {
      var init, last := rows[..|rows| - 1], rows[|rows| - 1];
      ReportedCounts(init);
      assert (set i | 0 <= i < |init| && init[i].cost != None) == Indices(init, reports);
      assert rows == init + [last];
      OneMoreIndex(init, last, reports);
    }
  }

  /** The rows of cells that never ran have no cost and no pass, and keep their cell. */
  lemma RowsOfCellsNotRun(cell: Cell, arm: Arm)
    ensures var stopped, skipped := BudgetStoppedRow(cell), SkippedRow(cell.task, arm, cell.trial);
      && stopped.status == BudgetStopped && skipped.status == Skipped
      && !stopped.passed && !skipped.passed && stopped.cost == None && skipped.cost == None
      && stopped.infraError == None && skipped.infraError == None
      && CellOf(stopped) == cell && CellOf(skipped) == Cell(cell.task, arm.name, cell.trial)
  {
  }

  /** The split into executed and stopped cells is the only one: spending is what decides. */
  lemma StopIsDetermined(
      m: nat, n: nat, cells: seq<Cell>, rows: seq<Row>, others: seq<Row>, ceiling: real, runner: Runner)
    requires StoppedAfter(m, cells, rows, ceiling, runner) && StoppedAfter(n, cells, others, ceiling, runner)
    ensures m == n && rows == others
  {
    var least := if m < n then m else n;
    RanRows(m, cells, rows, ceiling, runner);
    RanRows(n, cells, others, ceiling, runner);
    assert rows[..least] == others[..least];
    RanBelow(m, n, cells, others, ceiling, runner);
    RanBelow(n, m, cells, rows, ceiling, runner);
  }

  // ----- The skipped arms -----

  function SkippedTaskCells(arm: Arm, tasks: seq<string>, trials: int): seq<Cell> {
    if tasks == [] then [] else TrialCells(tasks[0], arm.name, trials) + SkippedTaskCells(arm, tasks[1..], trials)
  }

  function SkippedCells(arms: seq<Arm>, tasks: seq<string>, trials: int): seq<Cell> {
    if arms == [] then []
    else
      (if arms[0].active then [] else SkippedTaskCells(arms[0], tasks, trials)) + SkippedCells(arms[1..], tasks, trials)
  }

  function CellsOf(rows: seq<Row>): seq<Cell> {
    seq(|rows|, i requires 0 <= i < |rows| => CellOf(rows[i]))
  }

  /** The rows of `main`: the executed grid, then a placeholder for each cell of each inactive arm. */
  method RecordAll(tasks: seq<string>, arms: seq<Arm>, trials: int, planned: seq<Cell>, ceiling: real, runner: Runner)
    returns (records: seq<Row>, g: GridOutcome)
    requires FaithfulRunner(runner)
    requires multiset(planned) == multiset(GridCells(tasks, arms, trials))
    ensures g.stoppedCells <= |planned| == |g.records|
    ensures StoppedAfter(|planned| - g.stoppedCells, planned, g.records, ceiling, runner)
    ensures g.records <= records && forall i | |planned| <= i < |records| :: records[i].status == Skipped
    ensures Distinct(tasks) && DistinctArms(arms) ==> EachOnce(CellsOf(records), tasks, arms, trials)
    ensures (forall k: nat, cell :: Sound(runner(k, cell))) ==> forall row | row in records :: Sound(row)
  {
    g := ExecuteGrid(planned, ceiling, runner);
    RanRows(|planned| - g.stoppedCells, planned, g.records, ceiling, runner);
    assert CellsOf(g.records) == planned;
    var skipped := SkippedArmRows(arms, tasks, trials);
    records := g.records + skipped;
    CellsOfConcat(g.records, skipped);
    AllSound(|planned| - g.stoppedCells, planned, g.records, skipped, ceiling, runner);
    if Distinct(tasks) && DistinctArms(arms) {
      PlannedGridIsComplete(tasks, arms, trials, planned);
    }
  }

  lemma AllSound(n: nat, cells: seq<Cell>, rows: seq<Row>, skipped: seq<Row>, ceiling: real, runner: Runner)
    requires StoppedAfter(n, cells, rows, ceiling, runner) && forall row | row in skipped :: row.status == Skipped
    ensures (forall k: nat, cell :: Sound(runner(k, cell))) ==> forall row | row in rows + skipped :: Sound(row)
  {
    if forall k: nat, cell :: Sound(runner(k, cell)) {
      RanRows(n, cells, rows, ceiling, runner);
      forall row | row in rows ensures Sound(row) {
        var i :| 0 <= i < |rows| && rows[i] == row;
        assert i < n ==> row == runner(i, cells[i]);
      }
    }
  }

  // ----- A real run, with the rows of `run_cell` -----

  predicate IsActive(arms: seq<Arm>, name: string) {
    exists arm :: arm in arms && arm.name == name && arm.active
  }

  /** The cell runner of a real run; `attempts` says how each cell's preparation and agent turn out. */
  function RealRunner(arms: seq<Arm>, attempts: (nat, Cell) -> Attempt): Runner {
    (k: nat, cell: Cell) => RunCell(cell.task, cell.arm, cell.trial, IsActive(arms, cell.arm), false, attempts(k, cell))
  }

  lemma RealRunnerIsFaithful(arms: seq<Arm>, attempts: (nat, Cell) -> Attempt)
    ensures FaithfulRunner(RealRunner(arms, attempts))
    ensures forall k: nat, cell :: Sound(RealRunner(arms, attempts)(k, cell))
    ensures forall k: nat, cell :: !RealRunner(arms, attempts)(k, cell).status.DryRun?
  {
    forall k: nat, cell
      ensures var row := RealRunner(arms, attempts)(k, cell);
        CellOf(row) == cell && row.status != BudgetStopped && Sound(row) && !row.status.DryRun?
    {
      RunCellSound(cell.task, cell.arm, cell.trial, IsActive(arms, cell.arm), false, attempts(k, cell));
    }
  }

  /** The row is that of a real attempt at the cell, of an active arm. */
  ghost predicate RanCell(row: Row, cell: Cell, attempt: Attempt) {
    row == RunCell(cell.task, cell.arm, cell.trial, true, false, attempt)
  }

  lemma {:induction false} TaskCellsAreActive(task: string, arms: seq<Arm>, trials: int)
    ensures forall c | c in TaskCells(task, arms, trials) :: IsActive(arms, c.arm)
  {
    if arms != [] {
      TaskCellsAreActive(task, arms[1..], trials);
      TrialCellsOnce(task, arms[0].name, trials);
      forall c | c in TaskCells(task, arms, trials) ensures IsActive(arms, c.arm) {
        if c in TaskCells(task, arms[1..], trials) {
          var arm :| arm in arms[1..] && arm.name == c.arm && arm.active;
          assert arm in arms;
        } else {
          assert arms[0] in arms;
        }
      }
    }
  }

  lemma {:induction false} GridCellsAreActive(tasks: seq<string>, arms: seq<Arm>, trials: int)
    ensures forall c | c in GridCells(tasks, arms, trials) :: IsActive(arms, c.arm)
  {
    if tasks != [] {
      TaskCellsAreActive(tasks[0], arms, trials);
      GridCellsAreActive(tasks[1..], arms, trials);
    }
  }

  /** Only cells of active arms are planned, so each that runs is attempted. */
  lemma PlannedCellsRun(
      tasks: seq<string>, arms: seq<Arm>, trials: int, planned: seq<Cell>, attempts: (nat, Cell) -> Attempt)
    requires multiset(planned) == multiset(GridCells(tasks, arms, trials))
    ensures forall i: nat | i < |planned| ::
              RanCell(RealRunner(arms, attempts)(i, planned[i]), planned[i], attempts(i, planned[i]))
  {
    GridCellsAreActive(tasks, arms, trials);
    SameMultiset(planned, GridCells(tasks, arms, trials));
    forall i: nat | i < |planned|
      ensures RanCell(RealRunner(arms, attempts)(i, planned[i]), planned[i], attempts(i, planned[i]))
    {
      assert planned[i] in planned;
    }
  }

  function RowsOfArm(rows: seq<Row>, name: string): seq<Row> {
    Filter(rows, (row: Row) => row.arm == name)
  }

  /**
    Whatever the agents and the verifier do, the report of each arm of a real run balances: its cells are
    its passes and the buckets of its taxonomy.
   */
  method RealRun(tasks: seq<string>, arms: seq<Arm>, trials: int, planned: seq<Cell>, ceiling: real,
                 attempts: (nat, Cell) -> Attempt)
    returns (records: seq<Row>, g: GridOutcome)
    requires multiset(planned) == multiset(GridCells(tasks, arms, trials))
    ensures g.stoppedCells <= |planned| == |g.records| && g.records <= records
    ensures StoppedAfter(|planned| - g.stoppedCells, planned, g.records, ceiling, RealRunner(arms, attempts))
    ensures Distinct(tasks) && DistinctArms(arms) ==> EachOnce(CellsOf(records), tasks, arms, trials)
    ensures forall i | 0 <= i < |planned| - g.stoppedCells :: RanCell(g.records[i], planned[i], attempts(i, planned[i]))
    ensures forall name, counts | IsTally(counts, RowsOfArm(records, name), ArmCause) ::
              |RowsOfArm(records, name)| == Count(RowsOfArm(records, name), MeasuredPass) + Sum(counts)
  {
    PlannedCellsRun(tasks, arms, trials, planned, attempts);
    RealRunnerIsFaithful(arms, attempts);
    records, g := RecordAll(tasks, arms, trials, planned, ceiling, RealRunner(arms, attempts));
    RanRows(|planned| - g.stoppedCells, planned, g.records, ceiling, RealRunner(arms, attempts));
    forall name, counts | IsTally(counts, RowsOfArm(records, name), ArmCause)
      ensures |RowsOfArm(records, name)| == Count(RowsOfArm(records, name), MeasuredPass) + Sum(counts)
    {
      FilterMembers(records, (row: Row) => row.arm == name);
      SoundRowsBalance(RowsOfArm(records, name), counts);
    }
  }

  method SkippedArmRows(arms: seq<Arm>, tasks: seq<string>, trials: int) returns (rows: seq<Row>)
    ensures CellsOf(rows) == SkippedCells(arms, tasks, trials)
    ensures forall row | row in rows :: row.status == Skipped
  {
    rows := [];
    for a := 0 to |arms|
      invariant CellsOf(rows) + SkippedCells(arms[a..], tasks, trials) == SkippedCells(arms, tasks, trials)
      invariant forall row | row in rows :: row.status == Skipped
    {
      assert arms[a..][1..] == arms[a + 1..];
      if arms[a].active { continue; }
      var more := SkippedRows(arms[a], tasks, trials);
      CellsOfConcat(rows, more);
      rows := rows + more;
    }
  }

  method SkippedRows(arm: Arm, tasks: seq<string>, trials: int) returns (rows: seq<Row>)
    ensures CellsOf(rows) == SkippedTaskCells(arm, tasks, trials)
    ensures forall row | row in rows :: row.status == Skipped
  {
    rows := [];
    for t := 0 to |tasks|
      invariant CellsOf(rows) + SkippedTaskCells(arm, tasks[t..], trials) == SkippedTaskCells(arm, tasks, trials)
      invariant forall row | row in rows :: row.status == Skipped
    {
      assert tasks[t..][1..] == tasks[t + 1..];
      ghost var was, rest := rows, SkippedTaskCells(arm, tasks[t + 1..], trials);
      var trial := 1;
      while trial <= trials
        invariant 1 <= trial && (trial <= trials + 1 || trial == 1)
        invariant CellsOf(rows) == CellsOf(was) + TrialCells(tasks[t], arm.name, trial - 1)
        invariant forall row | row in rows :: row.status == Skipped
        decreases trials - trial
      {
        var row := SkippedRow(tasks[t], arm, trial);
        CellsOfConcat(rows, [row]);
        rows := rows + [row];
        trial := trial + 1;
      }
      assert TrialCells(tasks[t], arm.name, trial - 1) == TrialCells(tasks[t], arm.name, trials);
    }
  }

  lemma CellsOfConcat(xs: seq<Row>, ys: seq<Row>)
    ensures CellsOf(xs + ys) == CellsOf(xs) + CellsOf(ys)
  {
  }

  // ----- Main result: every cell of the full grid is recorded exactly once -----

  ghost predicate HasArm(arms: seq<Arm>, name: string) {
    exists arm :: arm in arms && arm.name == name
  }

  ghost predicate InGrid(c: Cell, tasks: seq<string>, arms: seq<Arm>, trials: int) {
    c.task in tasks && HasArm(arms, c.arm) && 1 <= c.trial <= trials
  }

  ghost predicate EachOnce(cells: seq<Cell>, tasks: seq<string>, arms: seq<Arm>, trials: int) {
    forall c :: multiset(cells)[c] == if InGrid(c, tasks, arms, trials) then 1 else 0
  }

  ghost predicate DistinctArms(arms: seq<Arm>) {
    forall i, j | 0 <= i < j < |arms| :: arms[i].name != arms[j].name
  }

  lemma {:induction false} TrialCellsOnce(task: string, arm: string, trials: int)
    ensures Distinct(TrialCells(task, arm, trials))
    ensures forall c :: c in TrialCells(task, arm, trials) <==> c.task == task && c.arm == arm && 1 <= c.trial <= trials
    decreases if trials < 0 then 0 else trials
  {
    if trials > 0 {
      TrialCellsOnce(task, arm, trials - 1);
    }
  }

  lemma {:induction false} TaskCellsOnce(task: string, arms: seq<Arm>, trials: int)
    requires DistinctArms(arms)
    ensures Distinct(TaskCells(task, arms, trials))
    ensures forall c :: c in TaskCells(task, arms, trials)
              <==> c.task == task && 1 <= c.trial <= trials && Arm(c.arm, true) in arms
  {
    if arms != [] {
      TrialCellsOnce(task, arms[0].name, trials);
      TaskCellsOnce(task, arms[1..], trials);
      assert arms == [arms[0]] + arms[1..];
      var head := if arms[0].active then TrialCells(task, arms[0].name, trials) else [];
      assert forall c | c in head :: Arm(c.arm, true) !in arms[1..];
      DistinctConcat(head, TaskCells(task, arms[1..], trials));
    }
  }

  lemma {:induction false} GridCellsOnce(tasks: seq<string>, arms: seq<Arm>, trials: int)
    requires Distinct(tasks) && DistinctArms(arms)
    ensures Distinct(GridCells(tasks, arms, trials))
    ensures forall c :: c in GridCells(tasks, arms, trials)
              <==> c.task in tasks && 1 <= c.trial <= trials && Arm(c.arm, true) in arms
  {
    if tasks != [] {
      TaskCellsOnce(tasks[0], arms, trials);
      GridCellsOnce(tasks[1..], arms, trials);
      assert tasks == [tasks[0]] + tasks[1..];
      DistinctConcat(TaskCells(tasks[0], arms, trials), GridCells(tasks[1..], arms, trials));
    }
  }

  lemma {:induction false} SkippedTaskCellsOnce(arm: Arm, tasks: seq<string>, trials: int)
    requires Distinct(tasks)
    ensures Distinct(SkippedTaskCells(arm, tasks, trials))
    ensures forall c :: c in SkippedTaskCells(arm, tasks, trials)
                        <==> c.task in tasks && c.arm == arm.name && 1 <= c.trial <= trials
  {
    if tasks != [] {
      TrialCellsOnce(tasks[0], arm.name, trials);
      SkippedTaskCellsOnce(arm, tasks[1..], trials);
      assert tasks == [tasks[0]] + tasks[1..];
      DistinctConcat(TrialCells(tasks[0], arm.name, trials), SkippedTaskCells(arm, tasks[1..], trials));
    }
  }

  lemma {:induction false} SkippedCellsOnce(arms: seq<Arm>, tasks: seq<string>, trials: int)
    requires Distinct(tasks) && DistinctArms(arms)
    ensures Distinct(SkippedCells(arms, tasks, trials))
    ensures forall c :: c in SkippedCells(arms, tasks, trials)
              <==> c.task in tasks && 1 <= c.trial <= trials && Arm(c.arm, false) in arms
  {
    if arms != [] {
      SkippedTaskCellsOnce(arms[0], tasks, trials);
      SkippedCellsOnce(arms[1..], tasks, trials);
      assert arms == [arms[0]] + arms[1..];
      var head := if arms[0].active then [] else SkippedTaskCells(arms[0], tasks, trials);
      assert forall c | c in head :: Arm(c.arm, false) !in arms[1..];
      DistinctConcat(head, SkippedCells(arms[1..], tasks, trials));
    }
  }

  lemma PlannedGridIsComplete(tasks: seq<string>, arms: seq<Arm>, trials: int, planned: seq<Cell>)
    requires Distinct(tasks) && DistinctArms(arms)
    requires multiset(planned) == multiset(GridCells(tasks, arms, trials))
    ensures EachOnce(planned + SkippedCells(arms, tasks, trials), tasks, arms, trials)
  {
    var skipped := SkippedCells(arms, tasks, trials);
    GridCellsOnce(tasks, arms, trials);
    SkippedCellsOnce(arms, tasks, trials);
    DistinctMultiset(GridCells(tasks, arms, trials), planned);
    SameMultiset(GridCells(tasks, arms, trials), planned);
    forall c: Cell ensures !(Arm(c.arm, true) in arms && Arm(c.arm, false) in arms) {}
    DistinctConcat(planned, skipped);
    DistinctCounts(planned + skipped);
    forall c ensures c in planned + skipped <==> InGrid(c, tasks, arms, trials) {
      assert HasArm(arms, c.arm) <==> Arm(c.arm, true) in arms || Arm(c.arm, false) in arms by {
        if HasArm(arms, c.arm) {
          var arm :| arm in arms && arm.name == c.arm;
          assert arm == Arm(c.arm, arm.active);
        }
      }
    }
  }
}
