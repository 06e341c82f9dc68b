/**
  The approval executor: `plan_approval`, `execute_plan` and the real merger, which re-reads a swarm
  state that may have changed since the plan. Everything a run does outside is recorded in a trace.
*/
module Approvals {
  import opened Wrappers
  import opened Sequences

  datatype UnitLine = UnitLine(
    unitId: string, status: string, verified: bool, held: bool, receiptHash: Option<string>, prUrl: Option<string>)

  datatype Card = Card(units: seq<UnitLine>)

  datatype Kind = ApproveAll | ApproveUnit | ShowDiff | Abort | Unknown

  datatype Action = Action(kind: Kind, unitId: Option<string>)

  datatype Reason = NotFound | Unverified | Held | Aborted

  datatype Refusal = Refusal(unitId: string, reason: Reason)

  datatype Plan = Plan(kind: Kind, eligible: seq<string>, refused: seq<Refusal>)

  // ----- The decision -----

  predicate IsEligible(u: UnitLine) {
    u.verified && !u.held
  }

  predicate IsRefused(u: UnitLine) {
    !IsEligible(u)
  }

  function RefusalReason(u: UnitLine): Reason {
    if u.status == "aborted" then Aborted else if u.receiptHash.None? then Unverified else Held
  }

  function Ids(units: seq<UnitLine>): seq<string> {
    if units == [] then [] else [units[0].unitId] + Ids(units[1..])
  }

  function Refusals(units: seq<UnitLine>): seq<Refusal> {
    if units == [] then [] else [Refusal(units[0].unitId, RefusalReason(units[0]))] + Refusals(units[1..])
  }

  /** `next((u for u in units if u.unit_id == target), None)`. */
  function FindUnit(units: seq<UnitLine>, target: string): Option<UnitLine> {
    if units == [] then None else if units[0].unitId == target then Some(units[0]) else FindUnit(units[1..], target)
  }

  function Target(action: Action): string {
    if action.unitId.Some? then action.unitId.value else ""
  }

  /** The units of "approve all" are split by eligibility, both halves in card order. */
  function PlanOf(card: Card, action: Action): Plan {
    match action.kind
    case Abort => Plan(action.kind, [], [])
    case ShowDiff => Plan(action.kind, [], [])
    case Unknown => Plan(action.kind, [], [])
    case ApproveUnit =>
      var target := Target(action);
      (match FindUnit(card.units, target)
       case None => Plan(action.kind, [], [Refusal(if target == "" then "?" else target, NotFound)])
       case Some(u) =>
         if IsEligible(u) then Plan(action.kind, [u.unitId], [])
         else Plan(action.kind, [], [Refusal(u.unitId, RefusalReason(u))]))
    case ApproveAll =>
      Plan(ApproveAll, Ids(Filter(card.units, IsEligible)), Refusals(Filter(card.units, IsRefused)))
  }

  method PlanApproval(card: Card, action: Action) returns (plan: Plan)
    ensures plan == PlanOf(card, action)
    ensures forall id | id in plan.eligible :: exists u :: u in card.units && u.unitId == id && u.verified && !u.held
    ensures plan.kind == action.kind
    ensures action.kind.ApproveAll? || action.kind.ApproveUnit? || (plan.eligible == [] && plan.refused == [])
  {
    ghost var spec := PlanOf(card, action);
    forall id | id in spec.eligible ensures EligibleOn(card, id) { PlannedAreEligible(card, action, id); }
    if action.kind.Abort? || action.kind.ShowDiff? || action.kind.Unknown? {
      return Plan(action.kind, [], []);
    }
    if action.kind.ApproveUnit? {
      var target := Target(action);
      var unit := FindUnit(card.units, target);
      if unit.None? {
        return Plan(action.kind, [], [Refusal(if target == "" then "?" else target, NotFound)]);
      }
      if IsEligible(unit.value) {
        return Plan(action.kind, [unit.value.unitId], []);
      }
      return Plan(action.kind, [], [Refusal(unit.value.unitId, RefusalReason(unit.value))]);
    }
    var eligible, refused := SplitUnits(card.units);
    return Plan(ApproveAll, eligible, refused);
  }

  /** The loop of "approve all". */
  method SplitUnits(units: seq<UnitLine>) returns (eligible: seq<string>, refused: seq<Refusal>)
    ensures eligible == Ids(Filter(units, IsEligible))
    ensures refused == Refusals(Filter(units, IsRefused))
  {
    eligible, refused := [], [];
    for i := 0 to |units|
      invariant eligible == Ids(Filter(units[..i], IsEligible))
      invariant refused == Refusals(Filter(units[..i], IsRefused))
    {
      var unit := units[i];
      SplitStep(units[..i], unit);
      assert units[..i + 1] == units[..i] + [unit];
      if IsEligible(unit) {
        eligible := eligible + [unit.unitId];
      } else {
        refused := refused + [Refusal(unit.unitId, RefusalReason(unit))];
      }
    }
    assert units[..|units|] == units;
  }

  lemma SplitStep(units: seq<UnitLine>, u: UnitLine)
    ensures Ids(Filter(units + [u], IsEligible))
            == Ids(Filter(units, IsEligible)) + if IsEligible(u) then [u.unitId] else []
    ensures Refusals(Filter(units + [u], IsRefused))
            == Refusals(Filter(units, IsRefused)) + if IsEligible(u) then [] else [Refusal(u.unitId, RefusalReason(u))]
  {
    FilterAppend(units, [u], IsEligible);
    FilterAppend(units, [u], IsRefused);
    var e, r := Filter(units, IsEligible), Filter(units, IsRefused);
    assert [u][1..] == [] && e + [] == e && r + [] == r;
    if IsEligible(u) {
      assert Filter([u], IsEligible) == [u] && Filter([u], IsRefused) == [];
      NamesAppend(e, u);
    } else {
      assert Filter([u], IsEligible) == [] && Filter([u], IsRefused) == [u];
      NamesAppend(r, u);
    }
  }

  lemma {:induction false} NamesAppend(units: seq<UnitLine>, u: UnitLine)
    ensures Ids(units + [u]) == Ids(units) + [u.unitId]
    ensures Refusals(units + [u]) == Refusals(units) + [Refusal(u.unitId, RefusalReason(u))]
  {
    if units == [] {
      assert units + [u] == [u] && [u][1..] == [];
    } else {
      assert (units + [u])[0] == units[0] && (units + [u])[1..] == units[1..] + [u];
      NamesAppend(units[1..], u);
    }
  }

  /** Some line of the card shows the unit as a verified success. */
  ghost predicate EligibleOn(card: Card, id: string) {
    exists u :: u in card.units && u.unitId == id && u.verified && !u.held
  }

  lemma {:induction false} IdsMembers(units: seq<UnitLine>, id: string)
    ensures id in Ids(units) <==> exists u :: u in units && u.unitId == id
  {
    if units != [] {
      IdsMembers(units[1..], id);
      assert units == [units[0]] + units[1..];
    }
  }

  lemma {:induction false} FindUnitFinds(units: seq<UnitLine>, target: string)
    ensures FindUnit(units, target).Some? <==> exists u :: u in units && u.unitId == target
    ensures FindUnit(units, target).Some? ==>
              FindUnit(units, target).value in units && FindUnit(units, target).value.unitId == target
  {
    if units != [] {
      FindUnitFinds(units[1..], target);
      assert units == [units[0]] + units[1..];
    }
  }

  lemma PlannedAreEligible(card: Card, action: Action, id: string)
    requires id in PlanOf(card, action).eligible
    ensures EligibleOn(card, id)
  {
    FilterMembers(card.units, IsEligible);
    IdsMembers(Filter(card.units, IsEligible), id);
    FindUnitFinds(card.units, Target(action));
  }

  /** Nothing is lost in the split: a unit line is eligible if verified and unheld, and refused otherwise. */
  lemma ApproveAllSplitsTheCard(units: seq<UnitLine>)
    ensures multiset(Filter(units, IsEligible)) + multiset(Filter(units, IsRefused)) == multiset(units)
    ensures forall u :: u in Filter(units, IsEligible) <==> u in units && u.verified && !u.held
    ensures forall u :: u in Filter(units, IsRefused) <==> u in units && (!u.verified || u.held)
  {
    FilterPartition(units, IsEligible, IsRefused);
    FilterMembers(units, IsEligible);
    FilterMembers(units, IsRefused);
  }

  ghost predicate ListedOn(card: Card, id: string) {
    exists u :: u in card.units && u.unitId == id
  }

  ghost predicate RefusedIn(plan: Plan, id: string) {
    exists r :: r in plan.refused && r.unitId == id
  }

  ghost predicate ListsUnitsOnce(card: Card) {
    forall u, v | u in card.units && v in card.units && u.unitId == v.unitId :: u == v
  }

  lemma {:induction false} RefusalMembers(units: seq<UnitLine>, id: string)
    ensures (exists r :: r in Refusals(units) && r.unitId == id) <==> exists u :: u in units && u.unitId == id
  {
    if units != [] {
      RefusalMembers(units[1..], id);
      assert units == [units[0]] + units[1..];
      assert Refusals(units) == [Refusal(units[0].unitId, RefusalReason(units[0]))] + Refusals(units[1..]);
    }
  }

  /**
    On a card that lists each unit once, "approve all" decides every unit of the card, and nothing else,
    in exactly one way; a per-unit approval does so for its target.
   */
  lemma PlanDecidesEachUnit(card: Card, action: Action, id: string)
    requires ListsUnitsOnce(card)
    ensures var plan := PlanOf(card, Action(ApproveAll, action.unitId));
      && (id in plan.eligible <==> exists u :: u in card.units && u.unitId == id && u.verified && !u.held)
      && (RefusedIn(plan, id) <==> exists u :: u in card.units && u.unitId == id && (!u.verified || u.held))
    ensures var plan, target := PlanOf(card, Action(ApproveUnit, action.unitId)), Target(action);
      && (plan.eligible == [target] <==> exists u :: u in card.units && u.unitId == target && u.verified && !u.held)
      && (plan.eligible == [] || plan.eligible == [target]) && |plan.refused| == 1 - |plan.eligible|
      && (forall r | r in plan.refused :: if ListedOn(card, target) then r.unitId == target else r.reason == NotFound)
  {
    FilterMembers(card.units, IsEligible);
    FilterMembers(card.units, IsRefused);
    IdsMembers(Filter(card.units, IsEligible), id);
    RefusalMembers(Filter(card.units, IsRefused), id);
    FindUnitFinds(card.units, Target(action));
  }

  // ----- The execution -----

  datatype LandAnswer = Merged | NotMerged | LandError

  datatype Effect = CalledMerger(unitId: string) | ReadCard(card: Card) | Land(pr: int, answer: LandAnswer)

  datatype MergeOutcome = MergeOutcome(unitId: string, ok: bool)

  datatype Execution = Execution(merged: seq<MergeOutcome>, skipped: seq<Refusal>, dryRun: bool)

  /** A failure outside the program that ends the run: reading the card or landing raised. */
  datatype Interrupted = Interrupted

  /** The pull request the re-read card clears for landing, if any; `prNumber` parses a PR URL. */
  function Cleared(card: Card, unitId: string, prNumber: string -> Option<int>): Option<int> {
    match FindUnit(card.units, unitId)
    case None => None
    case Some(u) =>
      if !IsEligible(u) || u.prUrl.None? || u.prUrl.value == "" then None else prNumber(u.prUrl.value)
  }

  /** The first line of the card for the unit shows it verified and unheld, with a URL of the pull request. */
  ghost predicate Clears(card: Card, unitId: string, pr: int, prNumber: string -> Option<int>) {
    exists k ::
      && 0 <= k < |card.units| && card.units[k].unitId == unitId
      && (forall j | 0 <= j < k :: card.units[j].unitId != unitId)
      && card.units[k].verified && !card.units[k].held
      && card.units[k].prUrl.Some? && card.units[k].prUrl.value != ""
      && prNumber(card.units[k].prUrl.value) == Some(pr)
  }

  lemma {:induction false} FirstLine(units: seq<UnitLine>, target: string)
    ensures match FindUnit(units, target)
            case None => forall u | u in units :: u.unitId != target
            case Some(u) => exists k ::
              && 0 <= k < |units| && units[k] == u && u.unitId == target
              && forall j | 0 <= j < k :: units[j].unitId != target
  {
    if units != [] && units[0].unitId != target {
      FirstLine(units[1..], target);
      assert units == [units[0]] + units[1..];
      if FindUnit(units, target).Some? {
        var u := FindUnit(units, target).value;
        var k :|
          && 0 <= k < |units[1..]| && units[1..][k] == u
          && forall j | 0 <= j < k :: units[1..][j].unitId != target;
        assert units[k + 1] == u && forall j | 0 <= j < k + 1 :: units[j].unitId != target;
      }
    }
  }

  lemma ClearedMeans(card: Card, unitId: string, prNumber: string -> Option<int>)
    ensures forall pr :: Cleared(card, unitId, prNumber) == Some(pr) <==> Clears(card, unitId, pr, prNumber)
  {
    FirstLine(card.units, unitId);
  }

  /**
    The landing at step `i` follows a merger call for a unit that the plan's card shows as a verified
    success, and a fresh reading of the card that clears the unit for the landed pull request.
   */
  ghost predicate Justified(planned: Card, t: seq<Effect>, i: nat, prNumber: string -> Option<int>)
    requires i < |t| && t[i].Land?
  {
    && i >= 2 && t[i - 2].CalledMerger? && t[i - 1].ReadCard?
    && EligibleOn(planned, t[i - 2].unitId)
    && Clears(t[i - 1].card, t[i - 2].unitId, t[i].pr, prNumber)
  }

  ghost predicate Safe(planned: Card, t: seq<Effect>, prNumber: string -> Option<int>) {
    forall i | 0 <= i < |t| && t[i].Land? :: Justified(planned, t, i, prNumber)
  }

  function MergerCalls(t: seq<Effect>): seq<string> {
    if t == [] then []
    else MergerCalls(t[..|t| - 1]) + match t[|t| - 1] case CalledMerger(id) => [id] case _ => []
  }

  class Run {
    const prNumber: string -> Option<int>
    var trace: seq<Effect>

    constructor (prNumber: string -> Option<int>)
      ensures trace == [] && this.prNumber == prNumber
    {
      this.prNumber := prNumber;
      trace := [];
    }

    /** `build_card`: whatever the swarm state is by now. */
    method BuildCard() returns (r: Result<Card, Interrupted>)
      modifies this
      ensures trace == old(trace) + match r case Ok(card) => [ReadCard(card)] case Raised(_) => []
    {
      var card: Card, fails: bool := *, *;
      if fails { return Raised(Interrupted); }
      trace := trace + [ReadCard(card)];
      return Ok(card);
    }

    /** `land`: it merges, reports another outcome, or raises its own or another error. */
    method LandPr(pr: int) returns (r: Result<LandAnswer, Interrupted>)
      modifies this
      ensures r.Ok? ==> trace == old(trace) + [Land(pr, r.value)]
      ensures r.Raised? ==> trace == old(trace) + [Land(pr, LandError)]
    {
      var answer: LandAnswer, fails: bool := *, *;
      if fails {
        trace := trace + [Land(pr, LandError)];
        return Raised(Interrupted);
      }
      trace := trace + [Land(pr, answer)];
      return Ok(answer);
    }

    method RealMerger(unitId: string) returns (r: Result<MergeOutcome, Interrupted>, ghost call: seq<Effect>)
      modifies this
      ensures trace == old(trace) + call && MergerEffects(call, unitId, prNumber)
      ensures r.Ok? ==> MergerAnswer(call, r.value, prNumber)
    {
      trace := trace + [CalledMerger(unitId)];
      call := [CalledMerger(unitId)];
      var read := BuildCard();
      if read.Raised? { return Raised(Interrupted), call; }
      call := call + [ReadCard(read.value)];
      ClearedMeans(read.value, unitId, prNumber);
      var unit := FindUnit(read.value.units, unitId);
      if unit.None? { return Ok(MergeOutcome(unitId, false)), call; }
      if !(unit.value.verified && !unit.value.held) { return Ok(MergeOutcome(unitId, false)), call; }
      if unit.value.prUrl.None? || unit.value.prUrl.value == "" { return Ok(MergeOutcome(unitId, false)), call; }
      var pr := prNumber(unit.value.prUrl.value);
      if pr.None? { return Ok(MergeOutcome(unitId, false)), call; }
      var landed := LandPr(pr.value);
      call := call + [trace[|trace| - 1]];
      if landed.Raised? { return Raised(Interrupted), call; }
      return Ok(MergeOutcome(unitId, landed.value == Merged)), call;
    }

    /** `injected` says that a merger was injected; without one, and in a dry run, nothing is called. */
    method ExecutePlan(plan: Plan, injected: bool, dryRun: bool, ghost planned: Card)
      returns (r: Result<Execution, Interrupted>, ghost calls: seq<seq<Effect>>)
      requires Safe(planned, trace, prNumber) && forall id | id in plan.eligible :: EligibleOn(planned, id)
      modifies this
      ensures Safe(planned, trace, prNumber) && trace == old(trace) + Flatten(calls)
      ensures dryRun || !injected ==> calls == [] && r.Ok?
      ensures CallsFor(calls, plan.eligible, prNumber)
      ensures MergerCalls(trace) == MergerCalls(old(trace)) + plan.eligible[..|calls|]
      ensures r.Ok? ==> r.value.skipped == plan.refused && r.value.dryRun == dryRun
      ensures r.Ok? ==> if dryRun || !injected then r.value.merged == AllMerged(plan.eligible)
                        else Answered(calls, plan.eligible, r.value.merged, prNumber)
    {
      var merged: seq<MergeOutcome> := [];
      calls := [];
      ghost var calling, done := !dryRun && injected, plan.eligible[..0];
      assert trace == trace + [];
      for i := 0 to |plan.eligible|
        invariant done == plan.eligible[..i]
        invariant Safe(planned, trace, prNumber) && trace == old(trace) + Flatten(calls)
        invariant if calling then Answered(calls, done, merged, prNumber) else calls == [] && merged == AllMerged(done)
      {
        var unitId := plan.eligible[i];
        ghost var before := done;
        done := done + [unitId];
        if dryRun || !injected {
          merged := merged + [MergeOutcome(unitId, true)];
          AllMergedAppend(before, unitId);
          continue;
        }
        var outcome; ghost var call;
        outcome, call := MergeNext(unitId, planned, old(trace), calls);
        MoreCalls(calls, before, merged, plan.eligible, call, prNumber);
        if outcome.Raised? {
          calls := calls + [call];
          ShowCalls(old(trace), calls, plan.eligible, prNumber);
          return Raised(Interrupted), calls;
        }
        MoreAnswers(calls, before, merged, call, outcome.value, prNumber);
        calls := calls + [call];
        merged := merged + [outcome.value];
      }
      assert plan.eligible[..|plan.eligible|] == plan.eligible;
      ShowCalls(old(trace), calls, plan.eligible, prNumber);
      r := Ok(Execution(merged, plan.refused, dryRun));
    }

    /** The next call of the merger in a run whose calls so far, after `start`, were `calls`. */
    method MergeNext(unitId: string, ghost planned: Card, ghost start: seq<Effect>, ghost calls: seq<seq<Effect>>)
      returns (r: Result<MergeOutcome, Interrupted>, ghost call: seq<Effect>)
      requires Safe(planned, trace, prNumber) && trace == start + Flatten(calls) && EligibleOn(planned, unitId)
      modifies this
      ensures Safe(planned, trace, prNumber) && trace == start + Flatten(calls + [call])
      ensures MergerEffects(call, unitId, prNumber)
      ensures r.Ok? ==> r.value.unitId == unitId && MergerAnswer(call, r.value, prNumber)
    {
      r, call := RealMerger(unitId);
      MergerTurn(planned, old(trace), call, unitId, prNumber);
      FlattenAppend(calls, call);
      assert start + Flatten(calls) + call == start + (Flatten(calls) + call);
    }

    /** The whole command: read the card, plan, and act for real only when asked to. */
    method Approve(action: Action, execute: bool)
      returns (r: Result<(Plan, Execution), Interrupted>, ghost planned: Card, ghost calls: seq<seq<Effect>>)
      requires trace == []
      modifies this
      ensures Safe(planned, trace, prNumber)
      ensures trace == [] || trace == [ReadCard(planned)] + Flatten(calls)
      ensures !execute ==> calls == []
      ensures CallsFor(calls, PlanOf(planned, action).eligible, prNumber)
      ensures r.Ok? ==> trace != [] && r.value.0 == PlanOf(planned, action)
      ensures r.Ok? ==> r.value.1.dryRun == !execute && r.value.1.skipped == r.value.0.refused
      ensures r.Ok? ==> if execute then Answered(calls, r.value.0.eligible, r.value.1.merged, prNumber)
                        else r.value.1.merged == AllMerged(r.value.0.eligible)
      ensures r.Ok? && execute ==> MergerCalls(trace) == r.value.0.eligible
      ensures r.Ok? && execute && action.kind.ApproveUnit? ==>
                if ExitCode(r.value.0, r.value.1) == 0 then MergesTarget(trace[1..], Target(action), prNumber)
                else MergesNothing(trace)
    {
      planned, calls := Card([]), [];
      var read := BuildCard();
      if read.Raised? { return Raised(Interrupted), planned, calls; }
      planned := read.value;
      var plan := PlanApproval(read.value, action);
      var execution;
      execution, calls := ExecutePlan(plan, execute, !execute, planned);
      if execution.Raised? { return Raised(Interrupted), planned, calls; }
      r := Ok((plan, execution.value));
      assert plan.eligible[..|plan.eligible|] == plan.eligible && trace[1..] == Flatten(calls);
      assert MergerCalls([ReadCard(planned)]) == [] by { assert [ReadCard(planned)][..0] == []; }
      if execute && action.kind.ApproveUnit? {
        ExitZeroMeansMerged(planned, action, execution.value, calls, prNumber);
      }
    }
  }

  function Flatten(calls: seq<seq<Effect>>): seq<Effect> {
    if calls == [] then [] else Flatten(calls[..|calls| - 1]) + calls[|calls| - 1]
  }

  lemma FlattenAppend(calls: seq<seq<Effect>>, call: seq<Effect>)
    ensures Flatten(calls + [call]) == Flatten(calls) + call
  {
    assert (calls + [call])[..|calls|] == calls;
  }

  /** The outcomes of a dry run, and of a run without a merger. */
  function AllMerged(ids: seq<string>): seq<MergeOutcome> {
    if ids == [] then [] else AllMerged(ids[..|ids| - 1]) + [MergeOutcome(ids[|ids| - 1], true)]
  }

  lemma AllMergedAppend(ids: seq<string>, id: string)
    ensures AllMerged(ids + [id]) == AllMerged(ids) + [MergeOutcome(id, true)]
  {
    assert (ids + [id])[..|ids|] == ids;
  }

  /** The call ended in a landing that merged. */
  predicate Landed(call: seq<Effect>) {
    call != [] && call[|call| - 1].Land? && call[|call| - 1].answer == Merged
  }

  /** A call that returns has read the card, has landed exactly what the card clears, and says how that went. */
  ghost predicate MergerAnswer(call: seq<Effect>, m: MergeOutcome, prNumber: string -> Option<int>) {
    && |call| >= 2 && call[1].ReadCard? && (|call| == 3 <==> exists pr :: Clears(call[1].card, m.unitId, pr, prNumber))
    && call[0] == CalledMerger(m.unitId) && (m.ok <==> Landed(call))
  }

  /** The calls are made for the first of the units, in order. */
  ghost predicate CallsFor(calls: seq<seq<Effect>>, ids: seq<string>, prNumber: string -> Option<int>) {
    |calls| <= |ids| && forall i | 0 <= i < |calls| :: MergerEffects(calls[i], ids[i], prNumber)
  }

  /** Every unit had its call, and its outcome is that call's. */
  ghost predicate Answered(
    calls: seq<seq<Effect>>, ids: seq<string>, merged: seq<MergeOutcome>, prNumber: string -> Option<int>)
  {
    && |calls| == |ids| == |merged|
    && forall i | 0 <= i < |ids| ::
         && merged[i].unitId == ids[i]
         && MergerEffects(calls[i], ids[i], prNumber) && MergerAnswer(calls[i], merged[i], prNumber)
  }

  /** What one merger call adds to the trace. */
  ghost predicate MergerEffects(t: seq<Effect>, unitId: string, prNumber: string -> Option<int>) {
    && 1 <= |t| <= 3 && t[0] == CalledMerger(unitId)
    && (|t| >= 2 ==> t[1].ReadCard?)
    && (|t| == 3 ==> t[2].Land? && Clears(t[1].card, unitId, t[2].pr, prNumber))
  }

  lemma {:induction false} MergerCallsConcat(s: seq<Effect>, t: seq<Effect>)
    ensures MergerCalls(s + t) == MergerCalls(s) + MergerCalls(t)
    decreases |t|
  {
    if t == [] {
      assert s + t == s;
    } else {
      assert (s + t)[..|s + t| - 1] == s + t[..|t| - 1];
      MergerCallsConcat(s, t[..|t| - 1]);
    }
  }

  lemma OneMergerCall(t: seq<Effect>, unitId: string, prNumber: string -> Option<int>)
    requires MergerEffects(t, unitId, prNumber)
    ensures MergerCalls(t) == [unitId]
  {
  }

  /** One merger call keeps the trace safe and shows as one call. */
  lemma MergerTurn(planned: Card, before: seq<Effect>, t: seq<Effect>, unitId: string, prNumber: string -> Option<int>)
    requires Safe(planned, before, prNumber) && EligibleOn(planned, unitId)
    requires MergerEffects(t, unitId, prNumber)
    ensures Safe(planned, before + t, prNumber)
    ensures MergerCalls(before + t) == MergerCalls(before) + [unitId]
  {
    MergerCallsConcat(before, t);
    OneMergerCall(t, unitId, prNumber);
    var n, after := |before|, before + t;
    if |t| >= 2 {
      ClearedMeans(t[1].card, unitId, prNumber);
    }
    forall i | 0 <= i < |after| && after[i].Land? ensures Justified(planned, after, i, prNumber) {
      if i < n {
        assert Justified(planned, before, i, prNumber);
      } else {
        assert after[i] == t[i - n] && i - n == 2;
        assert after[i - 1] == t[1] && after[i - 2] == t[0];
      }
    }
  }

  /** The calls as the trace shows them: one for each of the first units, in order. */
  lemma {:induction false} CallsInOrder(calls: seq<seq<Effect>>, ids: seq<string>, prNumber: string -> Option<int>)
    requires CallsFor(calls, ids, prNumber)
    ensures MergerCalls(Flatten(calls)) == ids[..|calls|]
  {
    if calls != [] {
      var n := |calls| - 1;
      CallsInOrder(calls[..n], ids, prNumber);
      MergerCallsConcat(Flatten(calls[..n]), calls[n]);
      OneMergerCall(calls[n], ids[n], prNumber);
      assert ids[..n + 1] == ids[..n] + [ids[n]];
    }
  }

  lemma ShowCalls(start: seq<Effect>, calls: seq<seq<Effect>>, ids: seq<string>, prNumber: string -> Option<int>)
    requires CallsFor(calls, ids, prNumber)
    ensures MergerCalls(start + Flatten(calls)) == MergerCalls(start) + ids[..|calls|]
  {
    CallsInOrder(calls, ids, prNumber);
    MergerCallsConcat(start, Flatten(calls));
  }

  lemma MoreCalls(
      calls: seq<seq<Effect>>, ids: seq<string>, merged: seq<MergeOutcome>, all: seq<string>, call: seq<Effect>,
      prNumber: string -> Option<int>)
    requires Answered(calls, ids, merged, prNumber)
    requires ids <= all && |ids| < |all| && MergerEffects(call, all[|ids|], prNumber)
    ensures CallsFor(calls + [call], all, prNumber)
  {
  }

  lemma MoreAnswers(
      calls: seq<seq<Effect>>, ids: seq<string>, merged: seq<MergeOutcome>, call: seq<Effect>, m: MergeOutcome,
      prNumber: string -> Option<int>)
    requires Answered(calls, ids, merged, prNumber)
    requires MergerEffects(call, m.unitId, prNumber) && MergerAnswer(call, m, prNumber)
    ensures Answered(calls + [call], ids + [m.unitId], merged + [m], prNumber)
  {
  }

  // ----- Reasons -----

  /** Why a unit of the card is refused. */
  ghost predicate RefusedFor(u: UnitLine, reason: Reason) {
    reason == if u.status == "aborted" then Aborted else if u.receiptHash == None then Unverified else Held
  }

  lemma {:induction false} ReasonsOf(units: seq<UnitLine>)
    ensures |Refusals(units)| == |units|
    ensures forall i | 0 <= i < |units| ::
              Refusals(units)[i].unitId == units[i].unitId && RefusedFor(units[i], Refusals(units)[i].reason)
  {
    if units != [] {
      ReasonsOf(units[1..]);
    }
  }

  /** Every refusal of a listed unit gives the reason of a line that is not a verified success. */
  lemma RefusalsHaveReasons(card: Card, action: Action, r: Refusal)
    requires r in PlanOf(card, action).refused && r.reason != NotFound
    ensures exists u :: u in card.units && u.unitId == r.unitId && (!u.verified || u.held) && RefusedFor(u, r.reason)
  {
    FindUnitFinds(card.units, Target(action));
    if action.kind.ApproveAll? {
      var refused := Filter(card.units, IsRefused);
      ReasonsOf(refused);
      FilterMembers(card.units, IsRefused);
      var i :| 0 <= i < |Refusals(refused)| && Refusals(refused)[i] == r;
      assert refused[i] in refused;
    }
  }

  // ----- The exit code -----

  function ExitCode(plan: Plan, x: Execution): int {
    if plan.kind.ApproveUnit? && plan.refused != [] then 2
    else if !x.dryRun && exists m :: m in x.merged && !m.ok then 1
    else 0
  }

  /** Exit code 0 of a real run: every unit's call landed and merged, and a targeted unit was not refused. */
  lemma ExitCodeMeans(plan: Plan, x: Execution, calls: seq<seq<Effect>>, prNumber: string -> Option<int>)
    requires !x.dryRun && Answered(calls, plan.eligible, x.merged, prNumber)
    ensures ExitCode(plan, x) == 0
            <==> (plan.kind.ApproveUnit? ==> plan.refused == []) && forall i | 0 <= i < |calls| :: Landed(calls[i])
    ensures ExitCode(plan, x) == 2 <==> plan.kind.ApproveUnit? && plan.refused != []
    ensures 0 <= ExitCode(plan, x) <= 2
  {
    forall i | 0 <= i < |calls| ensures x.merged[i] in x.merged && (Landed(calls[i]) <==> x.merged[i].ok) {
    }
  }

  ghost predicate MergesNothing(t: seq<Effect>) {
    forall e | e in t :: e.Land? ==> e.answer != Merged
  }

  /** The effects are one merger call for the target: a card that clears a pull request, and its merge. */
  ghost predicate MergesTarget(t: seq<Effect>, target: string, prNumber: string -> Option<int>) {
    exists card, pr ::
      t == [CalledMerger(target), ReadCard(card), Land(pr, Merged)] && Clears(card, target, pr, prNumber)
  }

  /**
    A real per-unit approval exits with 0 exactly when its effects are the merge of the target's cleared
    pull request; otherwise it merged nothing.
   */
  lemma ExitZeroMeansMerged(
      card: Card, action: Action, x: Execution, calls: seq<seq<Effect>>, prNumber: string -> Option<int>)
    requires action.kind.ApproveUnit? && !x.dryRun
    requires Answered(calls, PlanOf(card, action).eligible, x.merged, prNumber)
    ensures ExitCode(PlanOf(card, action), x) == 0 <==> MergesTarget(Flatten(calls), Target(action), prNumber)
    ensures ExitCode(PlanOf(card, action), x) != 0 ==> MergesNothing(Flatten(calls))
    ensures ExitCode(PlanOf(card, action), x) == 0 <==> x.merged == [MergeOutcome(Target(action), true)]
  {
    var plan := PlanOf(card, action);
    FindUnitFinds(card.units, Target(action));
    ExitCodeMeans(plan, x, calls, prNumber);
    if calls != [] {
      assert Flatten(calls[..0]) == [] && calls[..1] == calls;
      assert Flatten(calls) == [] + calls[0] == calls[0];
      OneCall(calls[0], x.merged[0], prNumber);
    }
  }

  lemma OneCall(call: seq<Effect>, m: MergeOutcome, prNumber: string -> Option<int>)
    requires MergerEffects(call, m.unitId, prNumber) && MergerAnswer(call, m, prNumber)
    ensures Landed(call) <==> MergesTarget(call, m.unitId, prNumber)
    ensures !Landed(call) ==> MergesNothing(call)
  {
    if Landed(call) {
      assert call == [CalledMerger(m.unitId), ReadCard(call[1].card), Land(call[2].pr, Merged)];
    }
  }
}
