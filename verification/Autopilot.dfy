/**
  The learning gate of the autopilot: `_run_learn`, `_record_win_memory`, `_promote_skills_inactive`,
  `_run_plan`, `_stage_plan_for_review` and `run_autopilot`. Every outside call may fail or return
  anything; each leaves an effect in a trace, and what may happen next depends on the trace so far.
*/
module Autopilot {
  import opened Wrappers
  import opened PyText

  // ----- Quarantined source references -----

  const UNPROMOTED_SOURCE_PREFIX := "unpromoted:"

  function UnpromotedSourceRef(origin: string): string {
    var stripped := Strip(origin);
    var cleaned := if stripped == "" then "unknown" else stripped;
    if UNPROMOTED_SOURCE_PREFIX <= cleaned then cleaned else UNPROMOTED_SOURCE_PREFIX + cleaned
  }

  predicate IsUnpromotedSource(sourceRef: string) {
    UNPROMOTED_SOURCE_PREFIX <= sourceRef
  }

  /** Whatever the origin, the reference is quarantined, and stamping it again changes nothing. */
  lemma StampingIsIdempotent(origin: string)
    ensures IsUnpromotedSource(UnpromotedSourceRef(origin))
    ensures UnpromotedSourceRef(UnpromotedSourceRef(origin)) == UnpromotedSourceRef(origin)
    ensures Strip(origin) == "" ==> UnpromotedSourceRef(origin) == "unpromoted:unknown"
    ensures Strip(origin) != "" && !("unpromoted:" <= Strip(origin)) ==>
              UnpromotedSourceRef(origin) == "unpromoted:" + Strip(origin)
    ensures "unpromoted:" <= Strip(origin) ==> UnpromotedSourceRef(origin) == Strip(origin)
  {
    StripTrims(origin);
    var r := UnpromotedSourceRef(origin);
    assert r[0] == 'u';
    StripOfTrimmed(r);
  }

  // ----- Effects -----

  datatype Memory = Memory(kind: string, title: string, summary: string, sourceRef: string)

  datatype Skill = Skill(id: string, name: string, body: string, autoInject: bool)

  /** What is queued for a human to approve. */
  datatype Proposal = Proposal(title: string, summary: string)

  datatype SkillWrite = Stored | AlreadyExists | WriteFailed

  datatype Effect =
    | Snapshot | CompileBrief | GuardGoal | ReadProfile
    | ReadSwitch(enabled: bool)
    | Scan(text: string, clean: bool)
    | CallPlanner
    | Stage(proposal: Proposal, ok: bool)
    | CallLoop(goal: string, converged: bool, proved: bool)
    | AddMemory(memory: Memory, ok: bool)
    | AddSkill(skill: Skill, outcome: SkillWrite)
    | Consolidate(ok: bool)
    | Report(phase: string, what: string)

  /** What a trace says so far: the latest kill-switch reading and scan, and what has been done. */
  datatype Digest = Digest(enabled: bool, cleanText: Option<string>, looped: bool, converged: bool, captured: nat)

  const START := Digest(false, None, false, false, 0)

  predicate IsWrite(e: Effect) {
    e.Stage? || e.AddMemory? || e.AddSkill? || e.Consolidate?
  }

  function Next(d: Digest, e: Effect): Digest {
    match e
    case ReadSwitch(enabled) => d.(enabled := enabled)
    case Scan(text, clean) => d.(cleanText := if clean then Some(text) else None)
    case CallLoop(_, converged, _) => d.(looped := true, converged := converged)
    case AddMemory(_, ok) => d.(captured := d.captured + (if ok then 1 else 0))
    case _ => d
  }

  function DigestOf(t: seq<Effect>): Digest {
    if t == [] then START else Next(DigestOf(t[..|t| - 1]), t[|t| - 1])
  }

  function ScannedForMemory(goal: string, summary: string): string {
    goal + "\n" + summary
  }

  /** The trust rules: when an effect may follow a trace with digest `d`. */
  predicate Allowed(goal: string, d: Digest, e: Effect) {
    match e
    case AddMemory(m, _) =>
      && d.converged && d.enabled && IsUnpromotedSource(m.sourceRef)
      && d.cleanText == Some(ScannedForMemory(goal, m.summary)) && d.captured == 0
    case AddSkill(skill, _) => d.converged && d.enabled && !skill.autoInject
    case Consolidate(_) => d.converged && d.enabled
    case Stage(proposal, _) =>
      !d.looped && d.enabled && d.cleanText.Some? && proposal == PlanProposal(goal, d.cleanText.value)
    case CallPlanner => !d.looped
    case CallLoop(_, _, _) => !d.looped
    case _ => true
  }

  predicate Safe(goal: string, t: seq<Effect>) {
    t == [] || (Safe(goal, t[..|t| - 1]) && Allowed(goal, DigestOf(t[..|t| - 1]), t[|t| - 1]))
  }

  // ----- The texts -----

  function WinSummary(goal: string, action: string): string {
    "Autopilot converged on goal: " + Take(goal, 200) + ". Winning action: " + Take(action, 300) + "."
  }

  function WinTitle(goal: string): string {
    "Autopilot win: " + Take(goal, 80)
  }

  function WithPlan(goal: string, plan: string): string {
    goal + "\n\n## Implementation plan\n\n" + plan
  }

  const PLAN_INTRO := "[autopilot-plan] Implementation plan for: "

  /** The proposal holds parts of the goal and of the plan. */
  function PlanProposal(goal: string, plan: string): Proposal {
    Proposal("Autopilot plan: " + Take(goal, 80), PLAN_INTRO + Take(goal, 200) + ".\n\n" + Take(plan, 800))
  }

  datatype LoopResult = LoopResult(converged: bool, lastAction: Option<string>, lastVerified: bool, stopReason: string)

  function WinMemory(goal: string, loop: LoopResult): Memory {
    var action := if loop.lastAction.Some? then loop.lastAction.value else "";
    Memory("decision", WinTitle(goal), WinSummary(goal, action), UnpromotedSourceRef("autopilot:engine"))
  }

  // ----- What each phase adds to a trace -----

  /** One scan and at most one write, of the win's own memory; what keeps it out is reported. */
  predicate Wins(goal: string, loop: LoopResult, t: seq<Effect>, t': seq<Effect>, captured: nat) {
    var m := WinMemory(goal, loop);
    var text := ScannedForMemory(goal, m.summary);
    if captured == 0 then
      || t' == t + [Scan(text, false)] + [Report("LEARN", "memory refused")]
      || t' == t + [Scan(text, true)] + [AddMemory(m, false)] + [Report("LEARN", "memory write failed")]
    else
      && captured == 1
      && (|| t' == t + [Scan(text, true)] + [AddMemory(m, true)]
          || t' == t + [Scan(text, true)] + [AddMemory(m, true)]
                   + [Report("LEARN", "memory recorded but NOT activated")])
  }

  datatype Attempt = Attempt(candidate: Skill, outcome: SkillWrite)

  /** Each candidate is tried once, inactive and in order; only a real failure is reported. */
  function Tried(t: seq<Effect>, attempts: seq<Attempt>): seq<Effect> {
    if attempts == [] then t
    else
      var a := attempts[|attempts| - 1];
      var t' := Tried(t, attempts[..|attempts| - 1]) + [AddSkill(a.candidate.(autoInject := false), a.outcome)];
      if a.outcome.WriteFailed? then t' + [Report("LEARN", "skill write failed")] else t'
  }

  function CandidatesOf(attempts: seq<Attempt>): seq<Skill> {
    if attempts == [] then [] else CandidatesOf(attempts[..|attempts| - 1]) + [attempts[|attempts| - 1].candidate]
  }

  function StoredSkills(attempts: seq<Attempt>): seq<Skill> {
    if attempts == [] then []
    else
      var a := attempts[|attempts| - 1];
      var stored := StoredSkills(attempts[..|attempts| - 1]);
      if a.outcome.Stored? then stored + [a.candidate] else stored
  }

  /** The name of the first skill stored, or its id when it has no name. */
  function FirstName(stored: seq<Skill>): Option<string> {
    if stored == [] then None else Some(if stored[0].name != "" then stored[0].name else stored[0].id)
  }

  ghost predicate Promotes(t: seq<Effect>, t': seq<Effect>, name: Option<string>) {
    || (t' == t + [Report("LEARN", "skill promote failed")] && name.None?)
    || exists attempts ::
         && name == FirstName(StoredSkills(attempts))
         && t' == if name.None? then Tried(t, attempts)
                  else Tried(t, attempts) + [Report("LEARN", "skills promoted but NOT activated")]
  }

  predicate Consolidates(t: seq<Effect>, t': seq<Effect>) {
    || t' == t + [Consolidate(true)]
    || t' == t + [Consolidate(false)] + [Report("LEARN", "consolidate failed")]
  }

  /** Nothing after a loss, a report with learning off; otherwise memory, skills and consolidation in turn. */
  ghost predicate Learns(
    goal: string, loop: LoopResult, t: seq<Effect>, t': seq<Effect>, name: Option<string>, captured: nat)
  {
    if !loop.converged then t' == t && name.None? && captured == 0
    else
      || (t' == t + [ReadSwitch(false)] + [Report("LEARN", "suppressed")] && name.None? && captured == 0)
      || exists t1, t2 ::
           Wins(goal, loop, t + [ReadSwitch(true)], t1, captured) && Promotes(t1, t2, name) && Consolidates(t2, t')
  }

  /** Only a clean plan is staged, and only with learning on; whatever keeps it out is reported. */
  predicate Stages(goal: string, planText: string, t: seq<Effect>, t': seq<Effect>) {
    var notStaged, proposal := Report("PLAN", "plan not staged"), PlanProposal(goal, planText);
    var scanned := t + [ReadSwitch(true)] + [Scan(planText, true)];
    || t' == t + [ReadSwitch(false)] + [notStaged]
    || t' == t + [ReadSwitch(true)] + [Scan(planText, false)] + [notStaged]
    || t' == scanned + [notStaged]
    || t' == scanned + [Stage(proposal, true)]
    || t' == scanned + [Stage(proposal, false)] + [Report("PLAN", "plan staging failed")]
  }

  predicate Plans(goal: string, t: seq<Effect>, t': seq<Effect>, plan: Option<string>) {
    match plan
    case None => t' == t + [CallPlanner] || t' == t + [CallPlanner] + [Report("PLAN", "plan step failed")]
    case Some(text) => text != "" && Stages(goal, text, t + [CallPlanner], t')
  }

  datatype AutopilotResult = AutopilotResult(
    verified: bool, captured: nat, skillName: Option<string>, planUsed: bool, stopReason: string)

  function ActGoal(goal: string, plan: Option<string>): string {
    if plan.Some? then WithPlan(goal, plan.value) else goal
  }

  /** The loop runs on the goal with its plan, and its result is learnt from. */
  ghost predicate Acts(goal: string, plan: Option<string>, t: seq<Effect>, t': seq<Effect>, r: AutopilotResult) {
    exists loop: LoopResult, t1 ::
      && Learns(goal, loop, t + [CallLoop(ActGoal(goal, plan), loop.converged, loop.lastVerified)] + [Snapshot], t1,
                r.skillName, r.captured)
      && t' == t1 + [Snapshot]
      && r == AutopilotResult(loop.converged && loop.lastVerified, r.captured, r.skillName, plan.Some?, loop.stopReason)
  }

  const KNOW := [Snapshot] + [CompileBrief] + [GuardGoal] + [ReadProfile]

  /** A whole run that returns: it knows, plans if it is to, acts with its plan, and learns. */
  ghost predicate Runs(goal: string, dryRun: bool, wantPlan: bool, t: seq<Effect>, r: AutopilotResult) {
    if dryRun then t == KNOW && r == AutopilotResult(false, 0, None, false, "dry-run")
    else exists t1, plan ::
      && (if wantPlan then Plans(goal, KNOW, t1, plan) else t1 == KNOW && plan.None?)
      && Acts(goal, plan, t1, t, r)
  }

  // ----- The program -----

  datatype Interrupted = Interrupted

  class Session {
    const goal: string
    var trace: seq<Effect>
    var skills: map<string, Skill>

    constructor (goal: string)
      ensures trace == [] && this.goal == goal && Valid()
    {
      this.goal := goal;
      trace := [];
      skills := *;
    }

    ghost predicate Valid()
      reads this
    {
      Safe(goal, trace)
    }

    function D(): Digest
      reads this
    {
      DigestOf(trace)
    }

    /** Records an effect; only an allowed one may happen. */
    method Do(e: Effect)
      requires Valid() && Allowed(goal, D(), e)
      modifies this`trace
      ensures Valid() && trace == old(trace) + [e] && D() == Next(old(D()), e)
    {
      trace := trace + [e];
      assert trace[..|trace| - 1] == old(trace);
    }

    method LearningEnabled() returns (enabled: bool)
      requires Valid()
      modifies this`trace
      ensures Valid() && trace == old(trace) + [ReadSwitch(enabled)] && D() == old(D()).(enabled := enabled)
    {
      enabled := *;
      Do(ReadSwitch(enabled));
    }

    /** A scanner that cannot run counts as one that found something. */
    method SanitizerFindings(text: string) returns (dirty: bool)
      requires Valid()
      modifies this`trace
      ensures Valid() && trace == old(trace) + [Scan(text, !dirty)]
      ensures D() == old(D()).(cleanText := if dirty then None else Some(text))
    {
      dirty := *;
      Do(Scan(text, !dirty));
    }

    method Log(phase: string, what: string)
      requires Valid()
      modifies this`trace
      ensures Valid() && trace == old(trace) + [Report(phase, what)] && D() == old(D())
    {
      Do(Report(phase, what));
    }

    /** `add_memory`: it returns or raises. */
    method StoreMemory(memory: Memory) returns (ok: bool)
      requires Valid() && D().converged && D().enabled && D().captured == 0 && IsUnpromotedSource(memory.sourceRef)
      requires D().cleanText == Some(ScannedForMemory(goal, memory.summary))
      modifies this`trace
      ensures Valid() && trace == old(trace) + [AddMemory(memory, ok)]
      ensures D() == old(D()).(captured := if ok then 1 else 0)
    {
      ok := *;
      Do(AddMemory(memory, ok));
    }

    method RecordWinMemory(loop: LoopResult) returns (captured: nat)
      requires Valid() && D().converged && D().enabled && D().captured == 0
      modifies this`trace
      ensures Valid() && Wins(goal, loop, old(trace), trace, captured)
      ensures D() == old(D()).(captured := captured, cleanText := D().cleanText)
    {
      var memory := WinMemory(goal, loop);
      var text := ScannedForMemory(goal, memory.summary);
      var dirty := SanitizerFindings(text);
      if dirty {
        Log("LEARN", "memory refused");
        return 0;
      }
      StampingIsIdempotent("autopilot:engine");
      var ok := StoreMemory(memory);
      if !ok {
        Log("LEARN", "memory write failed");
        return 0;
      }
      var notActivated: bool := *;
      if notActivated {
        Log("LEARN", "memory recorded but NOT activated");
      }
      return 1;
    }

    /** `add_skill` refuses an id that is already stored, and may fail otherwise; it never overwrites. */
    method StoreSkill(skill: Skill) returns (outcome: SkillWrite)
      requires Valid() && D().converged && D().enabled && !skill.autoInject
      modifies this
      ensures Valid() && trace == old(trace) + [AddSkill(skill, outcome)] && D() == old(D())
      ensures skills == if outcome.Stored? then old(skills)[skill.id := skill] else old(skills)
      ensures outcome.Stored? ==> skill.id !in old(skills)
    {
      var fails: bool := *;
      outcome := if skill.id in skills then AlreadyExists else if fails then WriteFailed else Stored;
      Do(AddSkill(skill, outcome));
      if outcome.Stored? {
        skills := skills[skill.id := skill];
      }
    }

    method PromoteSkillsInactive() returns (name: Option<string>)
      requires Valid() && D().converged && D().enabled
      modifies this
      ensures Valid() && Promotes(old(trace), trace, name) && D() == old(D())
      ensures forall id | id in old(skills) :: id in skills && skills[id] == old(skills)[id]
      ensures forall id | id in skills && id !in old(skills) :: !skills[id].autoInject
      ensures name.None? <==> skills == old(skills)
    {
      var candidates: seq<Skill>, fails: bool := *, *;
      if fails {
        Log("LEARN", "skill promote failed");
        return None;
      }
      var written := StoreCandidates(candidates);
      if written == [] { return None; }
      Log("LEARN", "skills promoted but NOT activated");
      return Some(if written[0].name != "" then written[0].name else written[0].id);
    }

    /** The loop over the detected candidates; `written` are those stored. */
    method StoreCandidates(candidates: seq<Skill>) returns (written: seq<Skill>)
      requires Valid() && D().converged && D().enabled
      modifies this
      ensures Valid() && D() == old(D())
      ensures exists attempts: seq<Attempt> ::
                && CandidatesOf(attempts) == candidates && written == StoredSkills(attempts)
                && trace == Tried(old(trace), attempts)
      ensures AddsInactive(old(skills), skills, written)
    {
      written := [];
      ghost var attempts: seq<Attempt> := [];
      for i := 0 to |candidates|
        invariant Valid() && D() == old(D())
        invariant CandidatesOf(attempts) == candidates[..i] && written == StoredSkills(attempts)
        invariant trace == Tried(old(trace), attempts)
        invariant AddsInactive(old(skills), skills, written)
      {
        ghost var before := skills;
        var outcome := StoreCandidate(candidates[i], old(trace), attempts);
        assert candidates[..i + 1] == candidates[..i] + [candidates[i]];
        attempts := attempts + [Attempt(candidates[i], outcome)];
        if outcome.Stored? {
          OneMoreSkill(old(skills), before, written, candidates[i]);
          written := written + [candidates[i]];
        }
      }
      assert candidates[..|candidates|] == candidates;
    }

    /** One candidate, stored inactive; a failure other than its being stored already is reported. */
    method StoreCandidate(candidate: Skill, ghost start: seq<Effect>, ghost attempts: seq<Attempt>)
      returns (outcome: SkillWrite)
      requires Valid() && D().converged && D().enabled && trace == Tried(start, attempts)
      modifies this
      ensures Valid() && D() == old(D())
      ensures var attempts' := attempts + [Attempt(candidate, outcome)];
        && trace == Tried(start, attempts')
        && CandidatesOf(attempts') == CandidatesOf(attempts) + [candidate]
        && StoredSkills(attempts') == StoredSkills(attempts) + if outcome.Stored? then [candidate] else []
      ensures skills == if outcome.Stored? then old(skills)[candidate.id := candidate.(autoInject := false)]
                        else old(skills)
      ensures outcome.Stored? ==> candidate.id !in old(skills)
    {
      outcome := StoreSkill(candidate.(autoInject := false));
      assert (attempts + [Attempt(candidate, outcome)])[..|attempts|] == attempts;
      if outcome.WriteFailed? {
        Log("LEARN", "skill write failed");
      }
    }

    /** After a loss nothing happens; after a win nothing is written unless the kill switch reads as on. */
    method RunLearn(loop: LoopResult) returns (name: Option<string>, captured: nat)
      requires Valid() && D().converged == loop.converged && D().captured == 0
      modifies this
      ensures Valid() && Learns(goal, loop, old(trace), trace, name, captured)
      ensures D().captured == captured
      ensures !loop.converged || !D().enabled ==> skills == old(skills)
    {
      if !loop.converged { return None, 0; }
      var enabled := LearningEnabled();
      if !enabled {
        Log("LEARN", "suppressed");
        return None, 0;
      }
      captured := RecordWinMemory(loop);
      name := PromoteSkillsInactive();
      ConsolidateStep();
    }

    /** `consolidate`, which may merge or rewrite what is stored. */
    method ConsolidateStep()
      requires Valid() && D().converged && D().enabled
      modifies this
      ensures Valid() && Consolidates(old(trace), trace) && D() == old(D())
    {
      var ok: bool := *;
      Do(Consolidate(ok));
      skills := *;
      if !ok {
        Log("LEARN", "consolidate failed");
      }
    }

    method StagePlanForReview(planText: string)
      requires Valid() && !D().looped
      modifies this`trace
      ensures Valid() && Stages(goal, planText, old(trace), trace)
      ensures !D().looped && D().captured == old(D()).captured
    {
      var enabled := LearningEnabled();
      if !enabled {
        Log("PLAN", "plan not staged");
        return;
      }
      var dirty := SanitizerFindings(planText);
      if dirty {
        Log("PLAN", "plan not staged");
        return;
      }
      var noRoot: bool, ok: bool := *, *;
      if noRoot {
        Log("PLAN", "plan not staged");
        return;
      }
      Do(Stage(PlanProposal(goal, planText), ok));
      if !ok {
        Log("PLAN", "plan staging failed");
      }
    }

    method RunPlan() returns (plan: Option<string>)
      requires Valid() && !D().looped
      modifies this
      ensures Valid() && Plans(goal, old(trace), trace, plan)
      ensures !D().looped && D().captured == old(D()).captured
    {
      var output: string, fails: bool := *, *;
      Do(CallPlanner);
      skills := *;
      if fails {
        Log("PLAN", "plan step failed");
        return None;
      }
      var planText := Strip(output);
      if planText == "" { return None; }
      StagePlanForReview(planText);
      return Some(planText);
    }

    method Know()
      requires Valid()
      modifies this`trace
      ensures Valid() && D() == old(D())
      ensures trace == old(trace) + [Snapshot] + [CompileBrief] + [GuardGoal] + [ReadProfile]
    {
      Do(Snapshot);
      Do(CompileBrief);
      Do(GuardGoal);
      Do(ReadProfile);
    }

    /** `dryRun` stops after KNOW; an exception from building a runner or from the loop ends the run. */
    method RunAutopilot(dryRun: bool, wantPlan: bool) returns (r: Result<AutopilotResult, Interrupted>)
      requires trace == []
      modifies this
      ensures Valid()
      ensures dryRun ==> r.Ok? && skills == old(skills)
      ensures r.Ok? ==> Runs(goal, dryRun, wantPlan, trace, r.value) && r.value.captured == D().captured
    {
      Know();
      assert trace == KNOW by { assert [] + [Snapshot] == [Snapshot]; }
      if dryRun {
        return Ok(AutopilotResult(false, 0, None, false, "dry-run"));
      }
      var planned := Plan(wantPlan);
      if planned.Raised? { return Raised(Interrupted); }
      r := ActAndLearn(planned.value);
    }

    /** The optional PLAN step: the plan text to add to the goal, if there is one. */
    method Plan(wantPlan: bool) returns (r: Result<Option<string>, Interrupted>)
      requires Valid() && !D().looped
      modifies this
      ensures Valid() && !D().looped && D().captured == old(D()).captured
      ensures r.Ok? ==> if wantPlan then Plans(goal, old(trace), trace, r.value)
                        else trace == old(trace) && r.value.None?
    {
      if !wantPlan { return Ok(None); }
      var fails: bool := *;
      if fails { return Raised(Interrupted); }
      var plan := RunPlan();
      return Ok(plan);
    }

    /** `service.loop`: it runs the agent, which may do anything to the stored skills. */
    method CallService(actGoal: string) returns (r: Result<LoopResult, Interrupted>)
      requires Valid() && !D().looped
      modifies this
      ensures Valid()
      ensures trace == old(trace) + [CallLoop(actGoal, r.Ok? && r.value.converged, r.Ok? && r.value.lastVerified)]
      ensures D() == old(D()).(looped := true, converged := r.Ok? && r.value.converged)
    {
      var loop: LoopResult, fails: bool := *, *;
      skills := *;
      Do(CallLoop(actGoal, !fails && loop.converged, !fails && loop.lastVerified));
      if fails { return Raised(Interrupted); }
      return Ok(loop);
    }

    /** ACT, PROVE and LEARN. */
    method ActAndLearn(plan: Option<string>) returns (r: Result<AutopilotResult, Interrupted>)
      requires Valid() && !D().looped && D().captured == 0
      modifies this
      ensures Valid()
      ensures r.Ok? ==> Acts(goal, plan, old(trace), trace, r.value) && r.value.captured == D().captured
    {
      var noRunner: bool := *;
      if noRunner { return Raised(Interrupted); }
      var acted := CallService(ActGoal(goal, plan));
      if acted.Raised? { return Raised(Interrupted); }
      var loop := acted.value;
      Do(Snapshot);
      var name, captured := RunLearn(loop);
      ghost var t1 := trace;
      Do(Snapshot);
      r := Ok(AutopilotResult(loop.converged && loop.lastVerified, captured, name, plan.Some?, loop.stopReason));
      assert Learns(
          goal, loop, old(trace) + [CallLoop(ActGoal(goal, plan), loop.converged, loop.lastVerified)] + [Snapshot], t1,
          name, captured);
    }
  }

  /** No skill was altered, every new one is inactive, and there are none exactly when none was written. */
  ghost predicate AddsInactive(was: map<string, Skill>, now: map<string, Skill>, written: seq<Skill>) {
    && (forall id | id in was :: id in now && now[id] == was[id])
    && (forall id | id in now && id !in was :: !now[id].autoInject)
    && if written == [] then now == was else written[0].id in now && written[0].id !in was
  }

  lemma OneMoreSkill(was: map<string, Skill>, now: map<string, Skill>, written: seq<Skill>, skill: Skill)
    requires AddsInactive(was, now, written) && skill.id !in now
    ensures AddsInactive(was, now[skill.id := skill.(autoInject := false)], written + [skill])
  {
  }

  // ----- Main results: what holds of every effect of every run -----

  /** Each effect of a safe trace was allowed by what came before it. */
  lemma {:induction false} EveryEffectWasAllowed(goal: string, t: seq<Effect>, i: nat)
    requires Safe(goal, t) && i < |t|
    ensures Allowed(goal, DigestOf(t[..i]), t[i])
    decreases |t|
  {
    if i < |t| - 1 {
      EveryEffectWasAllowed(goal, t[..|t| - 1], i);
      assert t[..|t| - 1][..i] == t[..i];
    }
  }

  /** The digest, spelled out: which readings, scans and loop results a trace must hold. */
  lemma {:induction false} DigestMeans(t: seq<Effect>)
    ensures DigestOf(t).enabled ==> exists j :: 0 <= j < |t| && t[j] == ReadSwitch(true) && NoReading(t, j)
    ensures DigestOf(t).cleanText.Some? ==> exists j :: 0 <= j < |t| && t[j] == Scan(DigestOf(t).cleanText.value, true)
    ensures DigestOf(t).converged ==> exists j :: 0 <= j < |t| && t[j].CallLoop? && t[j].converged
    ensures (DigestOf(t).looped <==> exists j :: 0 <= j < |t| && t[j].CallLoop?)
  {
    if t != [] {
      var n := |t| - 1;
      var init := t[..n];
      DigestMeans(init);
      if DigestOf(t).enabled {
        if t[n].ReadSwitch? {
          assert t[n] == ReadSwitch(true) && NoReading(t, n);
        } else {
          var j :| 0 <= j < n && init[j] == ReadSwitch(true) && NoReading(init, j);
          assert t[j] == ReadSwitch(true) && NoReading(t, j);
        }
      }
      if DigestOf(t).looped && !t[n].CallLoop? {
        var j :| 0 <= j < n && init[j].CallLoop?;
        assert t[j].CallLoop?;
      }
      if j :| 0 <= j < |t| && t[j].CallLoop? {
        assert j < n ==> init[j].CallLoop?;
      }
    }
  }

  /** No kill-switch reading comes after position `j`. */
  ghost predicate NoReading(t: seq<Effect>, j: int) {
    forall k | j < k < |t| && 0 <= k :: !t[k].ReadSwitch?
  }

  /**
    Every memory a run writes is quarantined and follows a converged loop, a kill-switch reading that
    is on and is the latest, and a clean scan of the goal and the very summary it stores.
   */
  lemma MemoriesAreGated(goal: string, t: seq<Effect>, i: nat)
    requires Safe(goal, t) && i < |t| && t[i].AddMemory?
    ensures IsUnpromotedSource(t[i].memory.sourceRef)
    ensures exists j :: 0 <= j < i && t[j].CallLoop? && t[j].converged
    ensures exists j :: 0 <= j < i && t[j] == ReadSwitch(true) && NoReading(t[..i], j)
    ensures exists j :: 0 <= j < i && t[j] == Scan(goal + "\n" + t[i].memory.summary, true)
  {
    EveryEffectWasAllowed(goal, t, i);
    DigestMeans(t[..i]);
  }

  /** Every skill is written inactive and under the same gate; plans are staged before the loop, on and clean. */
  lemma SkillsAndPlansAreGated(goal: string, t: seq<Effect>, i: nat)
    requires Safe(goal, t) && i < |t|
    ensures t[i].AddSkill? ==> !t[i].skill.autoInject
    ensures t[i].AddSkill? || t[i].Consolidate? ==> exists j :: 0 <= j < i && t[j].CallLoop? && t[j].converged
    ensures IsWrite(t[i]) ==> exists j :: 0 <= j < i && t[j] == ReadSwitch(true) && NoReading(t[..i], j)
    ensures t[i].Stage? ==> exists j, plan ::
              0 <= j < i && t[j] == Scan(plan, true) && t[i].proposal == PlanProposal(goal, plan)
    ensures t[i].Stage? || t[i].CallPlanner? || t[i].CallLoop? ==> forall j | 0 <= j < i :: !t[j].CallLoop?
  {
    EveryEffectWasAllowed(goal, t, i);
    DigestMeans(t[..i]);
    assert forall j | 0 <= j < i :: t[..i][j] == t[j];
  }

  /** While the kill switch never reads as on, nothing is written. */
  lemma SwitchedOffMeansNoWrites(goal: string, t: seq<Effect>)
    requires Safe(goal, t) && ReadSwitch(true) !in t
    ensures forall e | e in t :: !IsWrite(e)
  {
    forall e | e in t ensures !IsWrite(e) {
      var i :| 0 <= i < |t| && t[i] == e;
      SkillsAndPlansAreGated(goal, t, i);
    }
  }

  /** The digest counts the successful memory writes. */
  function MemoryWrites(t: seq<Effect>): nat {
    if t == [] then 0
    else MemoryWrites(t[..|t| - 1]) + if t[|t| - 1].AddMemory? && t[|t| - 1].ok then 1 else 0
  }

  lemma {:induction false} CapturedCountsMemoryWrites(t: seq<Effect>)
    ensures DigestOf(t).captured == MemoryWrites(t)
  {
    if t != [] {
      CapturedCountsMemoryWrites(t[..|t| - 1]);
    }
  }

  // ----- What the shape of a run implies -----

  /** Some effect after the first `n` is a report. */
  ghost predicate ReportedAfter(t: seq<Effect>, n: nat) {
    exists k :: n <= k < |t| && t[k].Report?
  }

  lemma {:induction false} TriedExtends(t: seq<Effect>, attempts: seq<Attempt>)
    ensures t <= Tried(t, attempts)
  {
    if attempts != [] {
      TriedExtends(t, attempts[..|attempts| - 1]);
    }
  }

  lemma PromotesExtends(t: seq<Effect>, t': seq<Effect>, name: Option<string>)
    requires Promotes(t, t', name)
    ensures t <= t'
  {
    forall attempts: seq<Attempt> ensures t <= Tried(t, attempts) { TriedExtends(t, attempts); }
  }

  lemma WinsExtends(goal: string, loop: LoopResult, t: seq<Effect>, t': seq<Effect>, captured: nat)
    requires Wins(goal, loop, t, t', captured)
    ensures t <= t' && |t| < |t'| && (captured == 0 ==> t'[|t'| - 1].Report?)
  {
  }

  lemma ConsolidatesExtends(t: seq<Effect>, t': seq<Effect>)
    requires Consolidates(t, t')
    ensures t <= t'
  {
  }

  /** The learning phase of a win that read the switch as on: what it adds, in three steps. */
  lemma FullLearning(
      goal: string, loop: LoopResult, t: seq<Effect>, t1: seq<Effect>, t2: seq<Effect>, t': seq<Effect>,
      name: Option<string>, captured: nat)
    requires Wins(goal, loop, t, t1, captured) && Promotes(t1, t2, name) && Consolidates(t2, t')
    ensures t <= t' && (captured == 0 ==> ReportedAfter(t', |t|))
  {
    WinsExtends(goal, loop, t, t1, captured);
    PromotesExtends(t1, t2, name);
    ConsolidatesExtends(t2, t');
    assert t'[|t1| - 1] == t1[|t1| - 1];
  }

  /** The memory of a win says so, names the goal and the last action, and is quarantined. */
  lemma WinMemoryReads(goal: string, loop: LoopResult)
    ensures var m := WinMemory(goal, loop);
      var action := match loop.lastAction case Some(a) => a case None => "";
      && m.kind == "decision" && m.title == "Autopilot win: " + Take(goal, 80)
      && m.summary == "Autopilot converged on goal: " + Take(goal, 200) + ". Winning action: " + Take(action, 300) + "."
      && m.sourceRef == "unpromoted:autopilot:engine"
  {
    StripOfTrimmed("autopilot:engine");
  }

  /** The only memory a win may write is its own, and `captured` says whether that succeeded. */
  lemma WinWritesItsMemory(goal: string, loop: LoopResult, t: seq<Effect>, t': seq<Effect>, captured: nat, k: nat)
    requires Wins(goal, loop, t, t', captured) && |t| <= k < |t'| && t'[k].AddMemory?
    ensures t'[k] == AddMemory(WinMemory(goal, loop), captured == 1)
  {
  }

  /** A learning phase only adds to the trace, and a win that leaves no memory is always reported. */
  lemma LostWinsAreReported(
      goal: string, loop: LoopResult, t: seq<Effect>, t': seq<Effect>, name: Option<string>, captured: nat)
    requires Learns(goal, loop, t, t', name, captured)
    ensures t <= t' && (captured > 0 ==> loop.converged)
    ensures loop.converged && captured == 0 ==> ReportedAfter(t', |t|)
  {
    var on, off := t + [ReadSwitch(true)], t + [ReadSwitch(false)];
    if loop.converged && t' == off + [Report("LEARN", "suppressed")] {
      assert t'[|off|].Report?;
    } else if loop.converged {
      var t1: seq<Effect>, t2: seq<Effect> :|
        Wins(goal, loop, on, t1, captured) && Promotes(t1, t2, name) && Consolidates(t2, t');
      FullLearning(goal, loop, on, t1, t2, t', name, captured);
    }
  }

  /** A plan is queued for review, or what kept it out is reported. */
  lemma LostPlansAreReported(goal: string, planText: string, t: seq<Effect>, t': seq<Effect>)
    requires Stages(goal, planText, t, t')
    ensures ReportedAfter(t', |t|) <==> Stage(PlanProposal(goal, planText), true) !in t'[|t|..]
  {
    assert forall k | |t| <= k < |t'| :: t'[k] == t'[|t|..][k - |t|];
    var last := t'[|t'| - 1];
    assert last.Report? || last == Stage(PlanProposal(goal, planText), true);
  }

  /**
    What the clean scan covers of a staged proposal: the end of its summary, which is the beginning of a plan
    scanned clean. The rest is the goal and fixed text.
   */
  lemma StagedPlanWasScanned(goal: string, t: seq<Effect>, i: nat)
    requires Safe(goal, t) && i < |t| && t[i].Stage?
    ensures t[i].proposal.title == "Autopilot plan: " + Take(goal, 80)
    ensures exists j, plan ::
              && 0 <= j < i && t[j] == Scan(plan, true) && Take(plan, 800) <= plan
              && t[i].proposal.summary == PLAN_INTRO + Take(goal, 200) + ".\n\n" + Take(plan, 800)
  {
    SkillsAndPlansAreGated(goal, t, i);
  }

  /** The goal itself is staged unscanned: this is a run's staging of a clean plan, whatever the goal holds. */
  lemma GoalIsStagedUnscanned(goal: string, plan: string)
    ensures var t := [ReadSwitch(true)] + [Scan(plan, true)] + [Stage(PlanProposal(goal, plan), true)];
      && Safe(goal, t) && Stages(goal, plan, [], t)
      && forall text, clean | Scan(text, clean) in t :: text == plan
  {
    var t1, t2 := [ReadSwitch(true)], [ReadSwitch(true)] + [Scan(plan, true)];
    var t := t2 + [Stage(PlanProposal(goal, plan), true)];
    assert [] + t1 == t1 && t1[..0] == [] && t2[..1] == t1 && t[..2] == t2;
    assert DigestOf(t1).enabled && DigestOf(t2).cleanText == Some(plan);
    assert Safe(goal, t1);
    assert Safe(goal, t2);
  }

  /**
    A real run calls the loop exactly on the goal, with the plan if one was used, and reports success exactly
    if that loop converged and its last iteration verified, and a captured memory only if it converged.
   */
  lemma RunActsOnItsGoal(goal: string, wantPlan: bool, t: seq<Effect>, r: AutopilotResult)
    requires Runs(goal, false, wantPlan, t, r)
    ensures r.planUsed ==> wantPlan
    ensures exists k, plan: Option<string> ::
              && 0 <= k < |t| && t[k].CallLoop? && t[k].goal == ActGoal(goal, plan) && plan.Some? == r.planUsed
              && (r.verified <==> t[k].converged && t[k].proved) && (r.captured > 0 ==> t[k].converged)
    ensures !r.planUsed ==> exists k :: 0 <= k < |t| && t[k].CallLoop? && t[k].goal == goal
    ensures r.planUsed ==> exists k, plan: string ::
              && 0 <= k < |t| && t[k].CallLoop? && plan != ""
              && t[k].goal == goal + "\n\n## Implementation plan\n\n" + plan
              && (exists s :: Stages(goal, plan, KNOW + [CallPlanner], s) && s <= t)
  {
    var t1: seq<Effect>, plan: Option<string> :|
      (if wantPlan then Plans(goal, KNOW, t1, plan) else t1 == KNOW && plan.None?) && Acts(goal, plan, t1, t, r);
    LoopOfAct(goal, plan, t1, t, r);
    assert t[|t1|].CallLoop? && t[|t1|].goal == ActGoal(goal, plan);
    if r.planUsed {
      assert Stages(goal, plan.value, KNOW + [CallPlanner], t1);
    }
  }

  lemma LoopOfAct(goal: string, plan: Option<string>, t: seq<Effect>, t': seq<Effect>, r: AutopilotResult)
    requires Acts(goal, plan, t, t', r)
    ensures t <= t'
    ensures |t| < |t'| && t'[|t|].CallLoop? && t'[|t|].goal == ActGoal(goal, plan) && plan.Some? == r.planUsed
    ensures r.verified <==> t'[|t|].converged && t'[|t|].proved
    ensures r.captured > 0 ==> t'[|t|].converged
  {
    var loop: LoopResult, t1: seq<Effect> :|
      && Learns(goal, loop, t + [CallLoop(ActGoal(goal, plan), loop.converged, loop.lastVerified)] + [Snapshot], t1,
                r.skillName, r.captured)
      && t' == t1 + [Snapshot]
      && r == AutopilotResult(
        loop.converged && loop.lastVerified, r.captured, r.skillName, plan.Some?, loop.stopReason);
    var called := t + [CallLoop(ActGoal(goal, plan), loop.converged, loop.lastVerified)] + [Snapshot];
    LostWinsAreReported(goal, loop, called, t1, r.skillName, r.captured);
    assert t'[|t|] == called[|t|];
  }
}
