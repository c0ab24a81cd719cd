/**
  The pre-run check (packages/types/src/cost.ts): which budget levels a spend touches, what each
  level decides, and how the levels combine.
 */
module SpendCheck {
  import opened Options
  import opened StableSort

  datatype Scope = Company | Department | Person | Objective | Agent

  /** BUDGET_SCOPE_ORDER: outermost first. */
  function Rank(scope: Scope): nat {
    match scope
    case Company => 0
    case Department => 1
    case Person => 2
    case Objective => 3
    case Agent => 4
  }

  const OUTERMOST_FIRST := [Company, Department, Person, Objective, Agent]

  lemma {:induction false} RankIsThePlace(i: nat)
    requires i < |OUTERMOST_FIRST|
    ensures Rank(OUTERMOST_FIRST[i]) == i
  {
  }

  datatype Level = Level(scope: Scope, subject: Option<string>)

  const COMPANY := Level(Company, None)

  datatype Context = Context(
    department: Option<string>, objective: Option<string>, agent: Option<string>, actor: Option<string>)

  function At(scope: Scope, subject: Option<string>): seq<Level> {
    if subject.Some? then [Level(scope, subject)] else []
  }

  function LevelsOf(ctx: Context): seq<Level> {
    [COMPANY] + At(Department, ctx.department) + At(Person, ctx.actor) + At(Objective, ctx.objective) + At(Agent, ctx.agent)
  }

  method ScopesToCheck(ctx: Context) returns (levels: seq<Level>)
    ensures levels == LevelsOf(ctx)
  {
    levels := [COMPANY];
    if ctx.department.Some? { levels := levels + [Level(Department, ctx.department)]; }
    if ctx.actor.Some? { levels := levels + [Level(Person, ctx.actor)]; }
    if ctx.objective.Some? { levels := levels + [Level(Objective, ctx.objective)]; }
    if ctx.agent.Some? { levels := levels + [Level(Agent, ctx.agent)]; }
  }

  ghost predicate RanksIncrease(levels: seq<Level>) {
    forall i, j :: 0 <= i < j < |levels| ==> Rank(levels[i].scope) < Rank(levels[j].scope)
  }

  /** The subject that a context gives for a scope. */
  function SubjectOf(ctx: Context, scope: Scope): Option<string> {
    match scope
    case Company => None
    case Department => ctx.department
    case Person => ctx.actor
    case Objective => ctx.objective
    case Agent => ctx.agent
  }

  lemma {:induction false} RanksOfConcat(outer: seq<Level>, scope: Scope, subject: Option<string>)
    requires RanksIncrease(outer) && forall level :: level in outer ==> Rank(level.scope) < Rank(scope)
    ensures RanksIncrease(outer + At(scope, subject))
    ensures forall level :: level in outer + At(scope, subject) ==> Rank(level.scope) <= Rank(scope)
  {
  }

  lemma {:induction false} RanksOfLevels(ctx: Context)
    ensures RanksIncrease(LevelsOf(ctx))
  {
    RanksOfConcat([COMPANY], Department, ctx.department);
    RanksOfConcat([COMPANY] + At(Department, ctx.department), Person, ctx.actor);
    RanksOfConcat([COMPANY] + At(Department, ctx.department) + At(Person, ctx.actor), Objective, ctx.objective);
    RanksOfConcat([COMPANY] + At(Department, ctx.department) + At(Person, ctx.actor) + At(Objective, ctx.objective), Agent, ctx.agent);
  }

  lemma {:induction false} MembersOfLevels(ctx: Context, level: Level)
    ensures level in LevelsOf(ctx) <==>
            level == COMPANY || (level.subject.Some? && level.subject == SubjectOf(ctx, level.scope))
  {
    var d, p, o, a := At(Department, ctx.department), At(Person, ctx.actor), At(Objective, ctx.objective), At(Agent, ctx.agent);
    assert level in LevelsOf(ctx) <==> level == COMPANY || level in d || level in p || level in o || level in a;
  }

  /** Whatever the context, the levels come outermost first and no scope comes twice. */
  lemma {:induction false} LevelsComeOutermostFirst(ctx: Context)
    ensures RanksIncrease(LevelsOf(ctx))
    ensures LevelsOf(ctx)[0] == COMPANY
    ensures forall level :: level in LevelsOf(ctx) <==>
              level == COMPANY
              || (level.subject.Some? && level.subject ==
                    match level.scope
                    case Company => None
                    case Department => ctx.department
                    case Person => ctx.actor
                    case Objective => ctx.objective
                    case Agent => ctx.agent)
  {
    RanksOfLevels(ctx);
    forall level
      ensures level in LevelsOf(ctx) <==>
              level == COMPANY || (level.subject.Some? && level.subject == SubjectOf(ctx, level.scope))
    {
      MembersOfLevels(ctx, level);
    }
  }

  // ----- one level -----

  datatype SpendDecision = Allowed | NeedsApproval | HardStopped

  datatype LevelCheck = LevelCheck(level: Level, remaining: int, percentAfter: int, decision: SpendDecision)

  function RemainingMinor(allowance: int, used: int, reserved: int): int { allowance - used - reserved }

  /** Math.floor(committed / allowance * 100), exactly; 0 when nothing is allowed. */
  function CommittedPercent(allowance: int, used: int, reserved: int): int {
    if allowance <= 0 then 0 else (used + reserved) * 100 / allowance
  }

  /** Math.floor(allowance * hardStopPercent / 100) */
  function Ceiling(allowance: int, hardStopPercent: int): int { allowance * hardStopPercent / 100 }

  function DecideLevel(
    level: Level, allowance: Option<int>, used: int, reserved: int, estimate: int, approvalPercent: int, hardStopPercent: int
  ): LevelCheck {
    match allowance
    case None => LevelCheck(level, 0, 0, Allowed)
    case Some(a) =>
      var percentAfter := CommittedPercent(a, used, reserved + estimate);
      LevelCheck(level, RemainingMinor(a, used, reserved), percentAfter,
                 if used + reserved + estimate > Ceiling(a, hardStopPercent) then HardStopped
                 else if percentAfter >= approvalPercent then NeedsApproval
                 else Allowed)
  }

  lemma {:induction false} FloorBelow(n: int, d: int, bound: int)
    requires d > 0
    ensures n / d >= bound <==> n >= bound * d
  {
    assert n == n / d * d + n % d;
    if n / d >= bound { MulOrder(bound, n / d, d); } else { MulOrder(n / d + 1, bound, d); }
  }

  lemma {:induction false} MulOrder(a: int, b: int, d: int)
    requires a <= b && d >= 0
    ensures a * d <= b * d
  {
    assert (b - a) * d >= 0;
    assert b * d == a * d + (b - a) * d;
  }

  /**
    Flooring loses nothing: a configured level stops exactly when the committed total would exceed
    the exact percentage of its allowance, and asks for approval exactly from the exact threshold on.
   */
  lemma {:induction false} DecisionIsExact(
    level: Level, a: int, used: int, reserved: int, estimate: int, approvalPercent: int, hardStopPercent: int)
    ensures var committed := used + reserved + estimate;
            var check := DecideLevel(level, Some(a), used, reserved, estimate, approvalPercent, hardStopPercent);
            && (check.decision == HardStopped <==> committed * 100 > a * hardStopPercent)
            && (check.decision == NeedsApproval <==>
                  committed * 100 <= a * hardStopPercent
                  && if a > 0 then committed * 100 >= approvalPercent * a else approvalPercent <= 0)
  {
    var committed := used + reserved + estimate;
    FloorBelow(a * hardStopPercent, 100, committed);
    if a > 0 { FloorBelow(committed * 100, a, approvalPercent); }
  }

  /** What a level reports: itself, what is left of its allowance now, and the floored percentage after the spend. */
  lemma {:induction false} CheckReports(
    level: Level, a: int, used: int, reserved: int, estimate: int, approvalPercent: int, hardStopPercent: int)
    ensures var check := DecideLevel(level, Some(a), used, reserved, estimate, approvalPercent, hardStopPercent);
            var committed := used + reserved + estimate;
            && check.level == level && check.remaining == a - used - reserved
            && if a <= 0 then check.percentAfter == 0
               else check.percentAfter * a <= committed * 100 < (check.percentAfter + 1) * a
  {
    if a > 0 {
      var n := (used + reserved + estimate) * 100;
      FloorBelow(n, a, n / a);
      FloorBelow(n, a, n / a + 1);
    }
  }

  /** A level without a wallet allows every spend and asks nobody. */
  lemma {:induction false} AbsentLevelAllows(level: Level, used: int, reserved: int, estimate: int, approvalPercent: int, hardStopPercent: int)
    ensures DecideLevel(level, None, used, reserved, estimate, approvalPercent, hardStopPercent) == LevelCheck(level, 0, 0, Allowed)
  {
  }

  // ----- the levels together -----

  datatype Outcome = Outcome(decision: SpendDecision, binding: Option<LevelCheck>, levels: seq<LevelCheck>)

  function CheckRank(check: LevelCheck): real { Rank(check.level.scope) as real }

  function FirstDeciding(checks: seq<LevelCheck>, decision: SpendDecision): (r: Option<LevelCheck>)
    ensures r.None? <==> forall check :: check in checks ==> check.decision != decision
    ensures r.Some? ==> r.value in checks && r.value.decision == decision
  {
    if checks == [] then None
    else if checks[0].decision == decision then Some(checks[0])
    else FirstDeciding(checks[1..], decision)
  }

  function CombineLevels(checks: seq<LevelCheck>): Outcome {
    var ordered := Sort(checks, CheckRank);
    var stopped := FirstDeciding(ordered, HardStopped);
    var approval := FirstDeciding(ordered, NeedsApproval);
    if stopped.Some? then Outcome(HardStopped, stopped, ordered)
    else if approval.Some? then Outcome(NeedsApproval, approval, ordered)
    else Outcome(Allowed, None, ordered)
  }

  lemma {:induction false} FirstIsOutermost(checks: seq<LevelCheck>, decision: SpendDecision, check: LevelCheck)
    requires Ascending(checks, CheckRank) && check in checks && check.decision == decision
    ensures FirstDeciding(checks, decision).Some? && CheckRank(FirstDeciding(checks, decision).value) <= CheckRank(check)
  {
    var i :| 0 <= i < |checks| && checks[i] == check;
    if checks[0].decision == decision {
      assert i == 0 || CheckRank(checks[0]) <= CheckRank(checks[i]);
    } else {
      assert checks[1..][i - 1] == check;
      FirstIsOutermost(checks[1..], decision, check);
    }
  }

  function Severity(decision: SpendDecision): nat {
    match decision
    case Allowed => 0
    case NeedsApproval => 1
    case HardStopped => 2
  }

  /** The strictest level decides, and among the strictest the outermost is the one reported. */
  lemma {:induction false} StrictestOutermostBinds(checks: seq<LevelCheck>)
    ensures var outcome := CombineLevels(checks);
            && (outcome.decision == HardStopped <==> exists check :: check in checks && check.decision == HardStopped)
            && (outcome.decision == NeedsApproval <==>
                  && (exists check :: check in checks && check.decision == NeedsApproval)
                  && forall check :: check in checks ==> check.decision != HardStopped)
            && (forall check :: check in checks ==> Severity(check.decision) <= Severity(outcome.decision))
            && (outcome.decision == Allowed <==> outcome.binding == None)
            && (outcome.binding.Some? ==>
                  && outcome.binding.value in checks
                  && outcome.binding.value.decision == outcome.decision
                  && forall check :: check in checks && check.decision == outcome.decision ==>
                       Rank(outcome.binding.value.level.scope) <= Rank(check.level.scope))
  {
    SortIsStable(checks, CheckRank);
    MembersOfSort(checks, CheckRank);
    var outcome := CombineLevels(checks);
    forall check | check in checks && check.decision == outcome.decision && outcome.binding.Some?
      ensures Rank(outcome.binding.value.level.scope) <= Rank(check.level.scope)
    {
      FirstIsOutermost(Sort(checks, CheckRank), outcome.decision, check);
    }
  }
}
