/**
  Dependency release (packages/types/src/assignments.ts, and the release step of
  apps/api/src/tasks/work-release.service.ts) as a machine that people, agents and approvers step in
  any interleaving. The server releases work only within the transaction that finishes a step.
 */
module TaskRelease {
  import opened PlanGraph

  datatype Status =
    | Waiting | Assigned | InProgress | Blocked | NeedsInput
    | WaitingApproval | Submitted | Completed | Cancelled

  function AllowedTransitions(from: Status): set<Status> {
    match from
    case Waiting => {Cancelled}
    case Assigned => {InProgress, Blocked, NeedsInput, Cancelled}
    case InProgress => {Blocked, NeedsInput, WaitingApproval, Submitted, Cancelled}
    case Blocked => {InProgress, NeedsInput, Cancelled}
    case NeedsInput => {InProgress, Blocked, Cancelled}
    case WaitingApproval => {InProgress, Submitted, Cancelled}
    case Submitted => {InProgress, WaitingApproval, Completed, Cancelled}
    case Completed => {}
    case Cancelled => {}
  }

  predicate MayMoveHumanTask(from: Status, to: Status) { to in AllowedTransitions(from) }

  predicate MayReleaseHumanTask(status: Status) { status == Waiting }

  predicate DependenciesSatisfied(dependsOn: seq<string>, finished: set<string>, planned: set<string>) {
    forall id :: id in dependsOn ==> id !in planned || id in finished
  }

  /** The work items of a published plan: what each depends on, which are human tasks and which agent steps; the rest are approvals. */
  datatype Plan = Plan(dependsOn: map<string, seq<string>>, human: set<string>, ai: set<string>)

  ghost predicate ValidPlan(plan: Plan) { plan.human <= plan.dependsOn.Keys && plan.ai <= plan.dependsOn.Keys - plan.human }

  /** The dependencies between planned items; a dependency on anything else is not waited for. */
  function PlannedGraph(plan: Plan): Graph {
    map id | id in plan.dependsOn :: Among(plan.dependsOn[id], plan.dependsOn.Keys)
  }

  /**
    The status of every human task; the agent steps with a completed run and the approvals that were
    given; and the agent steps and approvals that were cancelled.
   */
  datatype State = State(tasks: map<string, Status>, done: set<string>, withdrawn: set<string>)

  datatype Event =
    | Move(id: string, to: Status)
    | RunCompleted(id: string)
    | Approve(id: string)
    | Withdraw(id: string)

  predicate IsFinished(status: Status) { status == Completed || status == Cancelled }

  function Finished(s: State): set<string> {
    (set id | id in s.tasks && IsFinished(s.tasks[id])) + s.done + s.withdrawn
  }

  predicate Ready(plan: Plan, finished: set<string>, id: string)
    requires id in plan.dependsOn
  {
    DependenciesSatisfied(plan.dependsOn[id], finished, plan.dependsOn.Keys)
  }

  function Assign(plan: Plan): State
    requires ValidPlan(plan)
  {
    State(map id | id in plan.human :: if Ready(plan, {}, id) then Assigned else Waiting, {}, {})
  }

  /** Every waiting task whose dependencies are among the finished ones is handed out. */
  function ReleaseSeeing(plan: Plan, s: State, finished: set<string>): State {
    s.(tasks := map id | id in s.tasks ::
         if id in plan.dependsOn && MayReleaseHumanTask(s.tasks[id]) && Ready(plan, finished, id) then Assigned else s.tasks[id])
  }

  function ReleaseAll(plan: Plan, s: State): State { ReleaseSeeing(plan, s, Finished(s)) }

  /** A completion, a finished agent run and an approval release what they can; a cancellation releases nothing. */
  function Step(plan: Plan, s: State, e: Event): State {
    match e
    case Move(id, to) =>
      if id in s.tasks && MayMoveHumanTask(s.tasks[id], to) then
        var moved := s.(tasks := s.tasks[id := to]);
        if to == Completed then ReleaseAll(plan, moved) else moved
      else s
    case RunCompleted(id) => if id in plan.ai then ReleaseAll(plan, s.(done := s.done + {id})) else s
    case Approve(id) =>
      if id in Approvals(plan) && id !in s.done && id !in s.withdrawn then ReleaseAll(plan, s.(done := s.done + {id})) else s
    case Withdraw(id) =>
      if id in plan.ai || (id in Approvals(plan) && id !in s.done) then s.(withdrawn := s.withdrawn + {id}) else s
  }

  function Approvals(plan: Plan): set<string> { plan.dependsOn.Keys - plan.human - plan.ai }

  function Run(plan: Plan, s: State, events: seq<Event>): State {
    if events == [] then s else Step(plan, Run(plan, s, events[..|events| - 1]), events[|events| - 1])
  }

  // ----- safety -----

  /** Work that has been handed out had all its planned dependencies finished. */
  ghost predicate Safe(plan: Plan, s: State) {
    && s.tasks.Keys == plan.human
    && s.done + s.withdrawn <= plan.dependsOn.Keys - plan.human
    && forall id :: id in s.tasks && id in plan.dependsOn && s.tasks[id] != Waiting && s.tasks[id] != Cancelled ==>
         Ready(plan, Finished(s), id)
  }

  lemma {:induction false} ReleaseFinishesNothing(plan: Plan, s: State)
    ensures Finished(ReleaseAll(plan, s)) == Finished(s)
  {
  }

  lemma {:induction false} FinishedIsForGood(plan: Plan, s: State, e: Event)
    ensures Finished(s) <= Finished(Step(plan, s, e))
  {
    match e
    case Move(id, to) => ReleaseFinishesNothing(plan, s.(tasks := s.tasks[id := to]));
    case RunCompleted(id) => ReleaseFinishesNothing(plan, s.(done := s.done + {id}));
    case Approve(id) => ReleaseFinishesNothing(plan, s.(done := s.done + {id}));
    case Withdraw(_) =>
  }

  lemma {:induction false} ReleaseIsSafe(plan: Plan, s: State)
    requires ValidPlan(plan) && Safe(plan, s)
    ensures Safe(plan, ReleaseAll(plan, s))
  {
    ReleaseFinishesNothing(plan, s);
  }

  lemma {:induction false} MoveIsSafe(plan: Plan, s: State, id: string, to: Status)
    requires ValidPlan(plan) && Safe(plan, s) && id in s.tasks && MayMoveHumanTask(s.tasks[id], to)
    ensures Safe(plan, s.(tasks := s.tasks[id := to]))
  {
    assert Finished(s) <= Finished(s.(tasks := s.tasks[id := to]));
  }

  lemma {:induction false} StepIsSafe(plan: Plan, s: State, e: Event)
    requires ValidPlan(plan) && Safe(plan, s)
    ensures Safe(plan, Step(plan, s, e))
  {
    match e
    case Move(id, to) =>
      if id in s.tasks && MayMoveHumanTask(s.tasks[id], to) {
        MoveIsSafe(plan, s, id, to);
        ReleaseIsSafe(plan, s.(tasks := s.tasks[id := to]));
      }
    case RunCompleted(id) => if id in plan.ai { ReleaseIsSafe(plan, s.(done := s.done + {id})); }
    case Approve(id) => if id in Approvals(plan) { ReleaseIsSafe(plan, s.(done := s.done + {id})); }
    case Withdraw(_) =>
  }

  lemma {:induction false} RunIsSafe(plan: Plan, s: State, events: seq<Event>)
    requires ValidPlan(plan) && Safe(plan, s)
    ensures Safe(plan, Run(plan, s, events)) && Finished(s) <= Finished(Run(plan, s, events))
  {
    if events != [] {
      RunIsSafe(plan, s, events[..|events| - 1]);
      StepIsSafe(plan, Run(plan, s, events[..|events| - 1]), events[|events| - 1]);
      FinishedIsForGood(plan, Run(plan, s, events[..|events| - 1]), events[|events| - 1]);
    }
  }

  /**
    In every run, a task that is neither waiting nor cancelled has every planned dependency finished:
    a human one is completed or cancelled, any other one is done or withdrawn.
   */
  lemma {:induction false} NothingStartsEarly(plan: Plan, events: seq<Event>, id: string, dependency: string)
    requires ValidPlan(plan) && id in plan.human
    requires dependency in plan.dependsOn[id] && dependency in plan.dependsOn
    ensures var s := Run(plan, Assign(plan), events);
            && id in s.tasks
            && (s.tasks[id] == Waiting || s.tasks[id] == Cancelled || dependency in Finished(s))
            && (dependency in plan.human && dependency in Finished(s) ==> dependency in s.tasks && IsFinished(s.tasks[dependency]))
  {
    RunIsSafe(plan, Assign(plan), events);
  }

  /** How each status can be reached by a person's move; Waiting and Assigned cannot. */
  lemma {:induction false} HowAStatusIsReached(from: Status, to: Status)
    ensures !MayMoveHumanTask(from, Waiting) && !MayMoveHumanTask(from, Assigned)
    ensures MayMoveHumanTask(from, InProgress) <==> from in {Assigned, Blocked, NeedsInput, WaitingApproval, Submitted}
    ensures MayMoveHumanTask(from, Blocked) <==> from in {Assigned, InProgress, NeedsInput}
    ensures MayMoveHumanTask(from, NeedsInput) <==> from in {Assigned, InProgress, Blocked}
    ensures MayMoveHumanTask(from, WaitingApproval) <==> from in {InProgress, Submitted}
    ensures MayMoveHumanTask(from, Submitted) <==> from in {InProgress, WaitingApproval}
    ensures MayMoveHumanTask(from, Completed) <==> from == Submitted
    ensures MayMoveHumanTask(from, Cancelled) <==> from != Completed && from != Cancelled
  {
  }

  /** The events that finish an item, and so release. */
  ghost predicate FinishesSomething(plan: Plan, s: State, e: Event) {
    match e
    case Move(id, to) => to == Completed && id in s.tasks && s.tasks[id] == Submitted
    case RunCompleted(id) => id in plan.ai
    case Approve(id) => id in plan.dependsOn && id !in plan.human && id !in plan.ai && id !in s.done && id !in s.withdrawn
    case Withdraw(_) => false
  }

  /**
    A task changes status in two ways only: it is moved by name as a person may move it, or it was
    waiting and is handed out by the server, when an event finishes something and all that it depends
    on, as far as it is planned, has finished.
   */
  lemma {:induction false} TasksMoveByNameOrRelease(plan: Plan, s: State, e: Event, id: string)
    requires ValidPlan(plan) && Safe(plan, s) && id in s.tasks
    ensures id in Step(plan, s, e).tasks
    ensures var x, y := s.tasks[id], Step(plan, s, e).tasks[id];
            || x == y
            || (e == Move(id, y) && MayMoveHumanTask(x, y))
            || (x == Waiting && y == Assigned && FinishesSomething(plan, s, e)
                && forall d :: d in plan.dependsOn[id] && d in plan.dependsOn ==> d in Finished(Step(plan, s, e)))
  {
    match e
    case Move(other, to) => ReleaseFinishesNothing(plan, s.(tasks := s.tasks[other := to]));
    case RunCompleted(other) => ReleaseFinishesNothing(plan, s.(done := s.done + {other}));
    case Approve(other) => ReleaseFinishesNothing(plan, s.(done := s.done + {other}));
    case Withdraw(_) =>
  }

  /** A permitted move of a task is made. */
  lemma {:induction false} PermittedMovesAreMade(plan: Plan, s: State, id: string, to: Status)
    requires id in s.tasks && MayMoveHumanTask(s.tasks[id], to)
    ensures Step(plan, s, Move(id, to)).tasks[id] == to
  {
  }

  /** A completed run counts for an agent step only, an approval for what is neither a task nor a step and is still open. */
  lemma {:induction false} WhatGetsDone(plan: Plan, s: State, e: Event, id: string)
    ensures id in Step(plan, s, e).done <==>
            || id in s.done
            || (e == RunCompleted(id) && id in plan.ai)
            || (e == Approve(id) && id in plan.dependsOn && id !in plan.human + plan.ai + s.done + s.withdrawn)
  {
  }

  /** An agent step can be withdrawn at any time, an approval until it is given, a task never. */
  lemma {:induction false} WhatGetsWithdrawn(plan: Plan, s: State, e: Event, id: string)
    ensures id in Step(plan, s, e).withdrawn <==>
            || id in s.withdrawn
            || (e == Withdraw(id) && (id in plan.ai || (id in plan.dependsOn && id !in plan.human + s.done)))
  {
  }

  /** At the start a task is Assigned if it depends on nothing planned, and waits otherwise. */
  lemma {:induction false} HowTasksStart(plan: Plan, id: string)
    requires ValidPlan(plan) && id in plan.human
    ensures Assign(plan).tasks.Keys == plan.human && Assign(plan).done == {} && Assign(plan).withdrawn == {}
    ensures Assign(plan).tasks[id] == if exists d :: d in plan.dependsOn[id] && d in plan.dependsOn then Waiting else Assigned
  {
  }

  // ----- nothing waits behind finished work -----

  /** No task waits although everything that it depends on has finished. */
  ghost predicate Prompt(plan: Plan, s: State) {
    forall id :: id in s.tasks && id in plan.dependsOn && s.tasks[id] == Waiting ==> !Ready(plan, Finished(s), id)
  }

  /** Any completion repairs the whole plan, whatever was missed before. */
  lemma {:induction false} ReleaseRepairs(plan: Plan, s: State)
    ensures Prompt(plan, ReleaseAll(plan, s))
  {
    ReleaseFinishesNothing(plan, s);
  }

  ghost predicate NothingCancelled(s: State) {
    s.withdrawn == {} && forall id :: id in s.tasks ==> s.tasks[id] != Cancelled
  }

  lemma {:induction false} StepIsPrompt(plan: Plan, s: State, e: Event)
    requires Prompt(plan, s) && NothingCancelled(Step(plan, s, e))
    ensures Prompt(plan, Step(plan, s, e))
  {
    match e
    case Move(id, to) =>
      var moved := s.(tasks := s.tasks[id := to]);
      ReleaseRepairs(plan, moved);
      if id in s.tasks && MayMoveHumanTask(s.tasks[id], to) && to != Completed {
        assert to != Cancelled by { assert Step(plan, s, e).tasks[id] == to; }
        assert Finished(moved) == Finished(s);
      }
    case RunCompleted(id) => ReleaseRepairs(plan, s.(done := s.done + {id}));
    case Approve(id) => ReleaseRepairs(plan, s.(done := s.done + {id}));
    case Withdraw(id) =>
  }

  lemma {:induction false} CancelledIsForGood(plan: Plan, s: State, e: Event, id: string)
    requires id in s.tasks && s.tasks[id] == Cancelled
    ensures id in Step(plan, s, e).tasks && Step(plan, s, e).tasks[id] == Cancelled
  {
  }

  lemma {:induction false} WithdrawnIsForGood(plan: Plan, s: State, e: Event)
    ensures s.withdrawn <= Step(plan, s, e).withdrawn
  {
  }

  /** In every run in which nothing is cancelled, no task waits behind finished work. */
  lemma {:induction false} NothingWaitsBehindFinishedWork(plan: Plan, events: seq<Event>)
    requires ValidPlan(plan) && NothingCancelled(Run(plan, Assign(plan), events))
    ensures Prompt(plan, Run(plan, Assign(plan), events))
  {
    if events == [] {
      assert Finished(Assign(plan)) == {};
    } else {
      var before, e := Run(plan, Assign(plan), events[..|events| - 1]), events[|events| - 1];
      WithdrawnIsForGood(plan, before, e);
      forall id | id in before.tasks ensures before.tasks[id] != Cancelled {
        if before.tasks[id] == Cancelled { CancelledIsForGood(plan, before, e, id); }
      }
      NothingWaitsBehindFinishedWork(plan, events[..|events| - 1]);
      StepIsPrompt(plan, before, e);
    }
  }

  /** So a task that waits, in a run without cancellations, waits on a planned item that has not finished. */
  lemma {:induction false} WaitingHasACause(plan: Plan, events: seq<Event>, id: string) returns (d: string)
    requires ValidPlan(plan) && NothingCancelled(Run(plan, Assign(plan), events))
    requires id in plan.human && id in Run(plan, Assign(plan), events).tasks && Run(plan, Assign(plan), events).tasks[id] == Waiting
    ensures d in plan.dependsOn[id] && d in plan.dependsOn
    ensures var s := Run(plan, Assign(plan), events);
            if d in plan.human then d in s.tasks && s.tasks[d] != Completed else d !in s.done
  {
    var s := Run(plan, Assign(plan), events);
    NothingWaitsBehindFinishedWork(plan, events);
    RunIsSafe(plan, Assign(plan), events);
    assert !Ready(plan, Finished(s), id);
    d :| d in plan.dependsOn[id] && d in plan.dependsOn && d !in Finished(s);
  }

  // ----- liveness -----

  lemma {:induction false} RunAppend(plan: Plan, s: State, a: seq<Event>, b: seq<Event>)
    ensures Run(plan, s, a + b) == Run(plan, Run(plan, s, a), b)
  {
    if b == [] {
      assert a + b == a;
    } else {
      RunAppend(plan, s, a, b[..|b| - 1]);
      assert (a + b)[..|a + b| - 1] == a + b[..|b| - 1];
    }
  }

  lemma {:induction false} RunOne(plan: Plan, s: State, e: Event)
    ensures Run(plan, s, [e]) == Step(plan, s, e)
  {
    assert Run(plan, s, [e][..0]) == s;
  }

  /** The moves a person makes to hand a task in, from where it stands. */
  function MovesToSubmit(id: string, status: Status): seq<Event> {
    match status
    case WaitingApproval => [Move(id, Submitted)]
    case InProgress => [Move(id, Submitted)]
    case Assigned => [Move(id, InProgress), Move(id, Submitted)]
    case Blocked => [Move(id, InProgress), Move(id, Submitted)]
    case NeedsInput => [Move(id, InProgress), Move(id, Submitted)]
    case _ => []
  }

  lemma {:induction false} OneMove(plan: Plan, s: State, id: string, to: Status, rest: seq<Event>)
    requires id in s.tasks && MayMoveHumanTask(s.tasks[id], to) && to != Completed
    ensures Run(plan, s, [Move(id, to)] + rest) == Run(plan, s.(tasks := s.tasks[id := to]), rest)
  {
    RunAppend(plan, s, [Move(id, to)], rest);
    RunOne(plan, s, Move(id, to));
  }

  lemma {:induction false} MovesSubmit(plan: Plan, s: State, id: string)
    requires id in s.tasks && s.tasks[id] != Waiting && !IsFinished(s.tasks[id])
    ensures Run(plan, s, MovesToSubmit(id, s.tasks[id])) == s.(tasks := s.tasks[id := Submitted])
    decreases |MovesToSubmit(id, s.tasks[id])|
  {
    var moves := MovesToSubmit(id, s.tasks[id]);
    if moves == [] {
      assert s.tasks[id := Submitted] == s.tasks;
    } else {
      var to := moves[0].to;
      var next := s.(tasks := s.tasks[id := to]);
      assert moves == [moves[0]] + MovesToSubmit(id, to);
      OneMove(plan, s, id, to, MovesToSubmit(id, to));
      MovesSubmit(plan, next, id);
      assert s.tasks[id := to][id := Submitted] == s.tasks[id := Submitted];
    }
  }

  function Unfinished(plan: Plan, s: State): set<string> { plan.dependsOn.Keys - Finished(s) }

  lemma {:induction false} Shallowest(ids: set<string>, depths: map<string, nat>) returns (id: string)
    requires ids != {} && ids <= depths.Keys
    ensures id in ids && forall other :: other in ids ==> depths[id] <= depths[other]
    decreases |ids|
  {
    id :| id in ids;
    if ids != {id} {
      assert ids - {id} != {} by { assert ids == {id} + (ids - {id}); }
      var other := Shallowest(ids - {id}, depths);
      if depths[other] < depths[id] { id := other; }
    }
  }

  /** Nothing is cancelled later that was not cancelled before. */
  ghost predicate CancelsNothing(before: State, after: State) {
    && after.withdrawn <= before.withdrawn
    && forall t :: t in after.tasks && after.tasks[t] == Cancelled ==> t in before.tasks && before.tasks[t] == Cancelled
  }

  lemma {:induction false} ShallowestIsReady(plan: Plan, s: State, depths: map<string, nat>, id: string)
    requires Levels(PlannedGraph(plan), depths) && id in Unfinished(plan, s)
    requires forall other :: other in Unfinished(plan, s) ==> depths[id] <= depths[other]
    ensures Ready(plan, Finished(s), id)
  {
    var g := PlannedGraph(plan);
    forall w | w in plan.dependsOn[id] && w in plan.dependsOn ensures w in Finished(s) {
      assert w in g[id];
      WaitsAreShallower(g, depths, id, w);
    }
  }

  /** Exactly one more item has finished, nothing was cancelled, and nothing waits behind finished work. */
  ghost predicate Finishes(plan: Plan, before: State, id: string, after: State) {
    Finished(after) == Finished(before) + {id} && CancelsNothing(before, after) && Prompt(plan, after)
  }

  lemma {:induction false} CompletingFinishesOne(plan: Plan, s: State, id: string)
    requires id in s.tasks && s.tasks[id] != Cancelled
    ensures Finishes(plan, s, id, ReleaseAll(plan, s.(tasks := s.tasks[id := Completed])))
  {
    var completed := s.(tasks := s.tasks[id := Completed]);
    ReleaseFinishesNothing(plan, completed);
    ReleaseRepairs(plan, completed);
    assert Finished(completed) == Finished(s) + {id};
  }

  lemma {:induction false} FinishTask(plan: Plan, s: State, id: string) returns (more: seq<Event>)
    requires id in s.tasks && s.tasks[id] != Waiting && !IsFinished(s.tasks[id])
    ensures Finishes(plan, s, id, Run(plan, s, more))
  {
    var moves := MovesToSubmit(id, s.tasks[id]);
    var submitted := s.(tasks := s.tasks[id := Submitted]);
    MovesSubmit(plan, s, id);
    more := moves + [Move(id, Completed)];
    RunAppend(plan, s, moves, [Move(id, Completed)]);
    RunOne(plan, submitted, Move(id, Completed));
    assert s.tasks[id := Submitted][id := Completed] == s.tasks[id := Completed];
    CompletingFinishesOne(plan, s, id);
  }

  lemma {:induction false} FinishOther(plan: Plan, s: State, id: string) returns (more: seq<Event>)
    requires id in plan.ai || (id in Approvals(plan) && id !in Finished(s))
    ensures Finishes(plan, s, id, Run(plan, s, more))
  {
    var e := if id in plan.ai then RunCompleted(id) else Approve(id);
    more := [e];
    RunOne(plan, s, e);
    var marked := s.(done := s.done + {id});
    assert Step(plan, s, e) == ReleaseAll(plan, marked);
    ReleaseFinishesNothing(plan, marked);
    ReleaseRepairs(plan, marked);
    assert Finished(marked) == Finished(s) + {id};
  }

  /** An unfinished item that is not a waiting task can be finished, by itself and without cancelling anything. */
  lemma {:induction false} FinishItem(plan: Plan, s: State, id: string) returns (more: seq<Event>)
    requires ValidPlan(plan) && Safe(plan, s) && id in Unfinished(plan, s)
    requires id in plan.human ==> s.tasks[id] != Waiting
    ensures Finishes(plan, s, id, Run(plan, s, more))
  {
    if id in plan.human {
      more := FinishTask(plan, s, id);
    } else {
      more := FinishOther(plan, s, id);
    }
  }

  /** Where nothing waits behind finished work, the shallowest unfinished item can be finished at once. */
  lemma {:induction false} FinishOne(plan: Plan, s: State, depths: map<string, nat>) returns (more: seq<Event>, id: string)
    requires ValidPlan(plan) && Safe(plan, s) && Prompt(plan, s) && Levels(PlannedGraph(plan), depths) && Unfinished(plan, s) != {}
    ensures id in Unfinished(plan, s) && Finishes(plan, s, id, Run(plan, s, more))
  {
    id := Shallowest(Unfinished(plan, s), depths);
    ShallowestIsReady(plan, s, depths, id);
    more := FinishItem(plan, s, id);
  }

  /**
    In an acyclic plan, wherever nothing waits behind finished work, every item can still be finished
    without cancelling anything.
   */
  lemma {:induction false} EveryRunCanFinish(plan: Plan, s: State, depths: map<string, nat>) returns (more: seq<Event>)
    requires ValidPlan(plan) && Safe(plan, s) && Prompt(plan, s) && Levels(PlannedGraph(plan), depths)
    ensures Unfinished(plan, Run(plan, s, more)) == {} && CancelsNothing(s, Run(plan, s, more))
    decreases |Unfinished(plan, s)|
  {
    if Unfinished(plan, s) == {} {
      more := [];
    } else {
      var first, id := FinishOne(plan, s, depths);
      var next := Run(plan, s, first);
      RunIsSafe(plan, s, first);
      assert Unfinished(plan, next) <= Unfinished(plan, s) - {id};
      SubsetSize(Unfinished(plan, next), Unfinished(plan, s) - {id});
      var rest := EveryRunCanFinish(plan, next, depths);
      more := first + rest;
      RunAppend(plan, s, first, rest);
    }
  }

  lemma {:induction false} FinishedIsCompleted(plan: Plan, before: State, after: State)
    requires ValidPlan(plan) && Safe(plan, after) && NothingCancelled(before) && CancelsNothing(before, after)
    requires Unfinished(plan, after) == {}
    ensures after.tasks.Keys == plan.human && (forall t :: t in plan.human ==> after.tasks[t] == Completed)
    ensures after.done == plan.dependsOn.Keys - plan.human && NothingCancelled(after)
  {
    assert forall id :: id in plan.dependsOn ==> id in Finished(after);
  }

  /** In an acyclic plan every run in which nothing is cancelled can be continued until every item is completed. */
  lemma {:induction false} AcyclicPlansComplete(plan: Plan, events: seq<Event>) returns (more: seq<Event>)
    requires ValidPlan(plan) && Acyclic(PlannedGraph(plan)) && NothingCancelled(Run(plan, Assign(plan), events))
    ensures var after := Run(plan, Assign(plan), events + more);
            && after.tasks.Keys == plan.human
            && (forall t :: t in plan.human ==> after.tasks[t] == Completed)
            && after.done == plan.dependsOn.Keys - plan.human && NothingCancelled(after)
  {
    var s := Run(plan, Assign(plan), events);
    var depths := AcyclicGraphHasLevels(PlannedGraph(plan));
    RunIsSafe(plan, Assign(plan), events);
    NothingWaitsBehindFinishedWork(plan, events);
    more := EveryRunCanFinish(plan, s, depths);
    RunAppend(plan, Assign(plan), events, more);
    RunIsSafe(plan, s, more);
    FinishedIsCompleted(plan, s, Run(plan, s, more));
  }

  // ----- what a cancellation can leave stuck -----

  /** Some continuation finishes every item without cancelling anything more. */
  ghost predicate CanFinish(plan: Plan, s: State) {
    exists more: seq<Event> :: Unfinished(plan, Run(plan, s, more)) == {} && CancelsNothing(s, Run(plan, s, more))
  }

  /** Everything unfinished is a waiting task, and there is no agent step whose next run could release it. */
  ghost predicate Stuck(plan: Plan, s: State) {
    && Unfinished(plan, s) != {} && plan.ai == {}
    && forall id :: id in Unfinished(plan, s) ==> id in plan.human && id in s.tasks && s.tasks[id] == Waiting
  }

  lemma {:induction false} StuckStep(plan: Plan, s: State, e: Event)
    requires ValidPlan(plan) && Safe(plan, s) && Stuck(plan, s)
    ensures Step(plan, s, e) == s || !CancelsNothing(s, Step(plan, s, e))
  {
    match e
    case Move(id, to) =>
      if id in s.tasks && MayMoveHumanTask(s.tasks[id], to) {
        assert id in Unfinished(plan, s);
        assert Step(plan, s, e).tasks[id] == Cancelled;
      }
    case RunCompleted(_) =>
    case Approve(id) => assert id in Approvals(plan) ==> id !in Unfinished(plan, s);
    case Withdraw(id) =>
      if id in Approvals(plan) && id !in s.done {
        assert id !in Unfinished(plan, s);
        assert s.withdrawn + {id} == s.withdrawn;
      }
  }

  lemma {:induction false} CancellingMore(plan: Plan, s: State, before: State, e: Event)
    requires !CancelsNothing(s, before)
    ensures !CancelsNothing(s, Step(plan, before, e))
  {
    WithdrawnIsForGood(plan, before, e);
    if t :| t in before.tasks && before.tasks[t] == Cancelled && !(t in s.tasks && s.tasks[t] == Cancelled) {
      CancelledIsForGood(plan, before, e, t);
    }
  }

  lemma {:induction false} StuckForGood(plan: Plan, s: State, more: seq<Event>)
    requires ValidPlan(plan) && Safe(plan, s) && Stuck(plan, s)
    ensures Run(plan, s, more) == s || !CancelsNothing(s, Run(plan, s, more))
  {
    if more != [] {
      var front, e := more[..|more| - 1], more[|more| - 1];
      StuckForGood(plan, s, front);
      if Run(plan, s, front) == s { StuckStep(plan, s, e); } else { CancellingMore(plan, s, Run(plan, s, front), e); }
    }
  }

  /** Unless everything is stuck, something can be finished, and that releases whatever was missed. */
  lemma {:induction false} Unstick(plan: Plan, s: State) returns (more: seq<Event>)
    requires ValidPlan(plan) && Safe(plan, s) && !Stuck(plan, s) && Unfinished(plan, s) != {}
    ensures CancelsNothing(s, Run(plan, s, more)) && Prompt(plan, Run(plan, s, more))
  {
    if plan.ai != {} {
      var id :| id in plan.ai;
      more := FinishOther(plan, s, id);
    } else {
      var id :| id in Unfinished(plan, s) && !(id in plan.human && s.tasks[id] == Waiting);
      more := FinishItem(plan, s, id);
    }
  }

  /** An acyclic plan can still be finished, from any state that a run reaches, exactly when it is not stuck. */
  lemma {:induction false} CanFinishExactlyWhen(plan: Plan, events: seq<Event>)
    requires ValidPlan(plan) && Acyclic(PlannedGraph(plan))
    ensures CanFinish(plan, Run(plan, Assign(plan), events)) <==> !Stuck(plan, Run(plan, Assign(plan), events))
  {
    var s := Run(plan, Assign(plan), events);
    RunIsSafe(plan, Assign(plan), events);
    if CanFinish(plan, s) {
      var more: seq<Event> :| Unfinished(plan, Run(plan, s, more)) == {} && CancelsNothing(s, Run(plan, s, more));
      if Stuck(plan, s) { StuckForGood(plan, s, more); }
    }
    if !Stuck(plan, s) && Unfinished(plan, s) != {} {
      var depths := AcyclicGraphHasLevels(PlannedGraph(plan));
      var first := Unstick(plan, s);
      RunIsSafe(plan, s, first);
      var rest := EveryRunCanFinish(plan, Run(plan, s, first), depths);
      RunAppend(plan, s, first, rest);
      assert Unfinished(plan, Run(plan, s, first + rest)) == {} && CancelsNothing(s, Run(plan, s, first + rest));
    } else if Unfinished(plan, s) == {} {
      assert Run(plan, s, []) == s;
    }
  }

  /** Two tasks, the second after the first: cancel the first, and the second waits behind it for ever. */
  lemma {:induction false} CancellingStrandsTheNext(a: string, b: string, plan: Plan)
    requires a != b && plan == Plan(map[a := [], b := [a]], {a, b}, {})
    ensures ValidPlan(plan)
    ensures var s := Run(plan, Assign(plan), [Move(a, Cancelled)]);
            && s.tasks == map[a := Cancelled, b := Waiting]
            && Ready(plan, Finished(s), b) && !CanFinish(plan, s)
  {
    var s0, e := Assign(plan), Move(a, Cancelled);
    assert a in plan.dependsOn[b];
    assert s0.tasks == map[a := Assigned, b := Waiting];
    RunOne(plan, s0, e);
    var s := Step(plan, s0, e);
    RunIsSafe(plan, s0, [e]);
    assert b in Unfinished(plan, s);
    assert Stuck(plan, s);
    forall more: seq<Event> ensures !(Unfinished(plan, Run(plan, s, more)) == {} && CancelsNothing(s, Run(plan, s, more))) {
      StuckForGood(plan, s, more);
    }
  }

  // ----- two completions at once -----

  /** Two tasks completed by overlapping transactions, each of which sees its own completion and not the other's. */
  function CompletedAtOnce(plan: Plan, s: State, a: string, b: string): State {
    var completed := s.(tasks := s.tasks[a := Completed][b := Completed]);
    ReleaseSeeing(plan, ReleaseSeeing(plan, completed, Finished(s) + {a}), Finished(s) + {b})
  }

  lemma {:induction false} ReleaseSeeingFinishesNothing(plan: Plan, s: State, finished: set<string>)
    ensures Finished(ReleaseSeeing(plan, s, finished)) == Finished(s)
  {
  }

  lemma {:induction false} StillWaits(plan: Plan, s: State, x: set<string>, y: set<string>, id: string)
    requires ValidPlan(plan) && s.tasks.Keys == plan.human && id in s.tasks
    ensures ReleaseSeeing(plan, ReleaseSeeing(plan, s, x), y).tasks[id] == Waiting <==>
            s.tasks[id] == Waiting && !Ready(plan, x, id) && !Ready(plan, y, id)
  {
  }

  /** A waiting task that needs both completions and no more. */
  predicate NeedsBoth(plan: Plan, s: State, a: string, b: string, id: string)
    requires id in s.tasks && id in plan.dependsOn
  {
    && s.tasks[id] == Waiting && Ready(plan, Finished(s) + {a, b}, id)
    && !Ready(plan, Finished(s) + {a}, id) && !Ready(plan, Finished(s) + {b}, id)
  }

  lemma {:induction false} CompletingFinishes(s: State, id: string)
    requires id in s.tasks
    ensures Finished(s.(tasks := s.tasks[id := Completed])) == Finished(s) + {id}
  {
  }

  lemma {:induction false} BothFinished(plan: Plan, s: State, a: string, b: string)
    requires a in s.tasks && b in s.tasks
    ensures Finished(CompletedAtOnce(plan, s, a, b)) == Finished(s) + {a, b}
    ensures CompletedAtOnce(plan, s, a, b).tasks.Keys == s.tasks.Keys
  {
    var f, first := Finished(s), s.(tasks := s.tasks[a := Completed]);
    var completed := first.(tasks := first.tasks[b := Completed]);
    CompletingFinishes(s, a);
    CompletingFinishes(first, b);
    assert f + {a} + {b} == f + {a, b};
    ReleaseSeeingFinishesNothing(plan, completed, f + {a});
    ReleaseSeeingFinishesNothing(plan, ReleaseSeeing(plan, completed, f + {a}), f + {b});
  }

  lemma {:induction false} MissedExactlyWhen(plan: Plan, s: State, a: string, b: string, id: string)
    requires ValidPlan(plan) && s.tasks.Keys == plan.human && id in s.tasks
    requires a in s.tasks && b in s.tasks && s.tasks[a] == Submitted && s.tasks[b] == Submitted
    ensures var after := CompletedAtOnce(plan, s, a, b);
            id in after.tasks && (after.tasks[id] == Waiting && Ready(plan, Finished(s) + {a, b}, id) <==> NeedsBoth(plan, s, a, b, id))
  {
    StillWaits(plan, s.(tasks := s.tasks[a := Completed][b := Completed]), Finished(s) + {a}, Finished(s) + {b}, id);
  }

  /** They miss exactly the tasks that needed both; the next completion repairs that. */
  lemma {:induction false} OverlapMissesExactly(plan: Plan, s: State, a: string, b: string)
    requires ValidPlan(plan) && s.tasks.Keys == plan.human
    requires a in s.tasks && b in s.tasks && s.tasks[a] == Submitted && s.tasks[b] == Submitted
    ensures Prompt(plan, CompletedAtOnce(plan, s, a, b)) <==> forall id :: id in s.tasks ==> !NeedsBoth(plan, s, a, b, id)
  {
    BothFinished(plan, s, a, b);
    forall id | id in s.tasks
      ensures CompletedAtOnce(plan, s, a, b).tasks[id] == Waiting && Ready(plan, Finished(s) + {a, b}, id) <==> NeedsBoth(plan, s, a, b, id)
    {
      MissedExactlyWhen(plan, s, a, b, id);
    }
  }

  // ----- cycles -----

  ghost predicate TaskCycle(plan: Plan, p: seq<string>) {
    Chain(PlannedGraph(plan), p) && |p| > 1 && p[0] == p[|p| - 1] && forall i :: 0 <= i < |p| ==> p[i] in plan.human
  }

  ghost predicate AllWait(s: State, p: seq<string>) {
    forall i :: 0 <= i < |p| ==> p[i] in s.tasks && s.tasks[p[i]] == Waiting
  }

  lemma {:induction false} NextOnCycle(plan: Plan, p: seq<string>, i: nat) returns (j: nat)
    requires TaskCycle(plan, p) && i < |p|
    ensures j < |p| && p[j] in plan.dependsOn[p[i]] && p[j] in plan.dependsOn
  {
    j := if i < |p| - 1 then i + 1 else 1;
    var k := if i < |p| - 1 then i else 0;
    assert p[k + 1] in PlannedGraph(plan)[p[k]];
  }

  ghost predicate OneIsCancelled(s: State, p: seq<string>) {
    exists i :: 0 <= i < |p| && p[i] in s.tasks && s.tasks[p[i]] == Cancelled
  }

  /** A release hands out nothing on a cycle of waiting tasks, because each of them waits for another. */
  lemma {:induction false} ReleaseSkipsCycle(plan: Plan, s: State, p: seq<string>)
    requires ValidPlan(plan) && TaskCycle(plan, p) && AllWait(s, p) && (s.done + s.withdrawn) !! plan.human
    ensures AllWait(ReleaseAll(plan, s), p)
  {
    forall i | 0 <= i < |p| ensures !Ready(plan, Finished(s), p[i]) {
      var j := NextOnCycle(plan, p, i);
      assert s.tasks[p[j]] == Waiting && p[j] in plan.human;
    }
  }

  lemma {:induction false} CycleMove(plan: Plan, s: State, p: seq<string>, id: string, to: Status)
    requires ValidPlan(plan) && Safe(plan, s) && TaskCycle(plan, p) && AllWait(s, p)
    ensures AllWait(Step(plan, s, Move(id, to)), p) || OneIsCancelled(Step(plan, s, Move(id, to)), p)
  {
    if id in s.tasks && MayMoveHumanTask(s.tasks[id], to) {
      var moved := s.(tasks := s.tasks[id := to]);
      if id in p {
        var i :| 0 <= i < |p| && p[i] == id;
        assert s.tasks[p[i]] == Waiting && moved.tasks[p[i]] == Cancelled;
      } else {
        assert AllWait(moved, p);
        ReleaseSkipsCycle(plan, moved, p);
      }
    }
  }

  lemma {:induction false} CycleStep(plan: Plan, s: State, p: seq<string>, e: Event)
    requires ValidPlan(plan) && Safe(plan, s) && TaskCycle(plan, p) && AllWait(s, p)
    ensures AllWait(Step(plan, s, e), p) || OneIsCancelled(Step(plan, s, e), p)
  {
    match e
    case Move(id, to) => CycleMove(plan, s, p, id, to);
    case RunCompleted(id) =>
      if id in plan.ai { ReleaseSkipsCycle(plan, s.(done := s.done + {id}), p); }
    case Approve(id) =>
      if id in Approvals(plan) { ReleaseSkipsCycle(plan, s.(done := s.done + {id}), p); }
    case Withdraw(_) =>
  }

  /** Tasks on a dependency cycle never start: in every run they all wait until one is cancelled. */
  lemma {:induction false} CyclesNeverStart(plan: Plan, p: seq<string>, events: seq<Event>)
    requires ValidPlan(plan) && TaskCycle(plan, p)
    ensures var s := Run(plan, Assign(plan), events);
            AllWait(s, p) || OneIsCancelled(s, p)
  {
    if events == [] {
      forall i | 0 <= i < |p| ensures Assign(plan).tasks[p[i]] == Waiting {
        var j := NextOnCycle(plan, p, i);
      }
    } else {
      var before := Run(plan, Assign(plan), events[..|events| - 1]);
      CyclesNeverStart(plan, p, events[..|events| - 1]);
      RunIsSafe(plan, Assign(plan), events[..|events| - 1]);
      if AllWait(before, p) {
        CycleStep(plan, before, p, events[|events| - 1]);
      } else {
        var i :| 0 <= i < |p| && p[i] in before.tasks && before.tasks[p[i]] == Cancelled;
        CancelledIsForGood(plan, before, events[|events| - 1], p[i]);
      }
    }
  }

  // ----- rounds -----

  /** What has finished after k rounds, each finishing everything that is releasable. */
  function Rounds(plan: Plan, k: nat): set<string> {
    if k == 0 then {}
    else
      var finished := Rounds(plan, k - 1);
      finished + set id | id in plan.dependsOn && Ready(plan, finished, id)
  }

  lemma {:induction false} ReadyInRound(plan: Plan, depths: map<string, nat>, finished: set<string>, k: nat, id: string)
    requires Levels(PlannedGraph(plan), depths) && id in plan.dependsOn
    requires finished == set other | other in plan.dependsOn && depths[other] < k
    ensures Ready(plan, finished, id) <==> depths[id] <= k
  {
    var g := PlannedGraph(plan);
    if depths[id] <= k {
      forall w | w in plan.dependsOn[id] && w in plan.dependsOn ensures w in finished {
        assert w in g[id];
        WaitsAreShallower(g, depths, id, w);
      }
    } else {
      var w := OneWaitIsJustShallower(g, depths, id);
      assert w in plan.dependsOn[id] && w !in finished;
    }
  }

  /** The planned items above a depth. */
  function Shallower(plan: Plan, depths: map<string, nat>, k: nat): set<string>
    requires depths.Keys == plan.dependsOn.Keys
  {
    set id | id in plan.dependsOn && depths[id] < k
  }

  lemma {:induction false} NextRound(plan: Plan, depths: map<string, nat>, k: nat)
    requires Levels(PlannedGraph(plan), depths) && Rounds(plan, k) == Shallower(plan, depths, k)
    ensures Rounds(plan, k + 1) == Shallower(plan, depths, k + 1)
  {
    var finished := Rounds(plan, k);
    forall id | id in plan.dependsOn
      ensures Ready(plan, finished, id) <==> depths[id] <= k
    {
      ReadyInRound(plan, depths, finished, k, id);
    }
  }

  /** After k rounds exactly the items of depth less than k have finished. */
  lemma {:induction false} RoundsAreLevels(plan: Plan, depths: map<string, nat>, k: nat)
    requires Levels(PlannedGraph(plan), depths)
    ensures Rounds(plan, k) == Shallower(plan, depths, k)
  {
    if k > 0 {
      var j := k - 1;
      RoundsAreLevels(plan, depths, j);
      NextRound(plan, depths, j);
      assert k == j + 1;
    }
  }

  lemma {:induction false} RoundReleasesItsLevel(plan: Plan, depths: map<string, nat>, d: nat)
    requires Levels(PlannedGraph(plan), depths)
    ensures Rounds(plan, d + 1) - Rounds(plan, d) == set id | id in depths && depths[id] == d
  {
    RoundsAreLevels(plan, depths, d);
    RoundsAreLevels(plan, depths, d + 1);
    LevelBetween(plan, depths, d);
  }

  lemma {:induction false} LevelBetween(plan: Plan, depths: map<string, nat>, d: nat)
    requires depths.Keys == plan.dependsOn.Keys
    ensures Shallower(plan, depths, d + 1) - Shallower(plan, depths, d) == set id | id in depths && depths[id] == d
  {
  }

  /** Every node of the workflow is a planned item. */
  ghost predicate PlansAll(plan: Plan, nodes: seq<Node>) {
    plan.dependsOn == map id | id in Present(nodes) :: DependenciesOf(nodes, id)
  }

  lemma {:induction false} FullPlanHasItsGraph(plan: Plan, nodes: seq<Node>)
    requires PlansAll(plan, nodes)
    ensures PlannedGraph(plan) == GraphOf(nodes) && plan.dependsOn.Keys == Present(nodes)
  {
  }

  /** Release and depth agree: the items released in round d are the nodes of execution depth d. */
  lemma {:induction false} RoundsAreExecutionDepths(plan: Plan, nodes: seq<Node>, depths: map<string, nat>, d: nat)
    requires PlansAll(plan, nodes) && Acyclic(GraphOf(nodes)) && depths == ExecutionDepths(nodes)
    ensures depths.Keys == Present(nodes)
    ensures Rounds(plan, d + 1) - Rounds(plan, d) == set id | id in depths && depths[id] == d
  {
    FullPlanHasItsGraph(plan, nodes);
    DepthsAreLevels(nodes);
    RoundReleasesItsLevel(plan, depths, d);
  }

  // ----- rounds of the machine -----

  ghost predicate AllReady(plan: Plan, finished: set<string>, ids: set<string>) {
    forall id :: id in ids ==> id in plan.dependsOn && Ready(plan, finished, id)
  }

  lemma {:induction false} StillReady(plan: Plan, finished: set<string>, ids: set<string>, id: string)
    requires AllReady(plan, finished, ids)
    ensures AllReady(plan, finished + {id}, ids - {id})
  {
  }

  /** A state that a run without cancellations reaches. */
  ghost predicate InOrder(plan: Plan, s: State) { Safe(plan, s) && Prompt(plan, s) && NothingCancelled(s) }

  lemma {:induction false} FinishReady(plan: Plan, s: State, id: string) returns (more: seq<Event>)
    requires ValidPlan(plan) && InOrder(plan, s) && id in Unfinished(plan, s) && Ready(plan, Finished(s), id)
    ensures InOrder(plan, Run(plan, s, more)) && Finished(Run(plan, s, more)) == Finished(s) + {id}
  {
    more := FinishItem(plan, s, id);
    RunIsSafe(plan, s, more);
  }

  lemma {:induction false} FinishFirst(plan: Plan, s: State, ids: set<string>, id: string) returns (first: seq<Event>)
    requires ValidPlan(plan) && InOrder(plan, s) && ids !! Finished(s) && AllReady(plan, Finished(s), ids) && id in ids
    ensures var next := Run(plan, s, first);
            && InOrder(plan, next) && Finished(next) == Finished(s) + {id}
            && (ids - {id}) !! Finished(next) && AllReady(plan, Finished(next), ids - {id})
  {
    first := FinishReady(plan, s, id);
    StillReady(plan, Finished(s), ids, id);
  }

  lemma {:induction false} OneAndTheRest(finished: set<string>, ids: set<string>, id: string)
    requires id in ids
    ensures finished + {id} + (ids - {id}) == finished + ids
  {
  }

  /** Items that are all ready can all be finished, and nothing else finishes meanwhile. */
  lemma {:induction false} FinishTogether(plan: Plan, s: State, ids: set<string>) returns (more: seq<Event>)
    requires ValidPlan(plan) && InOrder(plan, s) && ids !! Finished(s) && AllReady(plan, Finished(s), ids)
    ensures InOrder(plan, Run(plan, s, more)) && Finished(Run(plan, s, more)) == Finished(s) + ids
    decreases |ids|
  {
    if ids == {} {
      more := [];
      assert Finished(s) + ids == Finished(s);
    } else {
      var id :| id in ids;
      var first := FinishFirst(plan, s, ids, id);
      var rest := FinishTogether(plan, Run(plan, s, first), ids - {id});
      more := first + rest;
      RunAppend(plan, s, first, rest);
      OneAndTheRest(Finished(s), ids, id);
    }
  }

  lemma {:induction false} AssignedInOrder(plan: Plan)
    requires ValidPlan(plan)
    ensures InOrder(plan, Assign(plan)) && Finished(Assign(plan)) == {}
  {
    assert Finished(Assign(plan)) == {};
  }

  function ReadyNow(plan: Plan, s: State): set<string> {
    set id | id in Unfinished(plan, s) && Ready(plan, Finished(s), id)
  }

  /** Some run of the machine has finished, after k rounds, exactly the items of those rounds, and cancelled nothing. */
  lemma {:induction false} RoundsAreReached(plan: Plan, k: nat) returns (events: seq<Event>)
    requires ValidPlan(plan)
    ensures InOrder(plan, Run(plan, Assign(plan), events))
    ensures Finished(Run(plan, Assign(plan), events)) == Rounds(plan, k)
  {
    events := [];
    AssignedInOrder(plan);
    if k > 0 {
      var j := k - 1;
      var before := RoundsAreReached(plan, j);
      var s := Run(plan, Assign(plan), before);
      var more := FinishTogether(plan, s, ReadyNow(plan, s));
      events := before + more;
      RunAppend(plan, Assign(plan), before, more);
      assert Finished(s) + ReadyNow(plan, s) == Rounds(plan, j + 1);
    }
  }

  /**
    Whenever exactly the first k rounds have finished and nothing waits behind finished work, the tasks
    that still wait are, among those not cancelled, exactly the ones of depth more than k.
   */
  lemma {:induction false} ReleaseFollowsDepth(plan: Plan, depths: map<string, nat>, s: State, k: nat, id: string)
    requires ValidPlan(plan) && Safe(plan, s) && Prompt(plan, s) && Levels(PlannedGraph(plan), depths)
    requires Finished(s) == Rounds(plan, k)
    requires id in s.tasks && s.tasks[id] != Cancelled
    ensures s.tasks[id] == Waiting <==> depths[id] > k
  {
    RoundsAreLevels(plan, depths, k);
    ReadyInRound(plan, depths, Finished(s), k, id);
    assert id in Finished(s) <==> depths[id] < k;
  }
}
