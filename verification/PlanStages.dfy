/**
  The stage names of `executionStages` and the dependency checks of `validateWorkflowDraft`
  (packages/types/src/objective-analysis.ts).
 */
module PlanStages {
  import opened PlanGraph

  datatype Stage = Engine | SubEngine | Executor

  predicate IsWork(node: Node) { node.kind == Human || node.kind == Ai }

  /** `depth.get(id) ?? 0` */
  function LevelIn(depths: map<string, nat>, id: string): nat { if id in depths then depths[id] else 0 }

  function StageAt(level: nat, deepest: nat): Stage {
    if level == 0 then Engine else if level == deepest then Executor else SubEngine
  }

  /** The greatest depth of any work, 0 when there is none. */
  function Deepest(nodes: seq<Node>, depths: map<string, nat>): nat {
    if nodes == [] then 0
    else
      var last, before := nodes[|nodes| - 1], Deepest(nodes[..|nodes| - 1], depths);
      if IsWork(last) then Max(before, LevelIn(depths, last.id)) else before
  }

  function WorkIds(nodes: seq<Node>): set<string> {
    if nodes == [] then {}
    else
      var last, before := nodes[|nodes| - 1], WorkIds(nodes[..|nodes| - 1]);
      if IsWork(last) then before + {last.id} else before
  }

  /** Exactly the listed ids get a stage, each by its depth. */
  ghost predicate Staged(ids: set<string>, depths: map<string, nat>, deepest: nat, stages: map<string, Stage>) {
    stages.Keys == ids && forall id :: id in stages ==> stages[id] == StageAt(LevelIn(depths, id), deepest)
  }

  method ExecutionStages(nodes: seq<Node>) returns (stages: map<string, Stage>)
    ensures Staged(WorkIds(nodes), ExecutionDepths(nodes), Deepest(nodes, ExecutionDepths(nodes)), stages)
  {
    var search := new DepthSearch(nodes);
    var depths := search.Run(nodes);
    var deepest := 0;
    for i := 0 to |nodes|
      invariant deepest == Deepest(nodes[..i], depths)
    {
      assert nodes[..i + 1][..i] == nodes[..i];
      if IsWork(nodes[i]) { deepest := Max(deepest, LevelIn(depths, nodes[i].id)); }
    }
    assert nodes[..|nodes|] == nodes;
    stages := map[];
    for i := 0 to |nodes|
      invariant Staged(WorkIds(nodes[..i]), depths, deepest, stages)
    {
      assert nodes[..i + 1][..i] == nodes[..i];
      if IsWork(nodes[i]) {
        stages := stages[nodes[i].id := StageAt(LevelIn(depths, nodes[i].id), deepest)];
      }
    }
  }

  lemma {:induction false} WorkIsNoDeeper(nodes: seq<Node>, depths: map<string, nat>, id: string)
    requires id in WorkIds(nodes)
    ensures LevelIn(depths, id) <= Deepest(nodes, depths) && id in Present(nodes)
  {
    var last := nodes[|nodes| - 1];
    if IsWork(last) && id == last.id {
      assert nodes[|nodes| - 1].id == id;
    } else {
      WorkIsNoDeeper(nodes[..|nodes| - 1], depths, id);
      var i :| 0 <= i < |nodes| - 1 && nodes[..|nodes| - 1][i].id == id;
      assert nodes[i].id == id;
    }
  }

  /** Work is the human and the AI steps. */
  lemma {:induction false} WorkIsHumanOrAi(nodes: seq<Node>, id: string)
    ensures id in WorkIds(nodes) <==> exists i :: 0 <= i < |nodes| && nodes[i].id == id && (nodes[i].kind == Human || nodes[i].kind == Ai)
  {
    if nodes != [] {
      var front, last := nodes[..|nodes| - 1], nodes[|nodes| - 1];
      WorkIsHumanOrAi(front, id);
      if id in WorkIds(front) {
        var i :| 0 <= i < |front| && front[i].id == id && (front[i].kind == Human || front[i].kind == Ai);
        assert nodes[i] == front[i];
      }
      if i :| 0 <= i < |nodes| && nodes[i].id == id && (nodes[i].kind == Human || nodes[i].kind == Ai) {
        if i < |front| { assert front[i] == nodes[i]; }
      }
      assert nodes[|nodes| - 1] == last;
    }
  }

  lemma {:induction false} DeepestIsReached(nodes: seq<Node>, depths: map<string, nat>) returns (id: string)
    requires Deepest(nodes, depths) > 0
    ensures id in WorkIds(nodes) && LevelIn(depths, id) == Deepest(nodes, depths)
  {
    var front, last := nodes[..|nodes| - 1], nodes[|nodes| - 1];
    if IsWork(last) && LevelIn(depths, last.id) == Deepest(nodes, depths) {
      id := last.id;
    } else {
      id := DeepestIsReached(front, depths);
    }
  }

  /** An Executor is work that waits on something and is as deep as any work; what else waits is a SubEngine. */
  lemma {:induction false} ExecutorExactlyWhenDeepest(nodes: seq<Node>, stages: map<string, Stage>, x: string)
    requires x in WorkIds(nodes)
    requires Staged(WorkIds(nodes), ExecutionDepths(nodes), Deepest(nodes, ExecutionDepths(nodes)), stages)
    ensures var depths := ExecutionDepths(nodes);
            && x in GraphOf(nodes) && x in depths
            && (stages[x] == Executor <==>
                  GraphOf(nodes)[x] != [] && forall y :: y in WorkIds(nodes) && y in depths ==> depths[y] <= depths[x])
            && (stages[x] == SubEngine <==>
                  GraphOf(nodes)[x] != [] && exists y :: y in WorkIds(nodes) && y in depths && depths[y] > depths[x])
  {
    var depths := ExecutionDepths(nodes);
    WorkIsNoDeeper(nodes, depths, x);
    DepthZeroExactlyWhenFree(nodes, x);
    forall y | y in WorkIds(nodes) ensures LevelIn(depths, y) <= Deepest(nodes, depths) { WorkIsNoDeeper(nodes, depths, y); }
    if depths[x] < Deepest(nodes, depths) {
      var y := DeepestIsReached(nodes, depths);
      assert y in WorkIds(nodes) && y in depths && depths[y] > depths[x];
    }
  }

  /** No other work waits on an Executor, directly or through gates. */
  lemma {:induction false} ExecutorIsWaitedOnByNoWork(nodes: seq<Node>, stages: map<string, Stage>, x: string, other: string)
    requires Acyclic(GraphOf(nodes)) && other in WorkIds(nodes)
    requires Staged(WorkIds(nodes), ExecutionDepths(nodes), Deepest(nodes, ExecutionDepths(nodes)), stages)
    requires x in stages && stages[x] == Executor
    ensures !WaitsOn(GraphOf(nodes), other, x)
  {
    var g, depths := GraphOf(nodes), ExecutionDepths(nodes);
    WorkIsNoDeeper(nodes, depths, other);
    if WaitsOn(g, other, x) { WaitedOnInPlan(nodes, other, x); }
  }

  lemma {:induction false} WaitedOnInPlan(nodes: seq<Node>, a: string, b: string)
    requires Acyclic(GraphOf(nodes)) && WaitsOn(GraphOf(nodes), a, b)
    ensures LevelIn(ExecutionDepths(nodes), b) < LevelIn(ExecutionDepths(nodes), a)
    ensures a in ExecutionDepths(nodes) && b in ExecutionDepths(nodes)
  {
    DepthsAreLevels(nodes);
    WaitedOnIsShallower(GraphOf(nodes), ExecutionDepths(nodes), a, b);
  }

  lemma {:induction false} LoneWorkIsDeepest(nodes: seq<Node>, depths: map<string, nat>, x: string)
    requires x in WorkIds(nodes) && WorkIds(nodes) <= {x}
    ensures Deepest(nodes, depths) == LevelIn(depths, x)
  {
    var front, last := nodes[..|nodes| - 1], nodes[|nodes| - 1];
    if x in WorkIds(front) {
      LoneWorkIsDeepest(front, depths, x);
    } else {
      NoWorkIsShallow(front, depths);
    }
    if IsWork(last) { assert last.id in WorkIds(nodes); }
  }

  lemma {:induction false} NoWorkIsShallow(nodes: seq<Node>, depths: map<string, nat>)
    requires WorkIds(nodes) == {}
    ensures Deepest(nodes, depths) == 0
  {
    if nodes != [] {
      NoWorkIsShallow(nodes[..|nodes| - 1], depths);
    }
  }

  /**
    On every plan, cyclic or not, a step is an Engine exactly when it waits on no present node. So a plan whose only work comes
    after a goal, trigger or gate has an Executor and no Engine.
   */
  lemma {:induction false} EngineExactlyWhenNothingIsWaitedOn(nodes: seq<Node>, stages: map<string, Stage>, x: string)
    requires x in WorkIds(nodes)
    requires Staged(WorkIds(nodes), ExecutionDepths(nodes), Deepest(nodes, ExecutionDepths(nodes)), stages)
    ensures x in GraphOf(nodes)
    ensures stages[x] == Engine <==> GraphOf(nodes)[x] == []
    ensures WorkIds(nodes) == {x} && GraphOf(nodes)[x] != [] ==> stages[x] == Executor
  {
    var depths := ExecutionDepths(nodes);
    WorkIsNoDeeper(nodes, depths, x);
    DepthZeroExactlyWhenFree(nodes, x);
    if WorkIds(nodes) == {x} { LoneWorkIsDeepest(nodes, depths, x); }
  }

  // ----- what validation does and does not establish -----

  datatype Problem = SharedId(id: string) | UnknownDependency(id: string, on: string) | SelfDependency(id: string)

  ghost predicate SoundNode(node: Node, present: set<string>) {
    forall d :: d in node.dependencies ==> d in present && d != node.id
  }

  ghost predicate DependenciesAreSound(nodes: seq<Node>) {
    && DistinctIds(nodes)
    && (forall i :: 0 <= i < |nodes| ==> SoundNode(nodes[i], Present(nodes)))
  }

  method DependencyProblemsOf(node: Node, present: set<string>) returns (problems: seq<Problem>)
    ensures problems == [] <==> SoundNode(node, present)
  {
    problems := [];
    for k := 0 to |node.dependencies|
      invariant problems == [] <==> forall m :: 0 <= m < k ==> node.dependencies[m] in present && node.dependencies[m] != node.id
    {
      var dependency := node.dependencies[k];
      if dependency !in present { problems := problems + [UnknownDependency(node.id, dependency)]; }
      if dependency == node.id { problems := problems + [SelfDependency(node.id)]; }
    }
  }

  /** The node and dependency checks of `validateWorkflowDraft`: every id is unique, every dependency another node. */
  method DependencyProblems(nodes: seq<Node>) returns (problems: seq<Problem>)
    ensures problems == [] <==> DependenciesAreSound(nodes)
    ensures problems == [] <==>
            && (forall i, j :: 0 <= i < j < |nodes| ==> nodes[i].id != nodes[j].id)
            && (forall i, d :: 0 <= i < |nodes| && d in nodes[i].dependencies ==>
                  d != nodes[i].id && exists k :: 0 <= k < |nodes| && nodes[k].id == d)
  {
    problems := [];
    var ids: set<string> := {};
    for i := 0 to |nodes|
      invariant forall j :: 0 <= j < i ==> nodes[j].id in ids
      invariant forall id :: id in ids ==> exists j :: 0 <= j < i && nodes[j].id == id
      invariant problems == [] <==>
                && (forall j, k :: 0 <= j < k < i ==> nodes[j].id != nodes[k].id)
                && (forall j :: 0 <= j < i ==> SoundNode(nodes[j], Present(nodes)))
    {
      if nodes[i].id in ids { problems := problems + [SharedId(nodes[i].id)]; }
      ids := ids + {nodes[i].id};
      var more := DependencyProblemsOf(nodes[i], Present(nodes));
      problems := problems + more;
    }
  }

  /** Two steps that wait on each other pass validation. */
  lemma {:induction false} ValidatedPlanMayCycle(a: Node, b: Node)
    requires a.id != b.id && a.dependencies == [b.id] && b.dependencies == [a.id]
    ensures DependenciesAreSound([a, b]) && !Acyclic(GraphOf([a, b]))
  {
    PresentTwo(a, b);
    MutualGraph([a, b], a, b);
    MutualCycle(GraphOf([a, b]), a.id, b.id);
  }

  lemma {:induction false} MutualCycle(g: Graph, a: string, b: string)
    requires a in g && b in g && b in g[a] && a in g[b]
    ensures !Acyclic(g)
  {
    var p := [a, b, a];
    assert Chain(g, p) && p[0] == p[|p| - 1];
  }

  /** On such a cycle the depths depend on which step is listed first. */
  lemma {:induction false} CyclicDepthsDependOnListing(a: Node, b: Node)
    requires a.id != b.id && a.dependencies == [b.id] && b.dependencies == [a.id]
    ensures GraphOf([a, b]) == GraphOf([b, a])
    ensures ExecutionDepths([a, b]) == map[a.id := 2, b.id := 1]
    ensures ExecutionDepths([b, a]) == map[a.id := 1, b.id := 2]
  {
    MutualWait([a, b], a, b);
    MutualWait([b, a], b, a);
  }

  lemma {:induction false} PresentTwo(a: Node, b: Node)
    ensures Present([a, b]) == {a.id, b.id}
  {
    assert [a, b][0] == a && [a, b][1] == b;
    assert a.id in Present([a, b]) && b.id in Present([a, b]);
  }

  lemma {:induction false} MutualGraph(nodes: seq<Node>, a: Node, b: Node)
    requires nodes == [a, b] && a.id != b.id && a.dependencies == [b.id] && b.dependencies == [a.id]
    ensures GraphOf(nodes) == map[a.id := [b.id], b.id := [a.id]]
  {
    PresentTwo(a, b);
    assert nodes[..1] == [a];
    assert DependenciesOf([a], a.id) == [b.id];
    assert DependenciesOf(nodes, a.id) == [b.id] && DependenciesOf(nodes, b.id) == [a.id];
    assert [a.id][1..] == [] && [b.id][1..] == [];
    assert Among([b.id], Present(nodes)) == [b.id] && Among([a.id], Present(nodes)) == [a.id];
  }

  lemma {:induction false} MutualWait(nodes: seq<Node>, a: Node, b: Node)
    requires nodes == [a, b] && a.id != b.id && a.dependencies == [b.id] && b.dependencies == [a.id]
    ensures GraphOf(nodes) == map[a.id := [b.id], b.id := [a.id]]
    ensures ExecutionDepths(nodes) == map[a.id := 2, b.id := 1]
  {
    MutualGraph(nodes, a, b);
    GraphIsClosed(nodes);
    var g := GraphOf(nodes);
    OneWait(g, a.id, {a.id, b.id}, map[]);
    OneWait(g, b.id, {a.id}, map[]);
    assert {a.id} + {b.id} == {a.id, b.id} && {} + {a.id} == {a.id};
    assert Depth(g, b.id, {a.id}, map[]) == (1, map[b.id := 1]);
    assert Depth(g, a.id, {}, map[]) == (2, map[b.id := 1][a.id := 2]);
    assert Ids(nodes) == [a.id, b.id] && Ids(nodes)[1..] == [b.id] && [b.id][1..] == [];
    assert DepthsFrom(g, [b.id], map[b.id := 1, a.id := 2]) == map[b.id := 1, a.id := 2];
  }

  lemma {:induction false} OneWait(g: Graph, w: string, seen: set<string>, memo: map<string, nat>)
    requires Closed(g) && w in g && seen <= g.Keys
    ensures DepthOver(g, [w], seen, memo) == (Depth(g, w, seen, memo).0 + 1, Depth(g, w, seen, memo).1)
  {
    assert [w][1..] == [];
  }
}
