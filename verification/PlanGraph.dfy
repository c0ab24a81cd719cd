/**
  Depth in the plan graph (packages/types/src/objective-analysis.ts): the memoised depth-first search
  `executionDepths`, what it yields on every graph, and what it means on acyclic ones.
 */
module PlanGraph {
  import opened Grouping
  import opened StableSort

  datatype Kind = Goal | Human | Ai | Approval | Condition | Trigger

  datatype Node = Node(id: string, kind: Kind, dependencies: seq<string>)

  /** From each present node to the present nodes that it waits on, in the order listed. */
  type Graph = map<string, seq<string>>

  function Present(nodes: seq<Node>): set<string> {
    set i | 0 <= i < |nodes| :: nodes[i].id
  }

  /** `byId.get(id)`: of two nodes with one id, the Map keeps the later. */
  function DependenciesOf(nodes: seq<Node>, id: string): seq<string> {
    if nodes == [] then []
    else
      var last := nodes[|nodes| - 1];
      if last.id == id then last.dependencies else DependenciesOf(nodes[..|nodes| - 1], id)
  }

  function Among(ids: seq<string>, present: set<string>): (r: seq<string>)
    ensures forall id :: id in r <==> id in ids && id in present
  {
    if ids == [] then []
    else if ids[0] in present then [ids[0]] + Among(ids[1..], present)
    else Among(ids[1..], present)
  }

  function GraphOf(nodes: seq<Node>): Graph {
    map id | id in Present(nodes) :: Among(DependenciesOf(nodes, id), Present(nodes))
  }

  ghost predicate Closed(g: Graph) {
    forall id, w :: id in g && w in g[id] ==> w in g
  }

  lemma {:induction false} GraphIsClosed(nodes: seq<Node>)
    ensures Closed(GraphOf(nodes)) && GraphOf(nodes).Keys == Present(nodes)
  {
  }

  function Max(a: nat, b: nat): nat { if a < b then b else a }

  // ----- the search, threading its memo -----

  /** `depthOf(id, seen)`: the value returned and the memo afterwards. */
  function Depth(g: Graph, id: string, seen: set<string>, memo: map<string, nat>): (nat, map<string, nat>)
    requires Closed(g) && id in g && seen <= g.Keys
    decreases |g.Keys - seen|, 0
  {
    if id in memo then (memo[id], memo)
    else if id in seen then (0, memo)
    else
      assert g.Keys - (seen + {id}) == (g.Keys - seen) - {id};
      var (value, after) := DepthOver(g, g[id], seen + {id}, memo);
      (value, after[id := value])
  }

  /** The greatest of depth + 1 over a list of nodes, searched from left to right; 0 for none. */
  function DepthOver(g: Graph, waits: seq<string>, seen: set<string>, memo: map<string, nat>): (nat, map<string, nat>)
    requires Closed(g) && (forall w :: w in waits ==> w in g) && seen <= g.Keys
    decreases |g.Keys - seen|, |waits|
  {
    if waits == [] then (0, memo)
    else
      var (first, between) := Depth(g, waits[0], seen, memo);
      var (rest, after) := DepthOver(g, waits[1..], seen, between);
      (Max(first + 1, rest), after)
  }

  function DepthsFrom(g: Graph, ids: seq<string>, memo: map<string, nat>): map<string, nat>
    requires Closed(g) && forall id :: id in ids ==> id in g
  {
    if ids == [] then memo else DepthsFrom(g, ids[1..], Depth(g, ids[0], {}, memo).1)
  }

  function Ids(nodes: seq<Node>): seq<string> { seq(|nodes|, i requires 0 <= i < |nodes| => nodes[i].id) }

  function ExecutionDepths(nodes: seq<Node>): map<string, nat> {
    DepthsFrom(GraphOf(nodes), Ids(nodes), map[])
  }

  // ----- the search as the source writes it -----

  class DepthSearch {
    const graph: Graph
    var depth: map<string, nat>

    constructor (nodes: seq<Node>)
      ensures graph == GraphOf(nodes) && depth == map[]
    {
      graph := GraphOf(nodes);
      depth := map[];
    }

    method DepthOf(id: string, seen: set<string>) returns (value: nat)
      requires Closed(graph) && id in graph && seen <= graph.Keys
      modifies this`depth
      ensures (value, depth) == Depth(graph, id, seen, old(depth))
      decreases |graph.Keys - seen|
    {
      if id in depth { return depth[id]; }
      if id in seen { return 0; }
      var waits := graph[id];
      var next := seen + {id};
      assert graph.Keys - next == (graph.Keys - seen) - {id};
      value := 0;
      for i := 0 to |waits|
        invariant var (rest, final) := DepthOver(graph, waits[i..], next, depth);
                  (Max(value, rest), final) == DepthOver(graph, waits, next, old(depth))
      {
        assert waits[i..][1..] == waits[i + 1..];
        var found := DepthOf(waits[i], next);
        value := Max(value, found + 1);
      }
      depth := depth[id := value];
    }

    method Run(nodes: seq<Node>) returns (result: map<string, nat>)
      requires graph == GraphOf(nodes) && depth == map[]
      modifies this`depth
      ensures result == ExecutionDepths(nodes)
    {
      GraphIsClosed(nodes);
      for i := 0 to |nodes|
        invariant DepthsFrom(graph, Ids(nodes)[i..], depth) == ExecutionDepths(nodes)
      {
        assert Ids(nodes)[i..][1..] == Ids(nodes)[i + 1..];
        var value := DepthOf(nodes[i].id, {});
      }
      return depth;
    }
  }

  // ----- every graph: the search ends, and depths are bounded -----

  ghost predicate Extends(after: map<string, nat>, before: map<string, nat>) {
    before.Keys <= after.Keys && forall id :: id in before ==> after[id] == before[id]
  }

  /** Depths count nodes already given one, so none exceeds how many there are. */
  ghost predicate Bounded(g: Graph, memo: map<string, nat>) {
    memo.Keys <= g.Keys && forall id :: id in memo ==> memo[id] <= |memo|
  }

  lemma {:induction false} SizeGrows(after: map<string, nat>, before: map<string, nat>)
    requires before.Keys <= after.Keys
    ensures |before| <= |after|
  {
    SubsetSize(before.Keys, after.Keys);
    assert |before| == |before.Keys| && |after| == |after.Keys|;
  }

  lemma {:induction false} SubsetSize(a: set<string>, b: set<string>)
    requires a <= b
    ensures |a| <= |b|
  {
    assert b == a + (b - a);
  }

  lemma {:induction false} DepthIsBounded(g: Graph, id: string, seen: set<string>, memo: map<string, nat>)
    requires Closed(g) && id in g && seen <= g.Keys && Bounded(g, memo) && memo.Keys !! seen
    ensures var (value, after) := Depth(g, id, seen, memo);
            && Extends(after, memo) && Bounded(g, after) && after.Keys !! seen
            && value <= |after| && (id in seen || id in after)
    decreases |g.Keys - seen|, 0
  {
    if id !in memo && id !in seen {
      assert g.Keys - (seen + {id}) == (g.Keys - seen) - {id};
      DepthOverIsBounded(g, g[id], seen + {id}, memo);
      var (value, after) := DepthOver(g, g[id], seen + {id}, memo);
      assert id !in after;
      assert |after[id := value]| == |after| + 1;
    }
  }

  lemma {:induction false} DepthOverIsBounded(g: Graph, waits: seq<string>, seen: set<string>, memo: map<string, nat>)
    requires Closed(g) && (forall w :: w in waits ==> w in g) && seen <= g.Keys
    requires Bounded(g, memo) && memo.Keys !! seen
    ensures var (value, after) := DepthOver(g, waits, seen, memo);
            Extends(after, memo) && Bounded(g, after) && after.Keys !! seen && value <= |after| + 1
    decreases |g.Keys - seen|, |waits|
  {
    if waits != [] {
      DepthIsBounded(g, waits[0], seen, memo);
      var (first, between) := Depth(g, waits[0], seen, memo);
      DepthOverIsBounded(g, waits[1..], seen, between);
      SizeGrows(DepthOver(g, waits[1..], seen, between).1, between);
    }
  }

  lemma {:induction false} DepthsFromIsBounded(g: Graph, ids: seq<string>, memo: map<string, nat>)
    requires Closed(g) && (forall id :: id in ids ==> id in g) && Bounded(g, memo)
    ensures var after := DepthsFrom(g, ids, memo);
            Extends(after, memo) && Bounded(g, after) && forall id :: id in ids ==> id in after
  {
    if ids != [] {
      DepthIsBounded(g, ids[0], {}, memo);
      DepthsFromIsBounded(g, ids[1..], Depth(g, ids[0], {}, memo).1);
    }
  }

  /** On every plan, cyclic or not, each present node gets a depth from 0 to the number of nodes. */
  lemma {:induction false} EveryNodeHasABoundedDepth(nodes: seq<Node>)
    ensures ExecutionDepths(nodes).Keys == Present(nodes)
    ensures forall id :: id in ExecutionDepths(nodes) ==> ExecutionDepths(nodes)[id] <= |Present(nodes)|
  {
    var g := GraphOf(nodes);
    var depths := ExecutionDepths(nodes);
    GraphIsClosed(nodes);
    DepthsFromIsBounded(g, Ids(nodes), map[]);
    forall id | id in Present(nodes) ensures id in depths {
      var i :| 0 <= i < |nodes| && nodes[i].id == id;
      assert Ids(nodes)[i] == id;
    }
    assert |depths| == |depths.Keys|;
  }

  // ----- every graph: depth 0 means that nothing is waited on -----

  ghost predicate ZeroesAreFree(g: Graph, memo: map<string, nat>) {
    forall id :: id in memo ==> id in g && (memo[id] == 0 <==> g[id] == [])
  }

  lemma {:induction false} DepthKeepsZeroes(g: Graph, id: string, seen: set<string>, memo: map<string, nat>)
    requires Closed(g) && id in g && seen <= g.Keys && ZeroesAreFree(g, memo)
    ensures ZeroesAreFree(g, Depth(g, id, seen, memo).1)
    decreases |g.Keys - seen|, 0
  {
    if id !in memo && id !in seen {
      assert g.Keys - (seen + {id}) == (g.Keys - seen) - {id};
      DepthOverKeepsZeroes(g, g[id], seen + {id}, memo);
    }
  }

  lemma {:induction false} DepthOverKeepsZeroes(g: Graph, waits: seq<string>, seen: set<string>, memo: map<string, nat>)
    requires Closed(g) && (forall w :: w in waits ==> w in g) && seen <= g.Keys && ZeroesAreFree(g, memo)
    ensures ZeroesAreFree(g, DepthOver(g, waits, seen, memo).1)
    ensures DepthOver(g, waits, seen, memo).0 == 0 <==> waits == []
    decreases |g.Keys - seen|, |waits|
  {
    if waits != [] {
      DepthKeepsZeroes(g, waits[0], seen, memo);
      DepthOverKeepsZeroes(g, waits[1..], seen, Depth(g, waits[0], seen, memo).1);
    }
  }

  lemma {:induction false} DepthsFromKeepZeroes(g: Graph, ids: seq<string>, memo: map<string, nat>)
    requires Closed(g) && (forall id :: id in ids ==> id in g) && ZeroesAreFree(g, memo)
    ensures ZeroesAreFree(g, DepthsFrom(g, ids, memo))
  {
    if ids != [] {
      DepthKeepsZeroes(g, ids[0], {}, memo);
      DepthsFromKeepZeroes(g, ids[1..], Depth(g, ids[0], {}, memo).1);
    }
  }

  /** On every plan, cyclic or not, a node has depth 0 exactly when it waits on no present node. */
  lemma {:induction false} DepthZeroExactlyWhenFree(nodes: seq<Node>, id: string)
    requires id in Present(nodes)
    ensures id in ExecutionDepths(nodes)
    ensures ExecutionDepths(nodes)[id] == 0 <==> GraphOf(nodes)[id] == []
  {
    GraphIsClosed(nodes);
    EveryNodeHasABoundedDepth(nodes);
    DepthsFromKeepZeroes(GraphOf(nodes), Ids(nodes), map[]);
  }

  // ----- acyclic graphs: depth is the longest chain -----

  /** A walk along the dependencies, each node waiting on the next. */
  ghost predicate Chain(g: Graph, p: seq<string>) {
    && p != []
    && (forall i :: 0 <= i < |p| ==> p[i] in g)
    && forall i :: 0 <= i < |p| - 1 ==> p[i + 1] in g[p[i]]
  }

  ghost predicate Acyclic(g: Graph) {
    forall p :: Chain(g, p) && |p| > 1 ==> p[0] != p[|p| - 1]
  }

  /** a waits on b, directly or through others. */
  ghost predicate WaitsOn(g: Graph, a: string, b: string) {
    exists p :: Chain(g, p) && |p| > 1 && p[0] == a && p[|p| - 1] == b
  }

  /** d is the number of steps in the longest chain that starts at id. */
  ghost predicate LongestChain(g: Graph, id: string, d: nat) {
    && (exists p :: Chain(g, p) && p[0] == id && |p| == d + 1)
    && (forall p :: Chain(g, p) && p[0] == id ==> |p| <= d + 1)
  }

  ghost predicate AllLongest(g: Graph, memo: map<string, nat>) {
    forall id :: id in memo ==> id in g && LongestChain(g, id, memo[id])
  }

  lemma {:induction false} DirectWait(g: Graph, a: string, b: string)
    requires Closed(g) && a in g && b in g[a]
    ensures WaitsOn(g, a, b)
  {
    assert Chain(g, [a, b]);
  }

  lemma {:induction false} WaitExtends(g: Graph, a: string, b: string, c: string)
    requires Closed(g) && WaitsOn(g, a, b) && c in g[b]
    ensures WaitsOn(g, a, c)
  {
    var p :| Chain(g, p) && |p| > 1 && p[0] == a && p[|p| - 1] == b;
    assert Chain(g, p + [c]);
  }

  lemma {:induction false} LongestIsUnique(g: Graph, id: string, d: nat, e: nat)
    requires LongestChain(g, id, d) && LongestChain(g, id, e)
    ensures d == e
  {
    var p :| Chain(g, p) && p[0] == id && |p| == d + 1;
    var q :| Chain(g, q) && q[0] == id && |q| == e + 1;
  }

  /** value is 0 for no nodes, and otherwise one more than the greatest of their longest chains. */
  ghost predicate OneMoreThanLongest(g: Graph, waits: seq<string>, value: nat) {
    && (forall w :: w in waits ==> exists d: nat :: LongestChain(g, w, d) && d + 1 <= value)
    && (waits == [] ==> value == 0)
    && (waits != [] ==> value > 0 && exists w :: w in waits && LongestChain(g, w, value - 1))
  }

  lemma {:induction false} OneMoreWait(g: Graph, waits: seq<string>, first: nat, rest: nat)
    requires waits != [] && LongestChain(g, waits[0], first) && OneMoreThanLongest(g, waits[1..], rest)
    ensures OneMoreThanLongest(g, waits, Max(first + 1, rest))
  {
    var value := Max(first + 1, rest);
    assert waits == [waits[0]] + waits[1..];
    forall w | w in waits ensures exists d: nat :: LongestChain(g, w, d) && d + 1 <= value {
      if w in waits[1..] {
        var d: nat :| LongestChain(g, w, d) && d + 1 <= rest;
      }
    }
    if value == rest && value != first + 1 {
      var w :| w in waits[1..] && LongestChain(g, w, rest - 1);
      assert w in waits;
    } else {
      assert waits[0] in waits && LongestChain(g, waits[0], value - 1);
    }
  }

  /** The longest chain from a node is one longer than the longest from what it waits on. */
  lemma {:induction false} LongestFromWaits(g: Graph, id: string, value: nat)
    requires Closed(g) && id in g
    requires OneMoreThanLongest(g, g[id], value)
    ensures LongestChain(g, id, value)
  {
    if g[id] == [] {
      assert Chain(g, [id]);
    } else {
      var w :| w in g[id] && LongestChain(g, w, value - 1);
      var q :| Chain(g, q) && q[0] == w && |q| == value;
      var p := [id] + q;
      assert forall i :: 0 < i < |p| - 1 ==> p[i] == q[i - 1] && p[i + 1] == q[i];
      assert Chain(g, p);
    }
    forall p | Chain(g, p) && p[0] == id ensures |p| <= value + 1 {
      if |p| > 1 {
        var q := p[1..];
        forall i | 0 <= i < |q| - 1 ensures q[i + 1] in g[q[i]] {
          assert p[i + 1 + 1] in g[p[i + 1]];
        }
        assert Chain(g, q) && p[1] in g[id];
      }
    }
  }

  lemma {:induction false} DepthIsLongest(g: Graph, id: string, seen: set<string>, memo: map<string, nat>)
    requires Closed(g) && id in g && seen <= g.Keys && Acyclic(g) && AllLongest(g, memo)
    requires forall s :: s in seen ==> WaitsOn(g, s, id)
    ensures var (value, after) := Depth(g, id, seen, memo); LongestChain(g, id, value) && AllLongest(g, after)
    decreases |g.Keys - seen|, 0
  {
    if id in memo {
    } else {
      assert id !in seen;
      assert g.Keys - (seen + {id}) == (g.Keys - seen) - {id};
      forall s, w | s in seen + {id} && w in g[id] ensures WaitsOn(g, s, w) {
        if s == id { DirectWait(g, id, w); } else { WaitExtends(g, s, id, w); }
      }
      DepthOverIsLongest(g, g[id], seen + {id}, memo);
      LongestFromWaits(g, id, DepthOver(g, g[id], seen + {id}, memo).0);
    }
  }

  lemma {:induction false} DepthOverIsLongest(g: Graph, waits: seq<string>, seen: set<string>, memo: map<string, nat>)
    requires Closed(g) && (forall w :: w in waits ==> w in g) && seen <= g.Keys && Acyclic(g) && AllLongest(g, memo)
    requires forall s, w :: s in seen && w in waits ==> WaitsOn(g, s, w)
    ensures var (value, after) := DepthOver(g, waits, seen, memo);
            AllLongest(g, after) && OneMoreThanLongest(g, waits, value)
    decreases |g.Keys - seen|, |waits|
  {
    if waits != [] {
      var (first, between) := Depth(g, waits[0], seen, memo);
      DepthIsLongest(g, waits[0], seen, memo);
      DepthOverIsLongest(g, waits[1..], seen, between);
      OneMoreWait(g, waits, first, DepthOver(g, waits[1..], seen, between).0);
    }
  }

  lemma {:induction false} DepthsFromIsLongest(g: Graph, ids: seq<string>, memo: map<string, nat>)
    requires Closed(g) && (forall id :: id in ids ==> id in g) && Acyclic(g) && AllLongest(g, memo)
    ensures AllLongest(g, DepthsFrom(g, ids, memo))
  {
    if ids != [] {
      DepthIsLongest(g, ids[0], {}, memo);
      DepthsFromIsLongest(g, ids[1..], Depth(g, ids[0], {}, memo).1);
    }
  }

  /** On an acyclic plan the depth of a node is the length of its longest dependency chain. */
  lemma {:induction false} DepthIsTheLongestChain(nodes: seq<Node>)
    requires Acyclic(GraphOf(nodes))
    ensures forall id :: id in Present(nodes) ==>
              id in ExecutionDepths(nodes) && LongestChain(GraphOf(nodes), id, ExecutionDepths(nodes)[id])
  {
    GraphIsClosed(nodes);
    EveryNodeHasABoundedDepth(nodes);
    DepthsFromIsLongest(GraphOf(nodes), Ids(nodes), map[]);
  }

  ghost predicate DistinctIds(nodes: seq<Node>) {
    forall i, j :: 0 <= i < j < |nodes| ==> nodes[i].id != nodes[j].id
  }

  /** Of the nodes that share an id, the Map holds the dependencies of the last one listed. */
  lemma {:induction false} OwnDependencies(nodes: seq<Node>, i: nat)
    requires i < |nodes| && forall j :: i < j < |nodes| ==> nodes[j].id != nodes[i].id
    ensures DependenciesOf(nodes, nodes[i].id) == nodes[i].dependencies
  {
    if i < |nodes| - 1 {
      assert nodes[..|nodes| - 1][i] == nodes[i];
      OwnDependencies(nodes[..|nodes| - 1], i);
    }
  }

  lemma {:induction false} SameDependencies(nodes: seq<Node>, others: seq<Node>, i: nat)
    requires DistinctIds(nodes) && DistinctIds(others) && multiset(nodes) == multiset(others) && i < |nodes|
    ensures nodes[i].id in Present(others)
    ensures DependenciesOf(nodes, nodes[i].id) == DependenciesOf(others, nodes[i].id)
  {
    assert nodes[i] in multiset(others);
    var j :| 0 <= j < |others| && others[j] == nodes[i];
    OwnDependencies(nodes, i);
    OwnDependencies(others, j);
  }

  /** Listing nodes with distinct ids in another order keeps the graph. */
  lemma {:induction false} GraphIgnoresListing(nodes: seq<Node>, others: seq<Node>)
    requires DistinctIds(nodes) && DistinctIds(others) && multiset(nodes) == multiset(others)
    ensures GraphOf(nodes) == GraphOf(others)
  {
    forall i | 0 <= i < |nodes|
      ensures nodes[i].id in Present(others) && DependenciesOf(nodes, nodes[i].id) == DependenciesOf(others, nodes[i].id)
    {
      SameDependencies(nodes, others, i);
    }
    forall j | 0 <= j < |others| ensures others[j].id in Present(nodes) {
      SameDependencies(others, nodes, j);
    }
    assert Present(nodes) == Present(others);
  }

  lemma {:induction false} IdsAreAPermutation(nodes: seq<Node>, others: seq<Node>)
    requires DistinctIds(nodes) && multiset(nodes) == multiset(others)
    ensures DistinctIds(others)
  {
    forall i, j | 0 <= i < |nodes| && 0 <= j < |nodes| && i != j ensures nodes[i] != nodes[j] {
      assert nodes[i].id != nodes[j].id;
    }
    DistinctSurvivesPermutation(nodes, others);
    forall i, j | 0 <= i < j < |others| ensures others[i].id != others[j].id {
      assert others[i] in multiset(nodes) && others[j] in multiset(nodes);
      var a :| 0 <= a < |nodes| && nodes[a] == others[i];
      var b :| 0 <= b < |nodes| && nodes[b] == others[j];
    }
  }

  lemma {:induction false} SameDepth(g: Graph, a: map<string, nat>, b: map<string, nat>)
    requires Levels(g, a) && Levels(g, b)
    ensures a == b
  {
    forall id | id in g ensures a[id] == b[id] { LongestIsUnique(g, id, a[id], b[id]); }
  }

  /** Listing the nodes of an acyclic plan in another order changes no depth. */
  lemma {:induction false} DepthIgnoresListing(nodes: seq<Node>, others: seq<Node>)
    requires Acyclic(GraphOf(nodes)) && DistinctIds(nodes) && multiset(nodes) == multiset(others)
    ensures ExecutionDepths(nodes) == ExecutionDepths(others)
  {
    IdsAreAPermutation(nodes, others);
    GraphIgnoresListing(nodes, others);
    DepthsAreLevels(nodes);
    DepthsAreLevels(others);
    SameDepth(GraphOf(nodes), ExecutionDepths(nodes), ExecutionDepths(others));
  }

  // ----- what depth says about order -----

  lemma {:induction false} ChainPrepend(g: Graph, id: string, q: seq<string>)
    requires Closed(g) && id in g && Chain(g, q) && q[0] in g[id]
    ensures Chain(g, [id] + q)
  {
    var p := [id] + q;
    forall i | 0 <= i < |p| - 1 ensures p[i + 1] in g[p[i]] {
      if i > 0 { assert p[i] == q[i - 1] && p[i + 1] == q[i - 1 + 1]; }
    }
  }

  lemma {:induction false} ChainTail(g: Graph, p: seq<string>)
    requires Chain(g, p) && |p| > 1
    ensures Chain(g, p[1..]) && p[1] in g[p[0]]
  {
    var q := p[1..];
    forall i | 0 <= i < |q| - 1 ensures q[i + 1] in g[q[i]] {
      assert p[i + 1 + 1] in g[p[i + 1]];
    }
    assert p[0 + 1] in g[p[0]];
  }

  /** depths gives every node of the graph the length of its longest chain. */
  ghost predicate Levels(g: Graph, depths: map<string, nat>) {
    Closed(g) && depths.Keys == g.Keys && forall id :: id in g ==> LongestChain(g, id, depths[id])
  }

  lemma {:induction false} DepthsAreLevels(nodes: seq<Node>)
    requires Acyclic(GraphOf(nodes))
    ensures Levels(GraphOf(nodes), ExecutionDepths(nodes))
  {
    GraphIsClosed(nodes);
    EveryNodeHasABoundedDepth(nodes);
    DepthIsTheLongestChain(nodes);
  }

  lemma {:induction false} Listing(ids: set<string>) returns (list: seq<string>)
    ensures forall id :: id in list <==> id in ids
  {
    if ids == {} {
      list := [];
    } else {
      var id :| id in ids;
      var rest := Listing(ids - {id});
      list := [id] + rest;
    }
  }

  /** Every acyclic graph has levels: the search computes them. */
  lemma {:induction false} AcyclicGraphHasLevels(g: Graph) returns (depths: map<string, nat>)
    requires Closed(g) && Acyclic(g)
    ensures Levels(g, depths)
  {
    var ids := Listing(g.Keys);
    depths := DepthsFrom(g, ids, map[]);
    DepthsFromIsBounded(g, ids, map[]);
    DepthsFromIsLongest(g, ids, map[]);
    assert forall id :: id in g ==> id in ids;
  }

  lemma {:induction false} WaitsAreShallower(g: Graph, depths: map<string, nat>, id: string, w: string)
    requires Levels(g, depths) && id in g && w in g[id]
    ensures depths[w] < depths[id]
  {
    assert LongestChain(g, w, depths[w]);
    var q :| Chain(g, q) && q[0] == w && |q| == depths[w] + 1;
    ChainPrepend(g, id, q);
    assert ([id] + q)[0] == id;
  }

  lemma {:induction false} OneWaitIsJustShallower(g: Graph, depths: map<string, nat>, id: string) returns (w: string)
    requires Levels(g, depths) && id in g && depths[id] > 0
    ensures w in g[id] && depths[w] + 1 == depths[id]
  {
    var p :| Chain(g, p) && p[0] == id && |p| == depths[id] + 1;
    w := p[1];
    ChainTail(g, p);
    WaitsAreShallower(g, depths, id, w);
    assert p[1..][0] == w;
  }

  /** Every direct dependency has a smaller depth than the node that waits on it. */
  ghost predicate Descends(g: Graph, depths: map<string, nat>) {
    depths.Keys == g.Keys && forall id, w :: id in g && w in g[id] ==> w in depths && depths[w] < depths[id]
  }

  lemma {:induction false} LevelsDescend(g: Graph, depths: map<string, nat>)
    requires Levels(g, depths)
    ensures Descends(g, depths)
  {
    forall id, w | id in g && w in g[id] ensures w in depths && depths[w] < depths[id] {
      WaitsAreShallower(g, depths, id, w);
    }
  }

  lemma {:induction false} ChainDescends(g: Graph, depths: map<string, nat>, p: seq<string>)
    requires Descends(g, depths) && Chain(g, p)
    ensures depths[p[|p| - 1]] + |p| <= depths[p[0]] + 1
  {
    if |p| > 1 {
      ChainTail(g, p);
      ChainDescends(g, depths, p[1..]);
      assert p[1] in g[p[0]];
    }
  }

  /** A plan is acyclic exactly when the depths of the search go down along every single dependency. */
  lemma {:induction false} AcyclicExactlyWhenDepthsDescend(nodes: seq<Node>)
    ensures Acyclic(GraphOf(nodes)) <==> Descends(GraphOf(nodes), ExecutionDepths(nodes))
  {
    var g, depths := GraphOf(nodes), ExecutionDepths(nodes);
    if Acyclic(g) {
      DepthsAreLevels(nodes);
      LevelsDescend(g, depths);
    }
    if Descends(g, depths) {
      forall p | Chain(g, p) && |p| > 1 ensures p[0] != p[|p| - 1] {
        ChainDescends(g, depths, p);
      }
    }
  }

  lemma {:induction false} WaitedOnIsShallower(g: Graph, depths: map<string, nat>, a: string, b: string)
    requires Levels(g, depths) && WaitsOn(g, a, b)
    ensures b in g && a in g && depths[b] < depths[a]
  {
    var p :| Chain(g, p) && |p| > 1 && p[0] == a && p[|p| - 1] == b;
    LevelsDescend(g, depths);
    ChainDescends(g, depths, p);
  }

  function DepthKey(depths: map<string, nat>): Node -> real {
    (node: Node) => if node.id in depths then depths[node.id] as real else 0.0
  }

  /** Sorted by depth, every node comes after everything that it waits on, directly or not. */
  lemma {:induction false} SortedByDepthIsTopological(nodes: seq<Node>, i: nat, j: nat)
    requires Acyclic(GraphOf(nodes))
    requires var ordered := Sort(nodes, DepthKey(ExecutionDepths(nodes)));
             i < |ordered| && j < |ordered| && WaitsOn(GraphOf(nodes), ordered[i].id, ordered[j].id)
    ensures j < i
  {
    var depths := ExecutionDepths(nodes);
    var ordered := Sort(nodes, DepthKey(depths));
    DepthsAreLevels(nodes);
    WaitedOnIsShallower(GraphOf(nodes), depths, ordered[i].id, ordered[j].id);
    assert DepthKey(depths)(ordered[j]) < DepthKey(depths)(ordered[i]);
    SmallerComesFirst(nodes, DepthKey(depths), i, j);
  }
}
