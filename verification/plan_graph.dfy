/**
  The structure check of an execution plan: valid dependencies, no cycle, a step to start from. The cycle
  search is the source's recursive depth-first search over two mutable sets.
 */
module PlanGraph {

  type Graph = map<string, seq<string>>

  datatype PlanStep = PlanStep(id: string, dependencies: seq<string>)

  /** `adj.get(node, [])`: a name that is no step has no dependencies. */
  function Deps(g: Graph, node: string): seq<string> {
    if node in g then g[node] else []
  }

  // ----- paths -----

  /** Consecutive nodes depend on each other. */
  predicate IsPath(g: Graph, p: seq<string>) {
    |p| >= 1 && forall i :: 0 <= i < |p| - 1 ==> p[i + 1] in Deps(g, p[i])
  }

  predicate PathFromTo(g: Graph, p: seq<string>, a: string, b: string) {
    IsPath(g, p) && p[0] == a && p[|p| - 1] == b
  }

  /** `b` is reached from `a` by at least one dependency. */
  ghost predicate Reaches(g: Graph, a: string, b: string) {
    exists p :: PathFromTo(g, p, a, b) && |p| >= 2
  }

  ghost predicate HasCycle(g: Graph) {
    exists n :: Reaches(g, n, n)
  }

  lemma EdgeReaches(g: Graph, a: string, b: string)
    requires b in Deps(g, a)
    ensures Reaches(g, a, b)
  {
    assert PathFromTo(g, [a, b], a, b);
  }

  lemma ReachesTransitive(g: Graph, a: string, b: string, c: string)
    requires Reaches(g, a, b) && Reaches(g, b, c)
    ensures Reaches(g, a, c)
  {
    var p :| PathFromTo(g, p, a, b) && |p| >= 2;
    var q :| PathFromTo(g, q, b, c) && |q| >= 2;
    var r := p + q[1..];
    forall i | 0 <= i < |r| - 1
      ensures r[i + 1] in Deps(g, r[i])
    {
      if i >= |p| - 1 {
        var j := i - (|p| - 1);
        assert r[i] == q[j] && r[i + 1] == q[j + 1];
      }
    }
    assert PathFromTo(g, r, a, c);
  }

  /** A path that is not a single edge continues from a dependency of its first node. */
  lemma ReachesByFirstEdge(g: Graph, a: string, b: string)
    requires Reaches(g, a, b)
    ensures exists d :: d in Deps(g, a) && (d == b || Reaches(g, d, b))
  {
    var p :| PathFromTo(g, p, a, b) && |p| >= 2;
    assert p[1] in Deps(g, p[0]);
    if |p| > 2 {
      var q := p[1..];
      forall i | 0 <= i < |q| - 1
        ensures q[i + 1] in Deps(g, q[i])
      {
        assert q[i] == p[i + 1] && q[i + 1] == p[i + 2];
      }
      assert PathFromTo(g, q, p[1], b);
    }
  }

  predicate Closed(g: Graph, s: set<string>) {
    forall n, d :: n in s && d in Deps(g, n) ==> d in s
  }

  /** A closed set holds everything its members reach. */
  lemma {:induction false} ClosedHoldsReachable(g: Graph, s: set<string>, p: seq<string>)
    requires Closed(g, s) && IsPath(g, p) && p[0] in s
    ensures p[|p| - 1] in s
    decreases |p|
  {
    if |p| > 1 {
      assert p[1] in Deps(g, p[0]);
      var q := p[1..];
      forall i | 0 <= i < |q| - 1
        ensures q[i + 1] in Deps(g, q[i])
      {
        assert q[i] == p[i + 1] && q[i + 1] == p[i + 2];
      }
      ClosedHoldsReachable(g, s, q);
    }
  }

  lemma ClosedReaches(g: Graph, s: set<string>, a: string, b: string)
    requires Closed(g, s) && a in s && Reaches(g, a, b)
    ensures b in s
  {
    var p :| PathFromTo(g, p, a, b) && |p| >= 2;
    ClosedHoldsReachable(g, s, p);
  }

  /** Nodes that lead only to each other and lie on no cycle. */
  ghost predicate OffCycles(g: Graph, s: set<string>) {
    Closed(g, s) && forall n :: n in s ==> !Reaches(g, n, n)
  }

  /** A node all of whose dependencies are off every cycle is so too. */
  lemma LeavingIsSafe(g: Graph, left: set<string>, node: string)
    requires OffCycles(g, left) && node !in left && forall d :: d in Deps(g, node) ==> d in left
    ensures OffCycles(g, left + {node})
  {
    if Reaches(g, node, node) {
      ReachesByFirstEdge(g, node, node);
      var d :| d in Deps(g, node) && (d == node || Reaches(g, d, node));
      ClosedReaches(g, left, d, node);
    }
  }

  // ----- the search -----

  /** Everything the search can ever visit. */
  function Universe(g: Graph): set<string> {
    g.Keys + set n, d | n in g && d in g[n] :: d
  }

  /** The node can be reached from each of the set. */
  ghost predicate AllReach(g: Graph, s: set<string>, node: string) {
    forall r :: r in s ==> Reaches(g, r, node)
  }

  /** What reaches a node, and the node itself, reaches each of its dependencies. */
  lemma StackReaches(g: Graph, above: set<string>, node: string, dep: string)
    requires dep in Deps(g, node) && AllReach(g, above, node)
    ensures AllReach(g, above + {node}, dep)
  {
    EdgeReaches(g, node, dep);
    forall r | r in above
      ensures Reaches(g, r, dep)
    {
      ReachesTransitive(g, r, node, dep);
    }
  }

  lemma BackEdgeIsCycle(g: Graph, stack: set<string>, dep: string)
    requires AllReach(g, stack, dep) && dep in stack
    ensures HasCycle(g)
  {
    assert Reaches(g, dep, dep);
  }

  /** The nodes a search has left again are off every cycle. */
  ghost predicate Searched(g: Graph, visited: set<string>, recStack: set<string>) {
    recStack <= visited <= Universe(g) && OffCycles(g, visited - recStack)
  }

  lemma EnterNode(g: Graph, visited: set<string>, recStack: set<string>, node: string)
    requires Searched(g, visited, recStack) && node in Universe(g) && node !in visited
    ensures Searched(g, visited + {node}, recStack + {node})
  {
    assert (visited + {node}) - (recStack + {node}) == visited - recStack;
  }

  lemma LeaveNode(g: Graph, visited: set<string>, recStack: set<string>, node: string)
    requires Searched(g, visited, recStack) && node in recStack
    requires forall d :: d in Deps(g, node) ==> d in visited - recStack
    ensures Searched(g, visited, recStack - {node})
  {
    LeavingIsSafe(g, visited - recStack, node);
    assert visited - (recStack - {node}) == (visited - recStack) + {node};
  }

  class CycleSearch {
    const g: Graph
    var visited: set<string>
    var recStack: set<string>

    constructor (g: Graph)
      ensures this.g == g && visited == {} && recStack == {} && Valid()
    {
      this.g := g;
      visited, recStack := {}, {};
    }

    ghost predicate Valid()
      reads this
    {
      Searched(g, visited, recStack)
    }

    /** Visiting a node finds a cycle only if there is one, and otherwise leaves the node off every cycle. */
    method Dfs(node: string) returns (found: bool)
      requires Valid() && node in Universe(g) && node !in visited
      requires AllReach(g, recStack, node)
      modifies this
      ensures found ==> HasCycle(g)
      ensures !found ==> Valid() && recStack == old(recStack) && old(visited) + {node} <= visited
      decreases Universe(g) - visited
    {
      hide HasCycle, Reaches, OffCycles;
      EnterNode(g, visited, recStack, node);
      ghost var above := recStack;
      visited := visited + {node};
      recStack := recStack + {node};
      var deps := Deps(g, node);
      for i := 0 to |deps|
        invariant recStack == above + {node} && old(visited) + {node} <= visited
        invariant Valid()
        invariant forall j :: 0 <= j < i ==> deps[j] in visited - recStack
      {
        var parent := deps[i];
        StackReaches(g, above, node, parent);
        if parent !in visited {
          var inner := Dfs(parent);
          if inner {
            return true;
          }
        } else if parent in recStack {
          BackEdgeIsCycle(g, recStack, parent);
          return true;
        }
      }
      LeaveNode(g, visited, recStack, node);
      recStack := recStack - {node};
      return false;
    }
  }

  /** The outer loop, over the steps in any order: the answer is exactly whether there is a cycle. */
  method FindCycle(g: Graph) returns (hasCycle: bool)
    ensures hasCycle <==> HasCycle(g)
  {
    var search := new CycleSearch(g);
    var ids := g.Keys;
    while ids != {}
      invariant search.g == g && search.Valid() && search.recStack == {}
      invariant ids <= g.Keys && g.Keys - ids <= search.visited
      decreases ids
    {
      var id :| id in ids;
      if id !in search.visited {
        var found := search.Dfs(id);
        if found {
          return true;
        }
      }
      ids := ids - {id};
    }
    forall n | Reaches(g, n, n)
      ensures n in g
    {
      ReachesByFirstEdge(g, n, n);
    }
    return false;
  }

  // ----- what having no cycle is good for -----

  /** An order of the steps in which every dependency that is a step comes before whoever depends on it. */
  predicate Ordered(g: Graph, order: seq<string>) {
    && (forall i, j :: 0 <= i < j < |order| ==> order[i] != order[j])
    && (forall i, j :: 0 <= i <= j < |order| ==> order[j] !in Deps(g, order[i]))
  }

  ghost predicate ExecutionOrder(g: Graph, order: seq<string>) {
    Ordered(g, order) && forall n :: n in order <==> n in g
  }

  predicate DependsInto(g: Graph, n: string, s: set<string>) {
    exists d :: d in Deps(g, n) && d in s
  }

  /** Every node of the set depends on one of the set. */
  predicate NoSource(g: Graph, s: set<string>) {
    forall n {:trigger DependsInto(g, n, s)} :: n in s ==> DependsInto(g, n, s)
  }

  lemma StaysBelow(g: Graph, s: set<string>, x: string, n: string, below: set<string>)
    requires DependsInto(g, n, s) && (n == x || Reaches(g, x, n))
    requires forall y :: y in below <==> y in s && Reaches(g, x, y)
    ensures DependsInto(g, n, below)
  {
    var d :| d in Deps(g, n) && d in s;
    EdgeReaches(g, n, d);
    if n != x {
      ReachesTransitive(g, x, n, d);
    }
    assert d in below;
  }

  /** Where every node of a non-empty set depends on one of the set, there is a cycle. */
  lemma {:induction false} NoSourceMeansCycle(g: Graph, s: set<string>)
    requires s != {} && NoSource(g, s)
    ensures HasCycle(g)
    decreases |s|
  {
    var x :| x in s;
    var below: set<string> := set y | y in s && Reaches(g, x, y);
    if x !in below {
      forall n | n in below || n == x
        ensures DependsInto(g, n, below)
      {
        assert DependsInto(g, n, s);
        StaysBelow(g, s, x, n, below);
      }
      assert below != {};
      SmallerSet(below, s, x);
      NoSourceMeansCycle(g, below);
    }
  }

  lemma SmallerSet(a: set<string>, b: set<string>, x: string)
    requires a <= b && x in b && x !in a
    ensures |a| < |b|
  {
    var rest := b - a;
    assert b == a + rest && x in rest;
    assert |b| == |a| + |rest|;
  }

  /** Without a cycle the steps of any set can be put in order, one step without pending dependencies at a time. */
  lemma {:induction false} OrderSet(g: Graph, s: set<string>) returns (order: seq<string>)
    requires !HasCycle(g)
    ensures Ordered(g, order) && forall n :: n in order <==> n in s
    decreases |s|
  {
    if s == {} {
      return [];
    }
    if NoSource(g, s) {
      NoSourceMeansCycle(g, s);
    }
    var x :| x in s && !DependsInto(g, x, s);
    var rest := OrderSet(g, s - {x});
    order := [x] + rest;
    forall i, j | 0 <= i <= j < |order|
      ensures i < j ==> order[i] != order[j]
      ensures order[j] !in Deps(g, order[i])
    {
      assert j > 0 ==> order[j] == rest[j - 1] && rest[j - 1] in rest;
      assert i > 0 ==> order[i] == rest[i - 1];
    }
  }

  /** Along a path inside an execution order the positions only go down. */
  lemma {:induction false} PathGoesBack(g: Graph, order: seq<string>, p: seq<string>, i: nat, j: nat)
    requires Ordered(g, order) && IsPath(g, p) && |p| >= 2
    requires forall k :: 0 <= k < |p| ==> p[k] in order
    requires i < |order| && j < |order| && order[i] == p[0] && order[j] == p[|p| - 1]
    ensures j < i
    decreases |p|
  {
    var k :| 0 <= k < |order| && order[k] == p[1];
    assert p[0 + 1] in Deps(g, p[0]);
    assert k < i;
    if |p| > 2 {
      var q := p[1..];
      forall m | 0 <= m < |q| - 1
        ensures q[m + 1] in Deps(g, q[m])
      {
        assert q[m] == p[m + 1] && q[m + 1] == p[m + 2];
      }
      PathGoesBack(g, order, q, k, j);
    } else {
      assert k == j;
    }
  }

  lemma {:induction false} NodesOfCycle(g: Graph, p: seq<string>)
    requires IsPath(g, p) && |p| >= 2 && p[0] == p[|p| - 1]
    ensures forall k :: 0 <= k < |p| ==> p[k] in g
  {
    forall k | 0 <= k < |p|
      ensures p[k] in g
    {
      var i := if k < |p| - 1 then k else 0;
      assert p[i + 1] in Deps(g, p[i]);
    }
  }

  /** A plan has no cycle exactly when its steps can be executed in some order. */
  lemma AcyclicIffOrderable(g: Graph)
    ensures !HasCycle(g) <==> exists order :: ExecutionOrder(g, order)
  {
    if !HasCycle(g) {
      var order := OrderSet(g, g.Keys);
      assert ExecutionOrder(g, order);
    } else {
      var n :| Reaches(g, n, n);
      var p :| PathFromTo(g, p, n, n) && |p| >= 2;
      NodesOfCycle(g, p);
      forall order | ExecutionOrder(g, order)
        ensures false
      {
        assert n in g;
        var i :| 0 <= i < |order| && order[i] == n;
        PathGoesBack(g, order, p, i, i);
      }
    }
  }

  // ----- the evaluation -----

  /** Step ids to dependencies; of two steps with one id the later wins. */
  function Adjacency(steps: seq<PlanStep>): (g: Graph)
    ensures forall n :: n in g <==> exists i :: 0 <= i < |steps| && steps[i].id == n
    ensures forall n :: n in g ==> exists i :: 0 <= i < |steps| && steps[i] == PlanStep(n, g[n])
  {
    if steps == [] then map[]
    else
      var last := steps[|steps| - 1];
      assert forall i :: 0 <= i < |steps| - 1 ==> steps[..|steps| - 1][i] == steps[i];
      Adjacency(steps[..|steps| - 1])[last.id := last.dependencies]
  }

  predicate DependenciesValid(steps: seq<PlanStep>) {
    forall i, d :: 0 <= i < |steps| && d in steps[i].dependencies ==> d in Adjacency(steps)
  }

  predicate IsRoot(s: PlanStep) {
    |s.dependencies| == 0
  }

  predicate HasRoot(steps: seq<PlanStep>) {
    exists i :: 0 <= i < |steps| && IsRoot(steps[i])
  }

  lemma AnyDependency(g: Graph, n: string, s: set<string>)
    requires Deps(g, n) != [] && forall d :: d in Deps(g, n) ==> d in s
    ensures DependsInto(g, n, s)
  {
    assert Deps(g, n)[0] in Deps(g, n);
  }

  lemma SourceOfPlan(steps: seq<PlanStep>, n: string)
    requires DependenciesValid(steps) && n in Adjacency(steps)
         && !DependsInto(Adjacency(steps), n, Adjacency(steps).Keys)
    ensures HasRoot(steps)
  {
    var g := Adjacency(steps);
    var i :| 0 <= i < |steps| && steps[i] == PlanStep(n, g[n]);
    if Deps(g, n) != [] {
      AnyDependency(g, n, g.Keys);
    }
    assert IsRoot(steps[i]);
  }

  /** A non-empty plan with valid dependencies and no cycle always has a step to start from. */
  lemma RootExists(steps: seq<PlanStep>)
    requires steps != [] && DependenciesValid(steps) && !HasCycle(Adjacency(steps))
    ensures HasRoot(steps)
  {
    var ids := Adjacency(steps).Keys;
    assert steps[0].id in ids;
    if NoSource(Adjacency(steps), ids) {
      NoSourceMeansCycle(Adjacency(steps), ids);
    }
    var n :| n in ids && !DependsInto(Adjacency(steps), n, ids);
    SourceOfPlan(steps, n);
  }

  /** The terminal step depends on every root, directly or through one of its own dependencies. */
  predicate Synthesizes(steps: seq<PlanStep>)
    requires steps != []
  {
    forall i :: 0 <= i < |steps| && IsRoot(steps[i]) ==> Covered(steps, steps[i].id)
  }

  /** The last step depends on this one, or on one that does. */
  predicate Covered(steps: seq<PlanStep>, root: string)
    requires steps != []
  {
    var last := steps[|steps| - 1];
    || root in last.dependencies
    || exists j :: 0 <= j < |steps| && root in steps[j].dependencies && steps[j].id in last.dependencies
  }

  function Roots(steps: seq<PlanStep>): nat {
    if steps == [] then 0
    else Roots(steps[..|steps| - 1]) + (if IsRoot(steps[|steps| - 1]) then 1 else 0)
  }

  predicate Coherent(steps: seq<PlanStep>) {
    2 <= Roots(steps) < |steps| ==> Synthesizes(steps)
  }

  lemma {:induction false} RootsCount(steps: seq<PlanStep>)
    ensures Roots(steps) >= 1 <==> HasRoot(steps)
  {
    if steps != [] {
      var front := steps[..|steps| - 1];
      RootsCount(front);
      if HasRoot(front) {
        var i :| 0 <= i < |front| && IsRoot(front[i]);
        assert IsRoot(steps[i]);
      }
      if HasRoot(steps) {
        var i :| 0 <= i < |steps| && IsRoot(steps[i]);
        assert i < |front| ==> IsRoot(front[i]);
      }
    }
  }

  datatype Evaluation = Evaluation(dependenciesValid: bool, acyclic: bool, hasRoots: bool, coherent: bool,
          passed: bool, score: real)

  /** What a criterion that is met counts. */
  function One(met: bool): real {
    if met then 1.0 else 0.0
  }

  predicate DistinctIds(steps: seq<PlanStep>) {
    forall i, j :: 0 <= i < j < |steps| ==> steps[i].id != steps[j].id
  }

  /** The positions of the steps without dependencies. */
  function RootsAt(steps: seq<PlanStep>): set<nat> {
    set i: nat | i < |steps| && IsRoot(steps[i])
  }

  lemma {:induction false} RootsAreCounted(steps: seq<PlanStep>)
    ensures Roots(steps) == |RootsAt(steps)|
  {
    if steps == [] {
      assert RootsAt(steps) == {};
    } else {
      var n := |steps| - 1;
      RootsAreCounted(steps[..n]);
      assert RootsAt(steps) == RootsAt(steps[..n]) + (if IsRoot(steps[n]) then {n} else {});
      assert n !in RootsAt(steps[..n]);
    }
  }

  /** One or two dependencies lead from one node to another. */
  ghost predicate WithinTwo(g: Graph, a: string, b: string) {
    exists p :: PathFromTo(g, p, a, b) && 2 <= |p| <= 3
  }

  lemma OneDependency(g: Graph, a: string, b: string)
    requires b in Deps(g, a)
    ensures WithinTwo(g, a, b)
  {
    assert PathFromTo(g, [a, b], a, b);
  }

  lemma TwoDependencies(g: Graph, a: string, m: string, b: string)
    requires m in Deps(g, a) && b in Deps(g, m)
    ensures WithinTwo(g, a, b)
  {
    assert PathFromTo(g, [a, m, b], a, b);
  }

  lemma DepsOfStep(steps: seq<PlanStep>, i: nat)
    requires DistinctIds(steps) && i < |steps|
    ensures Deps(Adjacency(steps), steps[i].id) == steps[i].dependencies
  {
    var g := Adjacency(steps);
    assert steps[i].id in g;
    var j :| 0 <= j < |steps| && steps[j] == PlanStep(steps[i].id, g[steps[i].id]);
  }

  /** A path of two dependencies goes over a step. */
  lemma MiddleIsAStep(steps: seq<PlanStep>, p: seq<string>) returns (j: nat)
    requires DistinctIds(steps) && IsPath(Adjacency(steps), p) && |p| == 3
    ensures j < |steps| && steps[j].id == p[1] && p[2] in steps[j].dependencies
  {
    var g := Adjacency(steps);
    assert p[2] in Deps(g, p[1]);
    j :| 0 <= j < |steps| && steps[j] == PlanStep(p[1], g[p[1]]);
  }

  lemma CoveredIsNear(steps: seq<PlanStep>, root: string)
    requires DistinctIds(steps) && steps != [] && Covered(steps, root)
    ensures WithinTwo(Adjacency(steps), steps[|steps| - 1].id, root)
  {
    var g, last := Adjacency(steps), steps[|steps| - 1];
    DepsOfStep(steps, |steps| - 1);
    if root in last.dependencies {
      OneDependency(g, last.id, root);
    } else {
      var j :| 0 <= j < |steps| && root in steps[j].dependencies && steps[j].id in last.dependencies;
      DepsOfStep(steps, j);
      TwoDependencies(g, last.id, steps[j].id, root);
    }
  }

  lemma NearIsCovered(steps: seq<PlanStep>, root: string)
    requires DistinctIds(steps) && steps != []
    requires WithinTwo(Adjacency(steps), steps[|steps| - 1].id, root)
    ensures Covered(steps, root)
  {
    var g, last := Adjacency(steps), steps[|steps| - 1];
    DepsOfStep(steps, |steps| - 1);
    var p :| PathFromTo(g, p, last.id, root) && 2 <= |p| <= 3;
    assert p[1] in Deps(g, p[0]);
    if |p| == 3 {
      var j := MiddleIsAStep(steps, p);
    }
  }

  /**
    Coherence in terms of the graph: if there are several steps to start from and others besides, the last step
    is at most two dependencies away from each of them.
   */
  lemma CoherentMeans(steps: seq<PlanStep>)
    requires DistinctIds(steps) && steps != []
    ensures Coherent(steps)
       <==> (2 <= |RootsAt(steps)| < |steps| ==>
               forall i :: i in RootsAt(steps) ==>
                 WithinTwo(Adjacency(steps), steps[|steps| - 1].id, steps[i].id))
  {
    RootsAreCounted(steps);
    forall root: string
      ensures Covered(steps, root) <==> WithinTwo(Adjacency(steps), steps[|steps| - 1].id, root)
    {
      if Covered(steps, root) {
        CoveredIsNear(steps, root);
      }
      if WithinTwo(Adjacency(steps), steps[|steps| - 1].id, root) {
        NearIsCovered(steps, root);
      }
    }
  }

  /** `evaluate_plan_structure`. */
  method EvaluatePlanStructure(steps: seq<PlanStep>) returns (r: Evaluation)
    ensures r.dependenciesValid <==> DependenciesValid(steps)
    ensures r.acyclic <==> !HasCycle(Adjacency(steps))
    ensures r.hasRoots <==> HasRoot(steps)
    ensures r.coherent <==> Coherent(steps)
    ensures r.passed <==> r.dependenciesValid && r.acyclic && r.hasRoots && r.coherent
    ensures r.passed <==> r.score == 1.0
    ensures r.score * 4.0 == One(r.dependenciesValid) + One(r.acyclic) + One(r.hasRoots) + One(r.coherent)
    ensures r.passed ==> steps != [] && exists order :: ExecutionOrder(Adjacency(steps), order)
    ensures r.dependenciesValid && r.acyclic && !r.hasRoots ==> steps == []
  {
    var g := Adjacency(steps);
    var valid := true;
    var roots := 0;
    for i := 0 to |steps|
      invariant valid <==> forall k, d :: 0 <= k < i && d in steps[k].dependencies ==> d in g
      invariant roots == Roots(steps[..i])
    {
      for j := 0 to |steps[i].dependencies|
        invariant valid <==> (forall k, d :: 0 <= k < i && d in steps[k].dependencies ==> d in g)
                             && forall m :: 0 <= m < j ==> steps[i].dependencies[m] in g
      {
        if steps[i].dependencies[j] !in g {
          valid := false;
        }
      }
      assert steps[..i + 1][..i] == steps[..i];
      if |steps[i].dependencies| == 0 {
        roots := roots + 1;
      }
    }
    assert steps[..|steps|] == steps;
    RootsCount(steps);
    var hasCycle := FindCycle(g);
    var coherent := !(roots >= 2 && |steps| > roots) || Synthesizes(steps);
    var count := (if valid then 1.0 else 0.0) + (if !hasCycle then 1.0 else 0.0)
               + (if roots >= 1 then 1.0 else 0.0) + (if coherent then 1.0 else 0.0);
    r := Evaluation(valid, !hasCycle, roots >= 1, coherent, valid && !hasCycle && roots >= 1 && coherent, count / 4.0);
    AcyclicIffOrderable(g);
    if valid && !hasCycle && steps != [] {
      RootExists(steps);
    }
  }
}
