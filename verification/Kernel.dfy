/**
  Kernel start-up and shutdown: three-colour depth-first resolution of component dependencies over
  an arbitrary graph, in whatever order the component map happens to be iterated.
 */
module Kernel {

  type Name = string

  // Registered components and the dependencies each one names, registered or not.
  type Graph = map<Name, seq<Name>>

  datatype Colour = Gray | Black

  datatype Result = Ok | CircularAt(name: Name) | NotRegistered(name: Name, requiredBy: Name)

  // ---- What the resolution is for --------------------------------------------------------------------

  predicate Edge(g: Graph, a: Name, b: Name) {
    a in g && b in g[a]
  }

  // Every dependency is registered.
  predicate Closed(g: Graph) {
    forall a, k :: a in g && 0 <= k < |g[a]| ==> g[a][k] in g
  }

  predicate IsPath(g: Graph, p: seq<Name>) {
    forall i :: 0 <= i < |p| - 1 ==> Edge(g, p[i], p[i + 1])
  }

  predicate IsCycle(g: Graph, c: seq<Name>) {
    |c| >= 2 && c[0] == c[|c| - 1] && IsPath(g, c)
  }

  ghost predicate Acyclic(g: Graph) {
    forall c :: !IsCycle(g, c)
  }

  predicate Distinct(s: seq<Name>) {
    forall i, j :: 0 <= i < j < |s| ==> s[i] != s[j]
  }

  // Each listed component is registered and comes after all of its dependencies.
  predicate DependenciesFirst(g: Graph, order: seq<Name>) {
    forall i :: 0 <= i < |order| ==>
      order[i] in g && forall k :: 0 <= k < |g[order[i]]| ==> g[order[i]][k] in order[..i]
  }

  // A duplicate-free listing of all components with dependencies first.
  predicate IsStartOrder(g: Graph, order: seq<Name>) {
    && Distinct(order)
    && DependenciesFirst(g, order)
    && forall n :: n in g ==> n in order
  }

  // ---- A start order exists only for closed acyclic graphs ---------------------------------------------

  function IndexOf(order: seq<Name>, x: Name): (i: nat)
    requires x in order
    ensures i < |order| && order[i] == x && x !in order[..i]
  {
    if order[0] == x then 0 else 1 + IndexOf(order[1..], x)
  }

  lemma DependencyIsEarlier(g: Graph, order: seq<Name>, a: Name, b: Name)
    requires Distinct(order) && DependenciesFirst(g, order) && a in order && Edge(g, a, b)
    ensures b in order && IndexOf(order, b) < IndexOf(order, a)
  {
    var i := IndexOf(order, a);
    var k :| 0 <= k < |g[a]| && g[a][k] == b;
    assert b in order[..i];
    var j :| 0 <= j < i && order[j] == b;
    assert order[IndexOf(order, b)] == b == order[j];
  }

  lemma {:induction false} PathDescends(g: Graph, order: seq<Name>, p: seq<Name>)
    requires Distinct(order) && DependenciesFirst(g, order)
    requires p != [] && IsPath(g, p) && p[0] in order
    ensures p[|p| - 1] in order && IndexOf(order, p[|p| - 1]) + |p| - 1 <= IndexOf(order, p[0])
  {
    if |p| > 1 {
      var n := |p| - 1;
      PathDescends(g, order, p[..n]);
      assert Edge(g, p[n - 1], p[n]);
      DependencyIsEarlier(g, order, p[n - 1], p[n]);
    }
  }

  lemma StartOrderImpliesAcyclic(g: Graph, order: seq<Name>)
    requires IsStartOrder(g, order)
    ensures Closed(g) && Acyclic(g)
  {
    forall a, k | a in g && 0 <= k < |g[a]| ensures g[a][k] in g {
      DependencyIsEarlier(g, order, a, g[a][k]);
    }
    forall c ensures !IsCycle(g, c) {
      if IsCycle(g, c) {
        assert Edge(g, c[0], c[1]);
        PathDescends(g, order, c);
      }
    }
  }

  // ---- The depth-first search ------------------------------------------------------------------------

  // The search state between two calls: `stack` is the chain of calls in progress.
  predicate SearchState(g: Graph, colour: map<Name, Colour>, order: seq<Name>, stack: seq<Name>) {
    && IsPath(g, stack)
    && (forall i :: 0 <= i < |stack| ==> stack[i] in g)
    && (forall n :: n in colour && colour[n] == Gray ==> n in stack)
    && (forall i :: 0 <= i < |stack| ==> stack[i] in colour && colour[stack[i]] == Gray)
    && Distinct(order)
    && DependenciesFirst(g, order)
    && (forall n :: n in colour && colour[n] == Black ==> n in order)
    && (forall i :: 0 <= i < |order| ==> order[i] in colour && colour[order[i]] == Black)
  }

  // A failed resolution names a real defect of the graph.
  ghost predicate Defect(g: Graph, r: Result) {
    match r
    case Ok => false
    case CircularAt(n) => exists c :: IsCycle(g, c) && c[0] == n
    case NotRegistered(n, parent) => n !in g && Edge(g, parent, n)
  }

  // Meeting a gray node closes the part of the call chain from that node into a cycle.
  lemma GrayHitIsCycle(g: Graph, stack: seq<Name>, name: Name)
    requires IsPath(g, stack) && name in stack && Edge(g, stack[|stack| - 1], name)
    ensures Defect(g, CircularAt(name))
  {
    var i :| 0 <= i < |stack| && stack[i] == name;
    var c := stack[i..] + [name];
    forall k | 0 <= k < |c| - 1 ensures Edge(g, c[k], c[k + 1]) {
      if k < |c| - 2 {
        assert Edge(g, stack[i + k], stack[i + k + 1]);
      }
    }
    assert IsCycle(g, c) && c[0] == name;
  }

  lemma PushGray(g: Graph, colour: map<Name, Colour>, order: seq<Name>, stack: seq<Name>, name: Name)
    requires SearchState(g, colour, order, stack) && name in g && name !in colour
    requires stack == [] || Edge(g, stack[|stack| - 1], name)
    ensures SearchState(g, colour[name := Gray], order, stack + [name])
  {
  }

  lemma PopBlack(g: Graph, colour: map<Name, Colour>, order: seq<Name>, stack: seq<Name>, name: Name)
    requires SearchState(g, colour, order, stack + [name])
    requires name !in stack && name in g
    requires forall k :: 0 <= k < |g[name]| ==> g[name][k] in order
    ensures SearchState(g, colour[name := Black], order + [name], stack)
  {
    var s, o := stack + [name], order + [name];
    assert colour[s[|stack|]] == Gray;
    forall i | 0 <= i < |stack| ensures stack[i] in colour && colour[stack[i]] == Gray && stack[i] in g {
      assert s[i] == stack[i];
    }
    forall i | 0 <= i < |stack| - 1 ensures Edge(g, stack[i], stack[i + 1]) {
      assert Edge(g, s[i], s[i + 1]);
    }
    assert name !in order;
    forall i | 0 <= i < |o|
      ensures o[i] in g && forall k :: 0 <= k < |g[o[i]]| ==> g[o[i]][k] in o[..i]
    {
      if i < |order| {
        assert o[..i] == order[..i];
      } else {
        assert o[..i] == order;
      }
    }
  }

  predicate AllIn(xs: seq<Name>, order: seq<Name>) {
    forall k :: 0 <= k < |xs| ==> xs[k] in order
  }

  lemma StillListed(xs: seq<Name>, before: seq<Name>, after: seq<Name>)
    requires AllIn(xs, before) && before <= after
    ensures AllIn(xs, after)
  {
    forall k | 0 <= k < |xs| ensures xs[k] in after {
      var j :| 0 <= j < |before| && before[j] == xs[k];
      assert after[j] == xs[k];
    }
  }

  class Resolver {
    const graph: Graph
    var colour: map<Name, Colour>   // absent means white
    var order: seq<Name>

    constructor (graph: Graph)
      ensures this.graph == graph && colour == map[] && order == []
    {
      this.graph := graph;
      colour := map[];
      order := [];
    }

    // Registered components not yet reached.
    ghost function White(): set<Name>
      reads this
    {
      graph.Keys - colour.Keys
    }

    ghost predicate Valid(stack: seq<Name>)
      reads this
    {
      SearchState(graph, colour, order, stack)
    }

    /** One call of the recursive visitor, from the chain of calls `stack`.  On success the component
        and everything it needs is listed; on failure the error names a real defect. */
    method Visit(name: Name, requiredBy: Name, ghost stack: seq<Name>) returns (r: Result)
      requires Valid(stack)
      requires if stack == [] then name in graph else requiredBy == stack[|stack| - 1] && Edge(graph, requiredBy, name)
      modifies this
      ensures r.Ok? ==> Valid(stack) && name in order && old(order) <= order && old(colour).Keys <= colour.Keys
      ensures !r.Ok? ==> Defect(graph, r)
      decreases White(), 1
    {
      if name in colour {
        if colour[name] == Gray {
          GrayHitIsCycle(graph, stack, name);
          return CircularAt(name);
        }
        return Ok;
      }
      if name !in graph {
        colour := colour[name := Gray];
        return NotRegistered(name, requiredBy);
      }
      PushGray(graph, colour, order, stack, name);
      colour := colour[name := Gray];
      assert White() == old(White()) - {name};
      r := VisitAll(graph[name], name, stack + [name]);
      if !r.Ok? {
        return;
      }
      PopBlack(graph, colour, order, stack, name);
      colour := colour[name := Black];
      order := order + [name];
    }

    // The loop over the dependencies of `name`, the innermost call in progress.
    method VisitAll(deps: seq<Name>, name: Name, ghost stack: seq<Name>) returns (r: Result)
      requires Valid(stack) && stack != [] && stack[|stack| - 1] == name && name in graph && deps == graph[name]
      modifies this
      ensures r.Ok? ==>
        && Valid(stack) && old(order) <= order && old(colour).Keys <= colour.Keys
        && AllIn(deps, order)
      ensures !r.Ok? ==> Defect(graph, r)
      decreases White(), 2
    {
      for i := 0 to |deps|
        invariant Valid(stack) && old(order) <= order && old(colour).Keys <= colour.Keys
        invariant AllIn(deps[..i], order)
      {
        assert deps[..i + 1] == deps[..i] + [deps[i]];
        assert Edge(graph, name, deps[i]);
        assert White() <= old(White());
        ghost var before := order;
        r := Visit(deps[i], name, stack);
        if !r.Ok? {
          return;
        }
        StillListed(deps[..i], before, order);
      }
      assert deps[..|deps|] == deps;
      return Ok;
    }
  }

  /** Dependency resolution, for any iteration order of the component map: it succeeds if and only
      if every dependency is registered and the graph has no cycle; then it lists every component
      exactly once with dependencies first, and otherwise the error is a real cycle through the
      named component or a dependency nobody registered. */
  method ResolveOrder(g: Graph, iteration: seq<Name>) returns (order: seq<Name>, r: Result)
    requires forall n :: n in g <==> n in iteration
    ensures r.Ok? <==> Closed(g) && Acyclic(g)
    ensures r.Ok? ==> IsStartOrder(g, order)
    ensures !r.Ok? ==> order == [] && Defect(g, r)
  {
    var resolver := new Resolver(g);
    for i := 0 to |iteration|
      invariant resolver.graph == g && fresh(resolver) && resolver.Valid([])
      invariant AllIn(iteration[..i], resolver.order)
    {
      ghost var before := resolver.order;
      r := resolver.Visit(iteration[i], "", []);
      if !r.Ok? {
        DefectRefutes(g, r);
        return [], r;
      }
      StillListed(iteration[..i], before, resolver.order);
    }
    order := resolver.order;
    assert iteration[..|iteration|] == iteration;
    forall n | n in g ensures n in order {
      var k :| 0 <= k < |iteration| && iteration[k] == n;
    }
    StartOrderImpliesAcyclic(g, order);
    return order, Ok;
  }

  lemma DefectRefutes(g: Graph, r: Result)
    requires Defect(g, r)
    ensures !(Closed(g) && Acyclic(g))
  {
    if r.NotRegistered? {
      var k :| 0 <= k < |g[r.requiredBy]| && g[r.requiredBy][k] == r.name;
    }
  }

  // ---- Start and Stop --------------------------------------------------------------------------------

  datatype Call = Init(name: Name) | Start(name: Name) | Stop(name: Name)

  datatype Outcome = Done | ResolveFailed(cause: Result) | CallFailed(call: Call)

  // Init and Start of each listed component, in order.
  function StartCalls(order: seq<Name>): seq<Call> {
    if order == [] then []
    else StartCalls(order[..|order| - 1]) + [Init(order[|order| - 1]), Start(order[|order| - 1])]
  }

  function StopCalls(names: seq<Name>): seq<Call> {
    if names == [] then [] else StopCalls(names[..|names| - 1]) + [Stop(names[|names| - 1])]
  }

  // No call that starts, or stops, one of the components is one that fails.
  predicate StartsCleanly(names: seq<Name>, failing: set<Call>) {
    forall i :: 0 <= i < |names| ==> Init(names[i]) !in failing && Start(names[i]) !in failing
  }

  predicate StopsCleanly(names: seq<Name>, failing: set<Call>) {
    forall i :: 0 <= i < |names| ==> Stop(names[i]) !in failing
  }

  // Every started component's dependencies were started before it.
  predicate StartedInOrder(g: Graph, started: seq<Name>) {
    Distinct(started) && DependenciesFirst(g, started)
  }

  lemma PrefixStartedInOrder(g: Graph, order: seq<Name>, n: nat)
    requires IsStartOrder(g, order) && n <= |order|
    ensures StartedInOrder(g, order[..n])
  {
    forall i | 0 <= i < n
      ensures forall k :: 0 <= k < |g[order[i]]| ==> g[order[i]][k] in order[..n][..i]
    {
      assert order[..n][..i] == order[..i];
    }
  }

  // Every component that depends on a stopped one was stopped before it.
  ghost predicate DependentsStoppedFirst(g: Graph, stopped: seq<Name>) {
    forall i, a :: 0 <= i < |stopped| && Edge(g, a, stopped[i]) ==> a in stopped[..i]
  }

  function ReverseTail(order: seq<Name>, n: nat): (s: seq<Name>)
    requires n <= |order|
    ensures |s| == n && forall i :: 0 <= i < n ==> s[i] == order[|order| - 1 - i]
  {
    if n == 0 then [] else ReverseTail(order, n - 1) + [order[|order| - n]]
  }

  lemma ReverseStopsDependentsFirst(g: Graph, order: seq<Name>, n: nat)
    requires IsStartOrder(g, order) && n <= |order|
    ensures DependentsStoppedFirst(g, ReverseTail(order, n))
  {
    var s := ReverseTail(order, n);
    forall i, a | 0 <= i < |s| && Edge(g, a, s[i]) ensures a in s[..i] {
      DependencyIsEarlier(g, order, a, s[i]);
      var j := IndexOf(order, a);
      assert order[|order| - 1 - i] == s[i] == order[IndexOf(order, s[i])];
      assert j > |order| - 1 - i;
      assert s[..i][|order| - 1 - j] == a;
    }
  }

  class KernelState {
    const components: Graph
    var startedOrder: seq<Name>
    var calls: seq<Call>   // component methods that have returned without error, oldest first

    constructor (components: Graph)
      ensures this.components == components && startedOrder == [] && calls == []
    {
      this.components := components;
      startedOrder, calls := [], [];
    }

    // The loop of Start over a resolved order.
    method StartEach(order: seq<Name>, failing: set<Call>) returns (out: Outcome)
      requires startedOrder == [] && Distinct(order)
      modifies this
      ensures startedOrder <= order && !out.ResolveFailed?
      ensures out.Done? ==> startedOrder == order && calls == old(calls) + StartCalls(order)
      ensures out.CallFailed? ==>
        && out.call in failing && out.call.name in order && out.call.name !in startedOrder
        && calls == old(calls) + StartCalls(startedOrder) + (if out.call.Start? then [Init(out.call.name)] else [])
        && !out.call.Stop?
      ensures StartsCleanly(startedOrder, failing) && (out.Done? <==> StartsCleanly(order, failing))
    {
      for i := 0 to |order|
        invariant startedOrder == order[..i]
        invariant calls == old(calls) + StartCalls(startedOrder)
        invariant forall j :: 0 <= j < i ==> Init(order[j]) !in failing && Start(order[j]) !in failing
      {
        var name := order[i];
        if Init(name) in failing {
          return CallFailed(Init(name));
        }
        calls := calls + [Init(name)];
        if Start(name) in failing {
          return CallFailed(Start(name));
        }
        calls := calls + [Start(name)];
        startedOrder := startedOrder + [name];
        assert order[..i + 1][..i] == order[..i];
      }
      return Done;
    }

    /** Start brings components up in dependency order.  Whatever call fails, the components started
        so far are exactly startedOrder, and each of them follows all of its dependencies; with no
        failure every registered component is started. */
    method StartAll(iteration: seq<Name>, failing: set<Call>) returns (out: Outcome)
      requires forall n :: n in components <==> n in iteration
      modifies this
      ensures StartedInOrder(components, startedOrder)
      ensures out.ResolveFailed? ==> startedOrder == [] && calls == old(calls)
      ensures out.ResolveFailed? <==> !(Closed(components) && Acyclic(components))
      ensures StartsCleanly(startedOrder, failing)
      ensures out.Done? ==> IsStartOrder(components, startedOrder) && calls == old(calls) + StartCalls(startedOrder)
      ensures out.CallFailed? ==>
        && out.call in failing && out.call.name in components && out.call.name !in startedOrder
        && calls == old(calls) + StartCalls(startedOrder) + (if out.call.Start? then [Init(out.call.name)] else [])
        && !out.call.Stop?
    {
      startedOrder := [];
      var order, r := ResolveOrder(components, iteration);
      if !r.Ok? {
        return ResolveFailed(r);
      }
      out := StartEach(order, failing);
      PrefixStartedInOrder(components, order, |startedOrder|);
    }

    // The loop of Stop over a resolved order, from its end.
    method StopEach(order: seq<Name>, failing: set<Call>) returns (out: Outcome, n: nat)
      modifies this`calls
      ensures n <= |order| && calls == old(calls) + StopCalls(ReverseTail(order, n))
      ensures out.Done? ==> n == |order|
      ensures !out.Done? ==> out.CallFailed? && out.call in failing && n < |order| && out.call == Stop(order[|order| - 1 - n])
      ensures StopsCleanly(order[|order| - n..], failing) && (out.Done? <==> StopsCleanly(order, failing))
    {
      var i := |order|;
      n := 0;
      while i > 0
        invariant 0 <= i <= |order| && n == |order| - i
        invariant calls == old(calls) + StopCalls(ReverseTail(order, n))
        invariant forall j :: i <= j < |order| ==> Stop(order[j]) !in failing
      {
        i := i - 1;
        if Stop(order[i]) in failing {
          return CallFailed(Stop(order[i])), n;
        }
        calls := calls + [Stop(order[i])];
        n := n + 1;
        assert ReverseTail(order, n)[..n - 1] == ReverseTail(order, n - 1);
      }
      return Done, n;
    }

    /** Stop takes every registered component down, each after all components that depend on it,
        until a call fails.  It resolves the order afresh, and stops nothing if that fails. */
    method StopAll(iteration: seq<Name>, failing: set<Call>) returns (out: Outcome, ghost stopped: seq<Name>)
      requires forall n :: n in components <==> n in iteration
      modifies this
      ensures calls == old(calls) + StopCalls(stopped)
      ensures DependentsStoppedFirst(components, stopped)
      ensures !out.ResolveFailed?
      ensures out.Done? ==> startedOrder == []
      ensures out.Done? && Closed(components) && Acyclic(components) ==>
        forall n :: n in components ==> n in stopped
      ensures !(Closed(components) && Acyclic(components)) ==> stopped == [] && out.Done?
      ensures out.CallFailed? ==> out.call in failing && startedOrder == old(startedOrder)
      ensures StopsCleanly(stopped, failing)
    {
      var order, r := ResolveOrder(components, iteration);
      var n;
      out, n := StopEach(order, failing);
      stopped := ReverseTail(order, n);
      if r.Ok? {
        ReverseStopsDependentsFirst(components, order, n);
        if out.Done? {
          forall x | x in components ensures x in stopped {
            var k :| 0 <= k < |order| && order[k] == x;
            assert stopped[|order| - 1 - k] == x;
          }
        }
      }
      if out.Done? {
        startedOrder := [];
      }
    }
  }
}
