/**
 The order in which workspace packages are published: round by round, all packages none of whose
 dependencies are left. A cycle is not looked for; it shows when a bound on the rounds is used up.
 */
module PublishOrder {
  import opened Common
  import opened KeyOrder

  type Name = string

  /** A package and the workspace names it depends on. Dependencies may be missing from the workspace. */
  datatype Package = Package(name: Name, dependencies: seq<Name>)

  type Graph = seq<Package>

  ghost predicate Distinct(graph: Graph) {
    forall i, j :: 0 <= i < j < |graph| ==> graph[i].name != graph[j].name
  }

  ghost predicate Listed(graph: Graph, name: Name) {
    exists i :: 0 <= i < |graph| && graph[i].name == name
  }

  /** `a` depends on `b`, both in the graph. */
  ghost predicate Edge(graph: Graph, a: Name, b: Name) {
    Listed(graph, b) && exists i :: 0 <= i < |graph| && graph[i].name == a && b in graph[i].dependencies
  }

  ghost predicate Cycle(graph: Graph, c: seq<Name>) {
    && c != []
    && Edge(graph, c[|c| - 1], c[0])
    && forall i, j :: 0 <= i < |c| && j == i + 1 < |c| ==> Edge(graph, c[i], c[j])
  }

  // ---------- an order excludes cycles ----------

  /** Every package once, after all its dependencies in the graph. */
  ghost predicate IsOrder(graph: Graph, order: seq<Package>) {
    && multiset(order) == multiset(graph)
    && forall i, d :: 0 <= i < |order| && d in order[i].dependencies && Listed(graph, d) ==> Listed(order[..i], d)
  }

  /** Where a package is in the order. */
  ghost function Position(order: seq<Package>, name: Name): (i: nat)
    requires Listed(order, name)
    ensures i < |order| && order[i].name == name
  {
    var i :| 0 <= i < |order| && order[i].name == name;
    i
  }

  lemma {:induction false} SameNames(a: Graph, b: Graph, name: Name)
    requires multiset(a) == multiset(b)
    ensures Listed(a, name) <==> Listed(b, name)
  {
    if i :| 0 <= i < |a| && a[i].name == name { assert a[i] in multiset(b); }
    if i :| 0 <= i < |b| && b[i].name == name { assert b[i] in multiset(a); }
  }

  lemma {:induction false} SamePackages(a: Graph, b: Graph)
    requires multiset(a) == multiset(b) && Distinct(a)
    ensures Distinct(b)
  {
    forall i, j | 0 <= i < j < |b| ensures b[i].name != b[j].name {
      assert b == b[..i] + [b[i]] + b[i + 1..j] + [b[j]] + b[j + 1..];
      assert b[i] in multiset(a) && b[j] in multiset(a);
      var x, y :| 0 <= x < |a| && 0 <= y < |a| && a[x] == b[i] && a[y] == b[j];
      if b[i] == b[j] {
        assert multiset(b)[b[i]] >= 2;
        Single(a, x);
      }
    }
  }

  lemma {:induction false} Single(a: Graph, x: nat)
    requires Distinct(a) && x < |a|
    ensures multiset(a)[a[x]] == 1
  {
    assert a == a[..x] + [a[x]] + a[x + 1..];
    assert a[x] !in a[..x] && a[x] !in a[x + 1..];
  }

  lemma {:induction false} EdgeGoesBack(graph: Graph, order: seq<Package>, a: Name, b: Name)
    requires Distinct(graph) && IsOrder(graph, order) && Edge(graph, a, b)
    ensures Listed(order, a) && Listed(order, b) && Position(order, b) < Position(order, a)
  {
    SamePackages(graph, order);
    SameNames(graph, order, a);
    SameNames(graph, order, b);
    var i :| 0 <= i < |graph| && graph[i].name == a && b in graph[i].dependencies;
    assert graph[i] in multiset(order);
    var k :| 0 <= k < |order| && order[k] == graph[i];
    assert Listed(order[..k], b);
    var j :| 0 <= j < |order[..k]| && order[..k][j].name == b;
    assert order[j].name == b && Position(order, a) == k && Position(order, b) == j;
  }

  lemma {:induction false} PathGoesBack(graph: Graph, order: seq<Package>, c: seq<Name>, i: nat)
    requires Distinct(graph) && IsOrder(graph, order) && Cycle(graph, c) && i < |c|
    ensures Listed(order, c[0]) && Listed(order, c[i]) && Position(order, c[i]) <= Position(order, c[0])
  {
    if i == 0 {
      EdgeGoesBack(graph, order, c[|c| - 1], c[0]);
    } else {
      PathGoesBack(graph, order, c, i - 1);
      EdgeGoesBack(graph, order, c[i - 1], c[i]);
    }
  }

  lemma {:induction false} OrderExcludesCycle(graph: Graph, order: seq<Package>, c: seq<Name>)
    requires Distinct(graph) && IsOrder(graph, order)
    ensures !Cycle(graph, c)
  {
    if Cycle(graph, c) {
      PathGoesBack(graph, order, c, |c| - 1);
      EdgeGoesBack(graph, order, c[|c| - 1], c[0]);
    }
  }

  // ---------- a graph without a start has a cycle ----------

  ghost predicate Ready(graph: Graph, p: Package) {
    forall d :: d in p.dependencies ==> !Listed(graph, d)
  }

  ghost predicate Stuck(graph: Graph) {
    graph != [] && forall i {:trigger Ready(graph, graph[i])} :: 0 <= i < |graph| ==> !Ready(graph, graph[i])
  }

  ghost predicate Walk(graph: Graph, w: seq<nat>) {
    && (forall i :: 0 <= i < |w| ==> w[i] < |graph|)
    && forall i, j :: 0 <= i < |w| && j == i + 1 < |w| ==> Edge(graph, graph[w[i]].name, graph[w[j]].name)
  }

  /** From every package of a stuck graph one can walk on. */
  lemma {:induction false} LongWalk(graph: Graph, n: nat) returns (w: seq<nat>)
    requires Stuck(graph)
    ensures Walk(graph, w) && |w| == n + 1
  {
    if n == 0 {
      w := [0];
    } else {
      var v := LongWalk(graph, n - 1);
      var last := v[n - 1];
      assert !Ready(graph, graph[last]);
      var d :| d in graph[last].dependencies && Listed(graph, d);
      var next :| 0 <= next < |graph| && graph[next].name == d;
      assert Edge(graph, graph[last].name, graph[next].name);
      w := v + [next];
    }
  }

  lemma {:induction false} Pigeonhole(w: seq<nat>, n: nat) returns (i: nat, j: nat)
    requires |w| > n && forall k :: 0 <= k < |w| ==> w[k] < n
    ensures i < j < |w| && w[i] == w[j]
  {
    if a, b :| 0 <= a < b < |w| && w[a] == w[b] {
      return a, b;
    }
    var values := set x | x in w;
    DistinctSize(w);
    SubsetSize(values, Numbers(n));
    assert false;
  }

  ghost function Numbers(n: nat): (s: set<nat>)
    ensures |s| == n && forall x: nat :: x in s <==> x < n
  {
    if n == 0 then {} else Numbers(n - 1) + {n - 1}
  }

  lemma {:induction false} StuckHasCycle(graph: Graph) returns (c: seq<Name>)
    requires Stuck(graph)
    ensures Cycle(graph, c)
  {
    var w := LongWalk(graph, |graph|);
    var i, j := Pigeonhole(w, |graph|);
    c := seq(j - i, k requires 0 <= k < j - i => graph[w[i + k]].name);
    forall k, l | 0 <= k < |c| && l == k + 1 < |c| ensures Edge(graph, c[k], c[l]) {
      assert w[i + k + 1] == w[i + l];
    }
    assert Edge(graph, graph[w[j - 1]].name, graph[w[j]].name);
  }

  ghost predicate Within(part: Graph, graph: Graph) {
    forall p :: p in part ==> p in graph
  }

  /** A cycle among some of the packages is a cycle. */
  lemma {:induction false} CycleWithin(part: Graph, graph: Graph, c: seq<Name>)
    requires Within(part, graph) && Cycle(part, c)
    ensures Cycle(graph, c)
  {
    forall a, b | Edge(part, a, b) ensures Edge(graph, a, b) {
      var i :| 0 <= i < |part| && part[i].name == a && b in part[i].dependencies;
      var j :| 0 <= j < |part| && part[j].name == b;
      assert part[i] in graph && part[j] in graph;
    }
  }

  // ---------- the script ----------

  datatype PublishError = CircularDependency | SuspectedCycle

  /** Two packages, or one, that depend on each other directly. */
  ghost predicate DirectCycle(graph: Graph) {
    exists a, b :: Edge(graph, a, b) && Edge(graph, b, a)
  }

  method FindPackage(graph: Graph, name: Name) returns (r: Option<Package>)
    ensures r.Some? <==> Listed(graph, name)
    ensures r.Some? ==> r.value in graph && r.value.name == name
  {
    for i := 0 to |graph|
      invariant !Listed(graph[..i], name)
    {
      if graph[i].name == name { return Some(graph[i]); }
    }
    assert graph[..|graph|] == graph;
    return None;
  }

  method CheckDirectCycles(graph: Graph) returns (circular: bool)
    requires Distinct(graph)
    ensures circular <==> DirectCycle(graph)
    ensures circular <==> exists a, b :: Edge(graph, a, b) && Edge(graph, b, a)
  {
    for i := 0 to |graph|
      invariant forall a, b :: Edge(graph, a, b) && Edge(graph, b, a) ==> !Listed(graph[..i], a)
    {
      circular := DirectCycleFrom(graph, i);
      if circular { return; }
    }
    assert graph[..|graph|] == graph;
    circular := false;
  }

  /** Whether a dependency of package `i` depends on it. */
  method DirectCycleFrom(graph: Graph, i: nat) returns (circular: bool)
    requires Distinct(graph) && i < |graph|
    ensures circular ==> DirectCycle(graph)
    ensures !circular ==> forall b :: Edge(graph, graph[i].name, b) ==> !Edge(graph, b, graph[i].name)
  {
    var p := graph[i];
    for k := 0 to |p.dependencies|
      invariant forall b :: b in p.dependencies[..k] && Listed(graph, b) ==> !Edge(graph, b, p.name)
    {
      var d := p.dependencies[k];
      var found := FindPackage(graph, d);
      if found.Some? && p.name in found.value.dependencies {
        assert Listed(graph, p.name) && Edge(graph, d, p.name) && Edge(graph, p.name, d);
        return true;
      }
    }
    return false;
  }

  method IsReady(graph: Graph, p: Package) returns (ready: bool)
    ensures ready <==> Ready(graph, p)
  {
    for k := 0 to |p.dependencies|
      invariant forall d :: d in p.dependencies[..k] ==> !Listed(graph, d)
    {
      var found := FindPackage(graph, p.dependencies[k]);
      if found.Some? { return false; }
    }
    return true;
  }

  /** One round: the packages that are ready, and those left, each in order. */
  method Round(graph: Graph) returns (ready: seq<Package>, left: Graph)
    ensures multiset(ready) + multiset(left) == multiset(graph)
    ensures (forall p :: p in ready ==> Ready(graph, p)) && forall p :: p in left ==> !Ready(graph, p)
  {
    ready, left := [], [];
    for i := 0 to |graph|
      invariant multiset(ready) + multiset(left) == multiset(graph[..i])
      invariant (forall p :: p in ready ==> Ready(graph, p)) && forall p :: p in left ==> !Ready(graph, p)
    {
      var ok := IsReady(graph, graph[i]);
      assert graph[..i + 1] == graph[..i] + [graph[i]];
      if ok { ready := ready + [graph[i]]; } else { left := left + [graph[i]]; }
    }
    assert graph[..|graph|] == graph;
  }

  /** Where the rounds are: `order` so far, `left` to do, after `k` rounds. */
  ghost predicate Ordering(graph: Graph, order: seq<Package>, left: Graph, k: nat) {
    && multiset(order) + multiset(left) == multiset(graph)
    && (forall i, d :: 0 <= i < |order| && d in order[i].dependencies && Listed(graph, d) ==> Listed(order[..i], d))
    && (Stuck(left) || |left| + k <= |graph|)
  }

  lemma {:induction false} RoundKeeps(graph: Graph, order: seq<Package>, left: Graph, k: nat, ready: seq<Package>,
                                      left': Graph)
    requires Ordering(graph, order, left, k) && left != []
    requires multiset(ready) + multiset(left') == multiset(left)
    requires (forall p :: p in ready ==> Ready(left, p)) && forall p :: p in left' ==> !Ready(left, p)
    ensures Ordering(graph, order + ready, left', k + 1)
  {
    var order' := order + ready;
    forall i, d | 0 <= i < |order'| && d in order'[i].dependencies && Listed(graph, d) ensures Listed(order'[..i], d) {
      if i < |order| {
        assert order'[..i] == order[..i];
      } else {
        assert Ready(left, order'[i]);
        SplitNames(graph, order, left, d);
        var j :| 0 <= j < |order| && order[j].name == d;
        assert order'[..i][j].name == d;
      }
    }
    if ready == [] {
      StaysStuck(left, left');
    } else {
      assert |multiset(ready)| + |multiset(left')| == |multiset(left)|;
      assert ready[0] in multiset(left);
      var i :| 0 <= i < |left| && left[i] == ready[0];
      assert Ready(left, left[i]);
    }
  }

  lemma {:induction false} SplitNames(graph: Graph, order: Graph, left: Graph, d: Name)
    requires multiset(order) + multiset(left) == multiset(graph) && Listed(graph, d)
    ensures Listed(order, d) || Listed(left, d)
  {
    assert multiset(order + left) == multiset(graph);
    SameNames(order + left, graph, d);
    var i :| 0 <= i < |order + left| && (order + left)[i].name == d;
    assert if i < |order| then order[i].name == d else left[i - |order|].name == d;
  }

  lemma {:induction false} StaysStuck(left: Graph, left': Graph)
    requires left != [] && multiset(left') == multiset(left) && forall p :: p in left' ==> !Ready(left, p)
    ensures Stuck(left')
  {
    assert |multiset(left')| == |multiset(left)|;
    forall i | 0 <= i < |left'| ensures !Ready(left', left'[i]) {
      assert left'[i] in left' && !Ready(left, left'[i]);
      var d :| d in left'[i].dependencies && Listed(left, d);
      SameNames(left, left', d);
    }
  }

  /**
   The packages in publishing order, or an error. It is an error exactly if there is a cycle: cycles of
   one or two packages are found at once, and longer ones use up the budget of n^2 rounds, which no
   graph without a cycle does.
   */
  method GetPackages(graph: Graph) returns (r: Result<seq<Package>, PublishError>)
    requires Distinct(graph)
    ensures r.Ok? ==>
              && multiset(r.value) == multiset(graph)
              && forall i, d :: 0 <= i < |r.value| && d in r.value[i].dependencies && Listed(graph, d) ==>
                   Listed(r.value[..i], d)
    ensures r.Err? <==> exists c :: Cycle(graph, c)
    ensures r == Err(CircularDependency) <==> DirectCycle(graph)
  {
    var circular := CheckDirectCycles(graph);
    if circular {
      DirectIsCycle(graph);
      return Err(CircularDependency);
    }
    var order, left, budget := [], graph, |graph| * |graph|;
    ghost var k: nat := 0;
    while left != []
      invariant Ordering(graph, order, left, k) && budget >= 0 && budget + k == |graph| * |graph|
      decreases budget
    {
      if budget == 0 {
        ghost var c := LeftIsCyclic(graph, order, left, k);
        return Err(SuspectedCycle);
      }
      var ready, left' := Round(left);
      RoundKeeps(graph, order, left, k, ready, left');
      order, left, budget, k := order + ready, left', budget - 1, k + 1;
    }
    assert IsOrder(graph, order);
    forall c ensures !Cycle(graph, c) { OrderExcludesCycle(graph, order, c); }
    return Ok(order);
  }

  lemma {:induction false} DirectIsCycle(graph: Graph)
    requires DirectCycle(graph)
    ensures exists c :: Cycle(graph, c)
  {
    var a, b :| Edge(graph, a, b) && Edge(graph, b, a);
    assert Cycle(graph, [a, b]);
  }

  /** With the budget used up, what is left has a cycle. */
  lemma {:induction false} LeftIsCyclic(graph: Graph, order: seq<Package>, left: Graph, k: nat) returns (c: seq<Name>)
    requires Ordering(graph, order, left, k) && left != [] && k == |graph| * |graph|
    ensures Cycle(graph, c)
  {
    assert |multiset(order)| + |multiset(left)| == |multiset(graph)|;
    MulMonotone(1, |graph|, |graph|);
    c := StuckHasCycle(left);
    forall p | p in left ensures p in graph { assert p in multiset(graph); }
    CycleWithin(left, graph, c);
  }
}
