/**
  Call depth of every service, computed twice: `analyzer/eval.py`'s `compute_depths` over a set of
  edges, and `dashboard/src/lib/topologyLayout.ts`'s `computeDepths` over a list.
 */
module Depths {
  import opened Collections
  import opened Suppression

  type Edge = (string, string)

  ghost predicate Calls(edges: Topology, s: string) {
    exists t :: (s, t) in edges
  }

  ghost predicate Called(edges: Topology, s: string) {
    exists t :: (t, s) in edges
  }

  /** n calls lead from a never-called caller to s. */
  ghost predicate Hops(edges: Topology, s: string, n: nat)
    decreases n
  {
    if n == 0 then Calls(edges, s) && !Called(edges, s)
    else exists p :: (p, s) in edges && Hops(edges, p, n - 1)
  }

  /** And no fewer. */
  ghost predicate Distance(edges: Topology, s: string, n: nat) {
    Hops(edges, s, n) && forall m: nat :: m < n ==> !Hops(edges, s, m)
  }

  ghost predicate Reachable(edges: Topology, s: string) {
    exists n: nat :: Hops(edges, s, n)
  }

  /** Exactly the reachable services, each at its shortest call distance. */
  ghost predicate AreDepths(edges: Topology, depths: map<string, nat>) {
    && (forall s :: s in depths <==> Reachable(edges, s))
    && (forall s :: s in depths ==> Distance(edges, s, depths[s]))
  }

  lemma DistanceIsUnique(edges: Topology, s: string, m: nat, n: nat)
    requires Distance(edges, s, m) && Distance(edges, s, n)
    ensures m == n
  {
  }

  /** So the two implementations cannot disagree. */
  lemma DepthsAreUnique(edges: Topology, depths: map<string, nat>, depths': map<string, nat>)
    requires AreDepths(edges, depths) && AreDepths(edges, depths')
    ensures depths == depths'
  {
    assert depths.Keys == depths'.Keys;
    forall s | s in depths
      ensures depths[s] == depths'[s]
    {
      DistanceIsUnique(edges, s, depths[s], depths'[s]);
    }
  }

  lemma {:induction false} SomeDistance(edges: Topology, s: string, n: nat) returns (d: nat)
    requires Hops(edges, s, n)
    ensures d <= n && Distance(edges, s, d)
  {
    if m: nat :| m < n && Hops(edges, s, m) {
      d := SomeDistance(edges, s, m);
    } else {
      d := n;
    }
  }

  // ----- One level of the search -----

  ghost predicate WithinLevel(edges: Topology, s: string, k: nat) {
    exists n: nat :: n <= k && Hops(edges, s, n)
  }

  ghost predicate Next(edges: Topology, s: string, k: nat) {
    Distance(edges, s, k + 1)
  }

  ghost predicate Reached(edges: Topology, s: string, k: nat, done: Topology) {
    Next(edges, s, k) && exists p :: (p, s) in done && Distance(edges, p, k)
  }

  /** Level k is known and its outgoing edges followed as far as `done`. */
  ghost predicate Expanding(edges: Topology, k: nat, done: Topology, depths: map<string, nat>, next: seq<string>) {
    && (forall s :: s in depths ==> Distance(edges, s, depths[s]))
    && (forall s :: s in next <==> Reached(edges, s, k, done))
    && (forall s :: s in depths <==> WithinLevel(edges, s, k) || s in next)
  }

  lemma NextIsBeyond(edges: Topology, s: string, k: nat)
    ensures Next(edges, s, k) ==> !WithinLevel(edges, s, k)
  {
  }

  lemma OneHopMore(edges: Topology, p: string, s: string, n: nat)
    requires (p, s) in edges
    ensures Hops(edges, p, n) ==> Hops(edges, s, n + 1)
  {
  }

  lemma KnownChild(edges: Topology, k: nat, done: Topology, depths: map<string, nat>, next: seq<string>, p: string, c: string)
    requires Expanding(edges, k, done, depths, next) && (p, c) in edges && c in depths
    ensures Expanding(edges, k, done + {(p, c)}, depths, next)
  {
    forall s
      ensures Reached(edges, s, k, done + {(p, c)}) <==> Reached(edges, s, k, done)
    {
      NextIsBeyond(edges, s, k);
    }
  }

  lemma NewChild(edges: Topology, k: nat, done: Topology, depths: map<string, nat>, next: seq<string>, p: string, c: string)
    requires Expanding(edges, k, done, depths, next) && (p, c) in edges && c !in depths && Distance(edges, p, k)
    ensures Expanding(edges, k, done + {(p, c)}, depths[c := k + 1], next + [c])
  {
    assert Hops(edges, c, k + 1);
    assert !WithinLevel(edges, c, k);
    assert Next(edges, c, k);
    forall s
      ensures Reached(edges, s, k, done + {(p, c)}) <==> Reached(edges, s, k, done) || s == c
    {
    }
  }

  function EdgesFrom(edges: Topology, callers: seq<string>): Topology {
    set e | e in edges && e.0 in callers
  }

  lemma LevelDone(edges: Topology, k: nat, frontier: seq<string>, depths: map<string, nat>, next: seq<string>)
    requires Expanding(edges, k, EdgesFrom(edges, frontier), depths, next)
    requires forall s :: Distance(edges, s, k) ==> s in frontier
    ensures AtLevel(edges, k + 1, next, depths)
    ensures forall s :: s in next ==> Called(edges, s)
  {
    forall s | Next(edges, s, k)
      ensures Reached(edges, s, k, EdgesFrom(edges, frontier))
    {
      var p :| (p, s) in edges && Hops(edges, p, k);
      var d := SomeDistance(edges, p, k);
      OneHopMore(edges, p, s, d);
      assert (p, s) in EdgesFrom(edges, frontier);
    }
    forall s
      ensures WithinLevel(edges, s, k + 1) <==> WithinLevel(edges, s, k) || Next(edges, s, k)
    {
      OneLevelMore(edges, s, k);
    }
  }

  lemma OneLevelMore(edges: Topology, s: string, k: nat)
    ensures WithinLevel(edges, s, k + 1) <==> WithinLevel(edges, s, k) || Next(edges, s, k)
  {
    if WithinLevel(edges, s, k + 1) {
      var n: nat :| n <= k + 1 && Hops(edges, s, n);
      var d := SomeDistance(edges, s, n);
      if d <= k {
        assert WithinLevel(edges, s, k);
      }
    }
  }

  ghost predicate AtLevel(edges: Topology, k: nat, frontier: seq<string>, depths: map<string, nat>) {
    && (forall s :: s in depths ==> Distance(edges, s, depths[s]))
    && (forall s :: s in frontier <==> Distance(edges, s, k))
    && (forall s :: s in depths <==> WithinLevel(edges, s, k))
  }

  /** Distances have no holes. */
  lemma {:induction false} DistancePasses(edges: Topology, s: string, n: nat, k: nat) returns (t: string)
    requires Distance(edges, s, n) && k <= n
    ensures Distance(edges, t, k)
    decreases n
  {
    if k == n {
      t := s;
    } else {
      var p :| (p, s) in edges && Hops(edges, p, n - 1);
      forall m: nat | m < n - 1
        ensures !Hops(edges, p, m)
      {
        OneHopMore(edges, p, s, m);
      }
      t := DistancePasses(edges, p, n - 1, k);
    }
  }

  lemma LastLevel(edges: Topology, k: nat, depths: map<string, nat>)
    requires AtLevel(edges, k, [], depths)
    ensures AreDepths(edges, depths)
  {
    forall s | Reachable(edges, s)
      ensures WithinLevel(edges, s, k)
    {
      var n: nat :| Hops(edges, s, n);
      var d := SomeDistance(edges, s, n);
      if d > k {
        var t := DistancePasses(edges, s, d, k);
      }
    }
  }

  // ----- The frontier loop, statement for statement the same in both languages -----

  method FollowNode(
    ghost edges: Topology, ghost k: nat, ghost done: Topology, children: seq<string>, node: string, depth: nat,
    known: map<string, nat>, found: seq<string>)
    returns (depths: map<string, nat>, next: seq<string>)
    requires depth == k && Distance(edges, node, k) && forall t :: t in children <==> (node, t) in edges
    requires Expanding(edges, k, done, known, found)
    ensures Expanding(edges, k, done + EdgesFrom(edges, [node]), depths, next)
  {
    depths, next := known, found;
    ghost var followed: Topology := done;
    for j := 0 to |children|
      invariant followed == done + FirstEdges(node, children, j) && Expanding(edges, k, followed, depths, next)
    {
      var child := children[j];
      FirstEdgesOneMore(node, children, j);
      if child in depths {
        KnownChild(edges, k, followed, depths, next, node, child);
      } else {
        NewChild(edges, k, followed, depths, next, node, child);
        depths := depths[child := depth + 1];
        next := next + [child];
      }
      followed := followed + {(node, child)};
    }
    assert FirstEdges(node, children, |children|) == EdgesFrom(edges, [node]);
  }

  function FirstEdges(node: string, children: seq<string>, j: nat): Topology
    requires j <= |children|
  {
    set t | t in children[..j] :: (node, t)
  }

  lemma FirstEdgesOneMore(node: string, children: seq<string>, j: nat)
    requires j < |children|
    ensures FirstEdges(node, children, j + 1) == FirstEdges(node, children, j) + {(node, children[j])}
  {
    assert children[..j + 1] == children[..j] + [children[j]];
  }

  method FollowLevel(
    ghost edges: Topology, outgoing: Callees, frontier: seq<string>, depth: nat, known: map<string, nat>)
    returns (depths: map<string, nat>, next: seq<string>)
    requires Lists(outgoing, edges) && forall s :: s in frontier ==> Distance(edges, s, depth)
    requires Expanding(edges, depth, {}, known, [])
    ensures Expanding(edges, depth, EdgesFrom(edges, frontier), depths, next)
  {
    depths, next := known, [];
    ghost var done: Topology := {};
    for i := 0 to |frontier|
      invariant done == EdgesFrom(edges, frontier[..i]) && Expanding(edges, depth, done, depths, next)
    {
      var node := frontier[i];
      assert frontier[..i + 1] == frontier[..i] + [node];
      depths, next := FollowNode(edges, depth, done, CalleesOf(outgoing, node), node, depth, depths, next);
      done := done + EdgesFrom(edges, [node]);
    }
    assert frontier[..|frontier|] == frontier;
  }

  ghost function CalledServices(edges: Topology): set<string> {
    set e | e in edges :: e.1
  }

  method Search(ghost edges: Topology, outgoing: Callees, roots: seq<string>, start: map<string, nat>)
    returns (depths: map<string, nat>)
    requires Lists(outgoing, edges) && AtLevel(edges, 0, roots, start)
    ensures AreDepths(edges, depths)
  {
    depths := start;
    var frontier, depth := roots, 0;
    while frontier != []
      invariant AtLevel(edges, depth, frontier, depths)
      decreases CalledServices(edges) - depths.Keys, |frontier|
    {
      ghost var known, level := depths, frontier;
      LevelStarts(edges, depth, frontier, depths);
      depths, frontier := FollowLevel(edges, outgoing, frontier, depth, depths);
      LevelDone(edges, depth, level, depths, frontier);
      LevelGrows(edges, depth, level, known, depths, frontier);
      depth := depth + 1;
    }
    LastLevel(edges, depth, depths);
  }

  lemma LevelStarts(edges: Topology, k: nat, frontier: seq<string>, depths: map<string, nat>)
    requires AtLevel(edges, k, frontier, depths)
    ensures Expanding(edges, k, {}, depths, [])
  {
  }

  lemma LevelGrows(
    edges: Topology, k: nat, frontier: seq<string>, known: map<string, nat>, depths: map<string, nat>, next: seq<string>)
    requires AtLevel(edges, k, frontier, known) && AtLevel(edges, k + 1, next, depths)
    requires forall s :: s in next ==> Called(edges, s)
    ensures known.Keys <= depths.Keys
    ensures next != [] ==> CalledServices(edges) - depths.Keys < CalledServices(edges) - known.Keys
  {
    forall s | s in known
      ensures s in depths
    {
      var n: nat :| n <= k && Hops(edges, s, n);
      assert WithinLevel(edges, s, k + 1);
    }
    if next != [] {
      var s := next[0];
      assert s in next && Called(edges, s);
      var t :| (t, s) in edges;
      assert (t, s).1 in CalledServices(edges);
      assert WithinLevel(edges, s, k + 1);
      assert s !in known;
    }
  }

  ghost predicate AreRoots(edges: Topology, roots: seq<string>) {
    forall s :: s in roots <==> Calls(edges, s) && !Called(edges, s)
  }

  lemma RootsAreLevelZero(edges: Topology, roots: seq<string>, start: map<string, nat>)
    requires AreRoots(edges, roots)
    requires (forall s :: s in start <==> s in roots) && forall s :: s in start ==> start[s] == 0
    ensures AtLevel(edges, 0, roots, start)
  {
    forall s
      ensures WithinLevel(edges, s, 0) <==> Hops(edges, s, 0)
      ensures Distance(edges, s, 0) <==> Hops(edges, s, 0)
    {
    }
  }

  /** No never-called caller, nothing to compute. */
  lemma {:induction false} NoRootsNoDepths(edges: Topology, s: string, n: nat)
    requires AreRoots(edges, [])
    ensures !Hops(edges, s, n)
    decreases n
  {
    if n > 0 {
      forall p | (p, s) in edges
        ensures !Hops(edges, p, n - 1)
      {
        NoRootsNoDepths(edges, p, n - 1);
      }
    }
  }

  method AllAtZero(roots: seq<string>) returns (start: map<string, nat>)
    ensures (forall s :: s in start <==> s in roots) && forall s :: s in start ==> start[s] == 0
  {
    start := map[];
    for i := 0 to |roots|
      invariant (forall s :: s in start <==> s in roots[..i]) && forall s :: s in start ==> start[s] == 0
    {
      assert roots[..i + 1] == roots[..i] + [roots[i]];
      start := start[roots[i] := 0];
    }
    assert roots[..|roots|] == roots;
  }

  // ----- eval.py: compute_depths -----

  method ListOf(services: set<string>) returns (list: seq<string>)
    ensures forall s :: s in list <==> s in services
  {
    list := [];
    var rest := services;
    while rest != {}
      invariant rest <= services && forall s :: s in list <==> s in services - rest
      decreases rest
    {
      var s :| s in rest;
      rest := rest - {s};
      list := list + [s];
    }
  }

  method ComputeDepths(edges: Topology) returns (depths: map<string, nat>)
    ensures AreDepths(edges, depths)
  {
    var callees := set e | e in edges :: e.1;
    var callers := set e | e in edges :: e.0;
    var roots := ListOf(callers - callees);
    RootsFromSets(edges, callers, callees, roots);
    if roots == [] {
      NothingReachable(edges);
      return map[];
    }
    var outgoing := ListCallees(edges);
    var start := AllAtZero(roots);
    RootsAreLevelZero(edges, roots, start);
    depths := Search(edges, outgoing, roots, start);
  }

  lemma RootsFromSets(edges: Topology, callers: set<string>, callees: set<string>, roots: seq<string>)
    requires callers == (set e | e in edges :: e.0) && callees == (set e | e in edges :: e.1)
    requires forall s :: s in roots <==> s in callers - callees
    ensures AreRoots(edges, roots)
  {
    forall s
      ensures s in callers <==> Calls(edges, s)
      ensures s in callees <==> Called(edges, s)
    {
      if Calls(edges, s) {
        var t :| (s, t) in edges;
        assert (s, t).0 in callers;
      }
      if Called(edges, s) {
        var t :| (t, s) in edges;
        assert (t, s).1 in callees;
      }
    }
  }

  lemma NothingReachable(edges: Topology)
    requires AreRoots(edges, [])
    ensures AreDepths(edges, map[])
  {
    forall s, n: nat
      ensures !Hops(edges, s, n)
    {
      NoRootsNoDepths(edges, s, n);
    }
  }

  // ----- topologyLayout.ts: computeDepths -----

  function EdgeSet(edges: seq<Edge>): Topology {
    set e | e in edges
  }

  /** `[...callers].filter`: each caller once, in order of appearance, unless something calls it. */
  method NeverCalled(edges: seq<Edge>) returns (roots: seq<string>)
    ensures AreRoots(EdgeSet(edges), roots)
  {
    var callees := set e | e in edges :: e.1;
    roots := [];
    for i := 0 to |edges|
      invariant forall s :: s in roots <==> s !in callees && exists k :: 0 <= k < i && edges[k].0 == s
    {
      var caller := edges[i].0;
      if caller !in callees && caller !in roots {
        roots := roots + [caller];
      }
    }
    forall s
      ensures s in callees <==> Called(EdgeSet(edges), s)
      ensures (exists k :: 0 <= k < |edges| && edges[k].0 == s) <==> Calls(EdgeSet(edges), s)
    {
      CallersAndCallees(edges, s);
    }
  }

  lemma CallersAndCallees(edges: seq<Edge>, s: string)
    ensures s in (set e | e in edges :: e.1) <==> Called(EdgeSet(edges), s)
    ensures (exists k :: 0 <= k < |edges| && edges[k].0 == s) <==> Calls(EdgeSet(edges), s)
  {
    if Called(EdgeSet(edges), s) {
      var t :| (t, s) in EdgeSet(edges);
      assert (t, s) in edges && (t, s).1 == s;
    }
    if k :| 0 <= k < |edges| && edges[k].0 == s {
      assert (s, edges[k].1) in EdgeSet(edges);
    }
    if Calls(EdgeSet(edges), s) {
      var t :| (s, t) in EdgeSet(edges);
      var k :| 0 <= k < |edges| && edges[k] == (s, t);
    }
  }

  method GroupCallees(edges: seq<Edge>) returns (outgoing: Callees)
    ensures Lists(outgoing, EdgeSet(edges))
  {
    outgoing := map[];
    for i := 0 to |edges|
      invariant Lists(outgoing, EdgeSet(edges[..i]))
    {
      var e := edges[i];
      ListedOneMore(outgoing, EdgeSet(edges[..i]), e);
      assert edges[..i + 1] == edges[..i] + [e];
      assert EdgeSet(edges[..i + 1]) == EdgeSet(edges[..i]) + {e};
      outgoing := outgoing[e.0 := CalleesOf(outgoing, e.0) + [e.1]];
    }
    assert edges[..|edges|] == edges;
  }

  method ComputeDepthsOfList(edges: seq<Edge>) returns (depths: map<string, nat>)
    ensures AreDepths(EdgeSet(edges), depths)
  {
    var roots := NeverCalled(edges);
    if roots == [] {
      NothingReachable(EdgeSet(edges));
      return map[];
    }
    var outgoing := GroupCallees(edges);
    var start := AllAtZero(roots);
    RootsAreLevelZero(EdgeSet(edges), roots, start);
    depths := Search(EdgeSet(edges), outgoing, roots, start);
  }
}
