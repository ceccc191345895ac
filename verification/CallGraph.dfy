/** The caller-to-callee edges of a set of spans: recorded as ground truth, and found again by the analyzer. */
module CallGraph {
  import opened Collections
  import opened Spans
  import opened TraceGroups

  type Edge = (string, string)

  predicate CallsAs(parent: SpanRow, child: SpanRow, e: Edge) {
    Calls(parent, child) && parent.service == e.0 && child.service == e.1
  }

  ghost predicate HasCaller(rows: seq<SpanRow>, child: SpanRow, e: Edge) {
    exists p :: p in rows && CallsAs(p, child, e)
  }

  /** The calls along one edge, each named by its callee's span. */
  ghost function CallsAlong(rows: seq<SpanRow>, e: Edge): set<SpanRow> {
    set c | c in rows && HasCaller(rows, c, e)
  }

  // ----- loadgen/internal/groundtruth/writer.go: toRows -----

  /** One edge per span whose parent is in the plan; `origin[i]` is the span behind `edges[i]`. */
  ghost predicate EdgesOf(plan: seq<SpanRow>, upTo: seq<SpanRow>, edges: seq<Edge>, origin: seq<SpanRow>) {
    && |origin| == |edges| && Distinct(origin)
    && (forall i :: 0 <= i < |edges| ==> origin[i] in upTo && HasCaller(plan, origin[i], edges[i]))
    && (forall c, e :: c in upTo && HasCaller(plan, c, e) ==> c in origin)
  }

  method ToRows(plan: seq<SpanRow>) returns (spans: seq<SpanRow>, edges: seq<Edge>, ghost origin: seq<SpanRow>)
    requires UniqueIds(plan) && forall r, s :: r in plan && s in plan ==> r.traceId == s.traceId
    ensures spans == plan
    ensures EdgesOf(plan, plan, edges, origin)
  {
    var byId := map r | r in plan :: r.spanId := r;
    spans, edges, origin := [], [], [];
    for i := 0 to |plan|
      invariant spans == plan[..i]
      invariant EdgesOf(plan, plan[..i], edges, origin)
    {
      var r := plan[i];
      assert plan[..i + 1] == plan[..i] + [r];
      spans := spans + [r];
      if r.parent == "" {
        continue;
      }
      if r.parent !in byId {
        continue;
      }
      var p := byId[r.parent];
      OneMoreEdge(plan, plan[..i], edges, origin, p, r);
      edges := edges + [(p.service, r.service)];
      origin := origin + [r];
    }
    assert plan[..|plan|] == plan;
  }

  lemma OneMoreEdge(plan: seq<SpanRow>, upTo: seq<SpanRow>, edges: seq<Edge>, origin: seq<SpanRow>, p: SpanRow, r: SpanRow)
    requires EdgesOf(plan, upTo, edges, origin) && r !in upTo && p in plan && Calls(p, r)
    ensures EdgesOf(plan, upTo + [r], edges + [(p.service, r.service)], origin + [r])
  {
    assert CallsAs(p, r, (p.service, r.service)) && HasCaller(plan, r, (p.service, r.service));
    forall i | 0 <= i < |edges|
      ensures origin[i] in upTo + [r]
    {
      assert origin[i] in upTo;
    }
  }

  lemma CallerIsUnique(plan: seq<SpanRow>, p: SpanRow, q: SpanRow, c: SpanRow)
    requires UniqueSpans(plan) && p in plan && q in plan && Calls(p, c) && Calls(q, c)
    ensures p == q
  {
  }

  /** The recorded multiset of edges counts each edge once per call along it. */
  lemma RecordedEdgeCount(plan: seq<SpanRow>, edges: seq<Edge>, origin: seq<SpanRow>, e: Edge)
    requires UniqueSpans(plan) && EdgesOf(plan, plan, edges, origin)
    ensures multiset(edges)[e] == |CallsAlong(plan, e)|
  {
    var calls := CallsAlong(plan, e);
    var along := (r: SpanRow) => r in calls;
    forall i | 0 <= i < |edges|
      ensures edges[i] == e <==> along(origin[i])
    {
      OriginEdge(plan, edges, origin, e, i);
    }
    MultiplicityIsCount(edges, e);
    CountTransfers(edges, origin, Is(e), along);
    CountIsCardinality(origin, along);
    forall c | c in calls
      ensures c in origin
    {
      assert HasCaller(plan, c, e);
    }
    assert Satisfying(origin, along) == calls;
  }

  lemma OriginEdge(plan: seq<SpanRow>, edges: seq<Edge>, origin: seq<SpanRow>, e: Edge, i: nat)
    requires UniqueSpans(plan) && EdgesOf(plan, plan, edges, origin) && i < |edges|
    ensures edges[i] == e <==> origin[i] in CallsAlong(plan, e)
  {
    assert HasCaller(plan, origin[i], edges[i]);
    var p :| p in plan && CallsAs(p, origin[i], edges[i]);
    if q :| q in plan && CallsAs(q, origin[i], e) {
      CallerIsUnique(plan, p, q, origin[i]);
    }
  }

  function Is(e: Edge): Edge -> bool {
    (x: Edge) => x == e
  }

  lemma {:induction false} MultiplicityIsCount(edges: seq<Edge>, e: Edge)
    ensures multiset(edges)[e] == Count(edges, Is(e))
  {
    if edges == [] {
    } else {
      var init, last := edges[..|edges| - 1], edges[|edges| - 1];
      assert edges == init + [last];
      MultiplicityIsCount(init, e);
    }
  }

  lemma {:induction false} CountTransfers<A, B>(a: seq<A>, b: seq<B>, p: A -> bool, q: B -> bool)
    requires |a| == |b| && forall i :: 0 <= i < |a| ==> p(a[i]) == q(b[i])
    ensures Count(a, p) == Count(b, q)
  {
    if a == [] {
    } else {
      CountTransfers(a[..|a| - 1], b[..|b| - 1], p, q);
    }
  }

  // ----- analyzer/topology_agg.py: aggregate_edges -----

  const STATUS_ERROR := 2

  datatype ServiceEdge = ServiceEdge(caller: string, callee: string, callCount: nat, errorCount: nat) {
    function Key(): Edge {
      (caller, callee)
    }
  }

  function Failed(): SpanRow -> bool {
    (r: SpanRow) => r.status == STATUS_ERROR
  }

  ghost function FailedCalls(rows: seq<SpanRow>, e: Edge): set<SpanRow> {
    set c | c in CallsAlong(rows, e) && c.status == 2
  }

  ghost predicate PairAlong(pairs: seq<Pair>, e: Edge, c: SpanRow) {
    exists p :: (p, c) in pairs && p.service == e.0 && c.service == e.1
  }

  predicate InGroup(groups: map<Edge, seq<SpanRow>>, e: Edge, c: SpanRow) {
    e in groups && c in groups[e]
  }

  /** The callees of the pairs seen so far, by edge; `order` has every edge once. */
  ghost predicate GroupedPairs(pairs: seq<Pair>, order: seq<Edge>, groups: map<Edge, seq<SpanRow>>) {
    && Distinct(order) && (forall e :: e in order <==> e in groups)
    && (forall e :: e in groups ==> Distinct(groups[e]) && groups[e] != [])
    && (forall e, c :: InGroup(groups, e, c) <==> PairAlong(pairs, e, c))
  }

  method GroupPairs(pairs: seq<Pair>) returns (order: seq<Edge>, groups: map<Edge, seq<SpanRow>>)
    requires forall i, j :: 0 <= i < j < |pairs| ==> pairs[i].1 != pairs[j].1
    ensures GroupedPairs(pairs, order, groups)
  {
    order, groups := [], map[];
    for i := 0 to |pairs|
      invariant GroupedPairs(pairs[..i], order, groups)
    {
      var (parent, child) := pairs[i];
      var e := (parent.service, child.service);
      OneMorePair(pairs, i, order, groups);
      if e !in groups {
        order := order + [e];
      }
      groups := groups[e := (if e in groups then groups[e] else []) + [child]];
    }
    assert pairs[..|pairs|] == pairs;
  }

  lemma OneMorePair(pairs: seq<Pair>, i: nat, order: seq<Edge>, groups: map<Edge, seq<SpanRow>>)
    requires i < |pairs| && forall k, l :: 0 <= k < l < |pairs| ==> pairs[k].1 != pairs[l].1
    requires GroupedPairs(pairs[..i], order, groups)
    ensures var e := (pairs[i].0.service, pairs[i].1.service);
            GroupedPairs(pairs[..i + 1],
                         if e in groups then order else order + [e],
                         groups[e := (if e in groups then groups[e] else []) + [pairs[i].1]])
  {
    var (parent, child) := pairs[i];
    var e := (parent.service, child.service);
    var before := if e in groups then groups[e] else [];
    var groups' := groups[e := before + [child]];
    NewPair(pairs, i);
    assert !InGroup(groups, e, child);
    assert child !in before && Distinct(before + [child]);
    forall f, c
      ensures InGroup(groups', f, c) <==> PairAlong(pairs[..i + 1], f, c)
    {
      assert InGroup(groups', f, c) <==> InGroup(groups, f, c) || (f == e && c == child);
    }
  }

  lemma NewPair(pairs: seq<Pair>, i: nat)
    requires i < |pairs| && forall k, l :: 0 <= k < l < |pairs| ==> pairs[k].1 != pairs[l].1
    ensures forall e :: !PairAlong(pairs[..i], e, pairs[i].1)
    ensures forall e, c :: PairAlong(pairs[..i + 1], e, c) <==>
                           PairAlong(pairs[..i], e, c) || (e == (pairs[i].0.service, pairs[i].1.service) && c == pairs[i].1)
  {
    var (parent, child) := pairs[i];
    assert pairs[..i + 1] == pairs[..i] + [pairs[i]];
    forall p, c
      ensures (p, c) in pairs[..i + 1] <==> (p, c) in pairs[..i] || (p, c) == (parent, child)
      ensures (p, c) in pairs[..i] ==> c != child
    {
      if (p, c) in pairs[..i] {
        var k :| 0 <= k < i && pairs[k] == (p, c);
      }
    }
    forall e, c
      ensures PairAlong(pairs[..i + 1], e, c) <==> PairAlong(pairs[..i], e, c) || (e == (parent.service, child.service) && c == child)
    {
      if PairAlong(pairs[..i], e, c) {
        var p: SpanRow :| (p, c) in pairs[..i] && p.service == e.0 && c.service == e.1;
        assert (p, c) in pairs[..i + 1];
      }
      assert (parent, child) in pairs[..i + 1];
    }
  }

  /** Each edge with a resolved call, exactly once, with its number of calls and failed calls. */
  ghost predicate Aggregates(rows: seq<SpanRow>, edges: seq<ServiceEdge>) {
    && (forall i, j :: 0 <= i < j < |edges| ==> edges[i].Key() != edges[j].Key())
    && (forall x :: x in edges ==>
          && x.callCount == |CallsAlong(rows, x.Key())| > 0
          && x.errorCount == |FailedCalls(rows, x.Key())|)
    && (forall e :: CallsAlong(rows, e) != {} ==> exists x :: x in edges && x.Key() == e)
  }

  method AggregateEdges(rows: seq<SpanRow>) returns (edges: seq<ServiceEdge>)
    requires UniqueSpans(rows)
    ensures Aggregates(rows, edges)
  {
    var pairs := ResolvedPairs(rows);
    var order, groups := GroupPairs(pairs);
    edges := [];
    for i := 0 to |order|
      invariant |edges| == i && forall k :: 0 <= k < i ==> order[k] in groups && edges[k] == EdgeFor(order[k], groups)
    {
      var e := order[i];
      assert e in order;
      edges := edges + [EdgeFor(e, groups)];
    }
    GroupsAggregate(rows, pairs, order, groups, edges);
  }

  function EdgeFor(e: Edge, groups: map<Edge, seq<SpanRow>>): ServiceEdge
    requires e in groups
  {
    ServiceEdge(e.0, e.1, |groups[e]|, Count(groups[e], Failed()))
  }

  lemma GroupIsCallsAlong(rows: seq<SpanRow>, pairs: seq<Pair>, order: seq<Edge>, groups: map<Edge, seq<SpanRow>>, e: Edge)
    requires PairsUp(rows, pairs) && GroupedPairs(pairs, order, groups)
    ensures forall c :: c in CallsAlong(rows, e) <==> InGroup(groups, e, c)
  {
    forall c
      ensures c in CallsAlong(rows, e) <==> PairAlong(pairs, e, c)
    {
      if c in CallsAlong(rows, e) {
        var p :| p in rows && CallsAs(p, c, e);
        assert (p, c) in pairs;
      }
      if PairAlong(pairs, e, c) {
        var p: SpanRow :| (p, c) in pairs && p.service == e.0 && c.service == e.1;
        assert CallsAs(p, c, e);
      }
    }
  }

  lemma EdgeCounts(rows: seq<SpanRow>, pairs: seq<Pair>, order: seq<Edge>, groups: map<Edge, seq<SpanRow>>, e: Edge)
    requires PairsUp(rows, pairs) && GroupedPairs(pairs, order, groups) && e in groups
    ensures |groups[e]| == |CallsAlong(rows, e)| > 0
    ensures Count(groups[e], Failed()) == |FailedCalls(rows, e)|
  {
    GroupIsCallsAlong(rows, pairs, order, groups, e);
    DistinctIsCardinality(groups[e]);
    CountIsCardinality(groups[e], Failed());
    assert Elements(groups[e]) == CallsAlong(rows, e);
    assert Satisfying(groups[e], Failed()) == FailedCalls(rows, e);
  }

  lemma GroupsAggregate(
    rows: seq<SpanRow>, pairs: seq<Pair>, order: seq<Edge>, groups: map<Edge, seq<SpanRow>>, edges: seq<ServiceEdge>)
    requires PairsUp(rows, pairs) && GroupedPairs(pairs, order, groups)
    requires |edges| == |order| && forall k :: 0 <= k < |order| ==> order[k] in groups && edges[k] == EdgeFor(order[k], groups)
    ensures Aggregates(rows, edges)
  {
    forall x | x in edges
      ensures x.callCount == |CallsAlong(rows, x.Key())| > 0
      ensures x.errorCount == |FailedCalls(rows, x.Key())|
    {
      var k :| 0 <= k < |order| && edges[k] == x;
      EdgeCounts(rows, pairs, order, groups, order[k]);
    }
    forall e | CallsAlong(rows, e) != {}
      ensures exists x :: x in edges && x.Key() == e
    {
      GroupIsCallsAlong(rows, pairs, order, groups, e);
      var c :| c in CallsAlong(rows, e);
      assert InGroup(groups, e, c) && e in order;
      var k :| 0 <= k < |order| && order[k] == e;
      assert edges[k] in edges && edges[k].Key() == e;
    }
  }
}
