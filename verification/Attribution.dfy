/** `analyzer/suppression.py`: what the annotated incidents say, from raw detections on. */
module Attribution {
  import opened Collections
  import opened Grouping
  import opened Suppression
  import opened RootCauses
  import opened CircularCalls

  // ----- The annotated incidents -----

  /** As `group_detections` delivers them. */
  ghost predicate Fresh(incidents: seq<Incident>) {
    && (forall i :: i in incidents ==> WellNamed(i) && !i.derived && i.rootCause == None)
    && forall m, n :: 0 <= m < n < |incidents| ==> incidents[m].id != incidents[n].id
  }

  lemma TabledById(incidents: seq<Incident>, n: nat)
    requires Fresh(incidents) && n < |incidents|
    ensures var table, i := ByTarget(incidents), incidents[n];
            (KeyOfId(i.id) in table && table[KeyOfId(i.id)].id == i.id) <==> LastOfKey(incidents, n)
    ensures LastOfKey(incidents, n) <==> Tabled(ByTarget(incidents), incidents[n])
  {
    var table, i := ByTarget(incidents), incidents[n];
    if LastOfKey(incidents, n) {
      LastOfKeyIsTabled(incidents, n);
    } else if KeyOfId(i.id) in table && table[KeyOfId(i.id)].id == i.id {
      var m := TabledIsLastOfKey(incidents, table[KeyOfId(i.id)]);
    }
  }

  /** Any topology: only the verdict is added, and only to the last incident of a key. */
  lemma OutcomeIs(incidents: seq<Incident>, outgoing: Callees, n: nat)
    requires Fresh(incidents) && n < |incidents|
    ensures var results, table, i := Outcome(incidents, outgoing), ByTarget(incidents), incidents[n];
            && results[n].(derived := false, rootCause := None) == i
            && (!LastOfKey(incidents, n) ==> results[n] == i)
            && (LastOfKey(incidents, n) ==> Tabled(table, i) && results[n].rootCause == Verdict(table, outgoing, i))
            && (results[n].derived <==> results[n].rootCause.Some?)
  {
    TabledById(incidents, n);
  }

  /** Any topology: a root cause is a service incident of the same detector in the same batch. */
  lemma RootCauseIsAnIncident(incidents: seq<Incident>, outgoing: Callees, n: nat) returns (m: nat)
    requires Fresh(incidents) && n < |incidents| && Outcome(incidents, outgoing)[n].derived
    ensures m < |incidents| && LastOfKey(incidents, m)
    ensures Outcome(incidents, outgoing)[n].rootCause == Some(incidents[m].id)
    ensures incidents[m].target.kind == Service && incidents[m].detector == incidents[n].detector
    ensures var table, i := ByTarget(incidents), incidents[n];
            Tabled(table, i)
            && if i.target.kind == Service then incidents[m] == ResolveRoot(table, outgoing, i, {})
               else Downstream(table, i, i.target.callee).Some?
                    && incidents[m] == ResolveRoot(table, outgoing, Downstream(table, i, i.target.callee).value, {})
  {
    OutcomeIs(incidents, outgoing, n);
    var table, i := ByTarget(incidents), incidents[n];
    var start := if i.target.kind == Service then i else Downstream(table, i, i.target.callee).value;
    m := TabledIsLastOfKey(incidents, ResolveRoot(table, outgoing, start, {}));
  }

  // ----- Incidents on call edges -----

  /** m is the last incident of n's detector on the service that n's edge calls, and overlaps n in time. */
  ghost predicate OfCallee(incidents: seq<Incident>, n: nat, m: nat)
    requires n < |incidents| && m < |incidents|
  {
    && LastOfKey(incidents, m) && incidents[m].target.kind == Service
    && incidents[m].target.callee == incidents[n].target.callee && incidents[m].detector == incidents[n].detector
    && Overlaps(incidents[n], incidents[m])
  }

  ghost predicate HasCalleeIncident(incidents: seq<Incident>, n: nat)
    requires n < |incidents|
  {
    exists m: nat :: m < |incidents| && OfCallee(incidents, n, m)
  }

  lemma DownstreamIsOfCallee(incidents: seq<Incident>, n: nat, m: nat)
    requires Fresh(incidents) && n < |incidents| && m < |incidents|
    ensures OfCallee(incidents, n, m) <==>
              Downstream(ByTarget(incidents), incidents[n], incidents[n].target.callee) == Some(incidents[m])
  {
    var table, key := ByTarget(incidents), (Service, incidents[n].target.callee, incidents[n].detector);
    TabledById(incidents, m);
    if key in table {
      assert KeyOfIncident(table[key]) == key;
    }
  }

  /** Any topology: the last incident of a call edge is derived exactly if the called service has such an incident. */
  lemma EdgeIncidentIsDerivedIff(incidents: seq<Incident>, outgoing: Callees, n: nat)
    requires Fresh(incidents) && n < |incidents| && LastOfKey(incidents, n) && incidents[n].target.kind == CallEdge
    ensures Outcome(incidents, outgoing)[n].derived <==> HasCalleeIncident(incidents, n)
  {
    OutcomeIs(incidents, outgoing, n);
    var table := ByTarget(incidents);
    var callee := Downstream(table, incidents[n], incidents[n].target.callee);
    if callee.Some? {
      var m := TabledIsLastOfKey(incidents, callee.value);
      DownstreamIsOfCallee(incidents, n, m);
    } else if m: nat :| m < |incidents| && OfCallee(incidents, n, m) {
      DownstreamIsOfCallee(incidents, n, m);
    }
  }

  /**
    And its root cause is then where the links of the called service's incident end: without cycles
    the first by label of all the sinks they lead to, which is that incident itself if it is a sink.
   */
  lemma EdgeRootCauseIs(incidents: seq<Incident>, edges: Topology, outgoing: Callees, n: nat, m: nat) returns (r: nat, hops: nat)
    requires Fresh(incidents) && Lists(outgoing, edges) && n < |incidents| && m < |incidents|
    requires LastOfKey(incidents, n) && incidents[n].target.kind == CallEdge && OfCallee(incidents, n, m)
    ensures r < |incidents| && Outcome(incidents, outgoing)[n].rootCause == Some(incidents[r].id)
    ensures Linked(ByTarget(incidents), edges, incidents[m], incidents[r], hops)
    ensures Acyclic(edges) ==> IsFirstSink(ByTarget(incidents), edges, incidents[m], incidents[r])
    ensures Acyclic(edges) && Sink(ByTarget(incidents), edges, incidents[m]) ==> incidents[r] == incidents[m]
  {
    var table := ByTarget(incidents);
    DownstreamIsOfCallee(incidents, n, m);
    OutcomeIs(incidents, outgoing, n);
    r := TabledIsLastOfKey(incidents, ResolveRoot(table, outgoing, incidents[m], {}));
    hops := ResolvedIsLinked(table, edges, outgoing, incidents[m], {});
    if Acyclic(edges) {
      RootIsFirstSink(table, edges, outgoing, incidents[m], incidents[r]);
    }
  }

  /** Reached by links from i, the end of its own, and before any other such end. */
  ghost predicate IsFirstSink(table: Table, edges: Topology, i: Incident, root: Incident) {
    && Sink(table, edges, root)
    && (exists hops :: Linked(table, edges, i, root, hops))
    && forall s, hops :: Linked(table, edges, i, s, hops) && Sink(table, edges, s) ==> !Precedes(s, root)
  }

  lemma RootIsFirstSink(table: Table, edges: Topology, outgoing: Callees, i: Incident, root: Incident)
    requires Acyclic(edges) && Consistent(table) && Tabled(table, i) && Lists(outgoing, edges) && i.target.kind == Service
    requires root == ResolveRoot(table, outgoing, i, {})
    ensures IsFirstSink(table, edges, i, root)
    ensures root == i <==> Sink(table, edges, i)
  {
    var rank :| Ranks(rank, edges);
    AcyclicResolvesToSink(table, edges, outgoing, rank, i, {});
    var hops := ResolvedIsLinked(table, edges, outgoing, i, {});
    forall s, n | Linked(table, edges, i, s, n) && Sink(table, edges, s)
      ensures !Precedes(s, root)
    {
      AcyclicRootIsFirst(table, edges, outgoing, rank, i, {}, s, n);
    }
  }

  /** Without cycles a service incident's root cause is the first sink that its links lead to, and there is one unless it is a sink. */
  lemma ServiceRootCauseIs(incidents: seq<Incident>, edges: Topology, outgoing: Callees, n: nat) returns (r: nat)
    requires Fresh(incidents) && Lists(outgoing, edges) && Acyclic(edges)
    requires n < |incidents| && LastOfKey(incidents, n) && incidents[n].target.kind == Service
    ensures r < |incidents| && IsFirstSink(ByTarget(incidents), edges, incidents[n], incidents[r])
    ensures Outcome(incidents, outgoing)[n].rootCause
         == if Sink(ByTarget(incidents), edges, incidents[n]) then None else Some(incidents[r].id)
  {
    var table, i := ByTarget(incidents), incidents[n];
    OutcomeIs(incidents, outgoing, n);
    var root := ResolveRoot(table, outgoing, i, {});
    r := TabledIsLastOfKey(incidents, root);
    RootIsFirstSink(table, edges, outgoing, i, root);
    assert r != n ==> incidents[r].id != incidents[n].id;
  }

  // ----- Root causes are not derived -----

  /**
    Where cycles of calls are simple, every root cause is an incident that is not itself derived;
    without any cycle it is a sink.
   */
  lemma RootCausesAreNotDerived(incidents: seq<Incident>, edges: Topology, outgoing: Callees, n: nat) returns (m: nat)
    requires Fresh(incidents) && Lists(outgoing, edges) && CyclesAreSimple(edges)
    requires n < |incidents| && Outcome(incidents, outgoing)[n].derived
    ensures m < |incidents| && Outcome(incidents, outgoing)[n].rootCause == Some(incidents[m].id)
    ensures Outcome(incidents, outgoing)[m] == incidents[m] && !Outcome(incidents, outgoing)[m].derived
    ensures Acyclic(edges) ==> Sink(ByTarget(incidents), edges, incidents[m])
  {
    m := RootCauseIsAnIncident(incidents, outgoing, n);
    var rank :| WeaklyRanks(rank, edges) && OneAlongside(rank, edges);
    var table, i := ByTarget(incidents), incidents[n];
    var start := if i.target.kind == Service then i else Downstream(table, i, i.target.callee).value;
    RootIsSettled(table, edges, outgoing, rank, start, incidents[m]);
    if Acyclic(edges) {
      var strict :| Ranks(strict, edges);
      AcyclicResolvesToSink(table, edges, outgoing, strict, start, {});
    }
    OutcomeIs(incidents, outgoing, m);
  }

  /** On an acyclic topology a kept service incident is derived exactly if a direct callee has one that it overlaps. */
  lemma DerivedIffLinked(incidents: seq<Incident>, edges: Topology, outgoing: Callees, n: nat)
    requires Fresh(incidents) && Lists(outgoing, edges) && Acyclic(edges)
    requires n < |incidents| && LastOfKey(incidents, n) && incidents[n].target.kind == Service
    ensures Outcome(incidents, outgoing)[n].derived <==> exists b :: Link(ByTarget(incidents), edges, incidents[n], b)
  {
    var rank :| Ranks(rank, edges);
    OutcomeIs(incidents, outgoing, n);
    AcyclicResolvesToSink(ByTarget(incidents), edges, outgoing, rank, incidents[n], {});
  }

  lemma VerdictIgnoresOrder(table: Table, edges: Topology, outgoing: Callees, outgoing': Callees, i: Incident)
    requires Consistent(table) && Tabled(table, i) && Lists(outgoing, edges) && Lists(outgoing', edges)
    ensures Verdict(table, outgoing, i) == Verdict(table, outgoing', i)
  {
    if i.target.kind == Service {
      RootIgnoresOrder(table, edges, outgoing, outgoing', i, {});
    } else if Downstream(table, i, i.target.callee).Some? {
      RootIgnoresOrder(table, edges, outgoing, outgoing', Downstream(table, i, i.target.callee).value, {});
    }
  }

  lemma JudgedIgnoresOrder(table: Table, edges: Topology, outgoing: Callees, outgoing': Callees, i: Incident)
    requires Consistent(table) && Lists(outgoing, edges) && Lists(outgoing', edges)
    ensures Judged(table, outgoing, i) == Judged(table, outgoing', i)
  {
    if KeyOfId(i.id) in table {
      VerdictIgnoresOrder(table, edges, outgoing, outgoing', table[KeyOfId(i.id)]);
    }
  }

  /** The annotations depend on the edges as a set, not on how they are enumerated. */
  lemma OutcomeIgnoresOrder(incidents: seq<Incident>, edges: Topology, outgoing: Callees, outgoing': Callees)
    requires forall i :: i in incidents ==> WellNamed(i)
    requires Lists(outgoing, edges) && Lists(outgoing', edges)
    ensures Outcome(incidents, outgoing) == Outcome(incidents, outgoing')
  {
    var table := ByTarget(incidents);
    forall n | 0 <= n < |incidents|
      ensures Judged(table, outgoing, incidents[n]) == Judged(table, outgoing', incidents[n])
    {
      JudgedIgnoresOrder(table, edges, outgoing, outgoing', incidents[n]);
    }
  }

  // ----- Grouped detections come out fresh -----

  lemma RunIsOfKey(ds: seq<Detection>, key: Key, window: int, r: nat)
    requires r < |RunsOf(SortByStart(OfKey(ds, key)), window)|
    ensures KeyOf(RunsOf(SortByStart(OfKey(ds, key)), window)[r][0]) == key
  {
    var group := OfKey(ds, key);
    var sorted := SortByStart(group);
    var d := RunsOf(sorted, window)[r][0];
    RunsAreMaximal(sorted, window);
    PartIsWithin(RunsOf(sorted, window), r, d);
    SortIs(group);
    assert d in multiset(sorted);
    OfKeyAre(ds, key, d);
  }

  lemma RunsOfKey(ds: seq<Detection>, key: Key, window: int)
    requires window >= 0
    ensures var runs := RunsOf(SortByStart(OfKey(ds, key)), window);
            Spaced(runs, window) && forall p :: 0 <= p < |runs| ==> Sorted(runs[p]) && KeyOf(runs[p][0]) == key
  {
    var sorted := SortByStart(OfKey(ds, key));
    RunsAreMaximal(sorted, window);
    SortIs(OfKey(ds, key));
    forall p | 0 <= p < |RunsOf(sorted, window)|
      ensures Sorted(RunsOf(sorted, window)[p]) && KeyOf(RunsOf(sorted, window)[p][0]) == key
    {
      RunIsSorted(sorted, window, p);
      RunIsOfKey(ds, key, window, p);
    }
  }

  lemma IncidentsOfRunsAreFresh(runs: seq<seq<Detection>>, key: Key, window: int)
    requires window >= 0 && Spaced(runs, window)
    requires forall p :: 0 <= p < |runs| ==> Sorted(runs[p]) && KeyOf(runs[p][0]) == key
    ensures Fresh(IncidentsFor(runs, key.2))
    ensures forall i :: i in IncidentsFor(runs, key.2) ==> KeyOfId(i.id) == key
  {
    var incidents := IncidentsFor(runs, key.2);
    forall q, r | 0 <= q < r < |incidents|
      ensures incidents[q].id != incidents[r].id
    {
      RunsAscend(runs, window, q, r);
      assert runs[q][0].windowStart <= Last(runs[q]).windowStart;
    }
  }

  lemma IncidentsOfKeyAreFresh(ds: seq<Detection>, key: Key, window: int)
    requires window >= 0
    ensures Fresh(IncidentsOf(ds, key, window))
    ensures forall i :: i in IncidentsOf(ds, key, window) ==> KeyOfId(i.id) == key
  {
    RunsOfKey(ds, key, window);
    IncidentsOfRunsAreFresh(RunsOf(SortByStart(OfKey(ds, key)), window), key, window);
  }

  /** Every incident that grouping delivers has an id of its own, and none is derived yet. */
  lemma {:induction false} GroupedIncidentsAreFresh(ds: seq<Detection>, keys: seq<Key>, window: int)
    requires window >= 0 && Distinct(keys)
    ensures Fresh(IncidentsOfAll(ds, keys, window))
    ensures forall i :: i in IncidentsOfAll(ds, keys, window) ==> KeyOfId(i.id) in keys
  {
    if keys == [] {
    } else {
      var init := keys[..|keys| - 1];
      SplitLast(keys);
      GroupedIncidentsAreFresh(ds, init, window);
      IncidentsOfKeyAreFresh(ds, Last(keys), window);
      FreshConcat(IncidentsOfAll(ds, init, window), IncidentsOf(ds, Last(keys), window), init, Last(keys));
    }
  }

  lemma FreshConcat(a: seq<Incident>, b: seq<Incident>, keys: seq<Key>, key: Key)
    requires Fresh(a) && Fresh(b) && key !in keys
    requires forall i :: i in a ==> KeyOfId(i.id) in keys
    requires forall i :: i in b ==> KeyOfId(i.id) == key
    ensures Fresh(a + b)
  {
    forall m, n | 0 <= m < n < |a + b|
      ensures (a + b)[m].id != (a + b)[n].id
    {
      if m < |a| <= n {
        assert a[m] in a && b[n - |a|] in b;
      }
    }
  }

  /** One annotated incident per incident of these detections, the same but for its verdict. */
  ghost predicate Annotates(ds: seq<Detection>, window: int, results: seq<Incident>) {
    exists incidents: seq<Incident> ::
      && Fresh(incidents) && WindowTotal(incidents) == |ds| && |results| == |incidents|
      && (exists keys :: ListsKeys(ds, keys) && incidents == IncidentsOfAll(ds, keys, window))
      && forall n :: 0 <= n < |results| ==> results[n].(derived := false, rootCause := None) == incidents[n]
  }

  lemma OutcomeAnnotates(ds: seq<Detection>, window: int, keys: seq<Key>, outgoing: Callees)
    requires window >= 0 && ListsKeys(ds, keys)
    ensures Fresh(IncidentsOfAll(ds, keys, window))
    ensures Annotates(ds, window, Outcome(IncidentsOfAll(ds, keys, window), outgoing))
  {
    var incidents := IncidentsOfAll(ds, keys, window);
    GroupedIncidentsAreFresh(ds, keys, window);
    WindowCountsConserveDetections(ds, keys, window);
    forall n | 0 <= n < |incidents|
      ensures Outcome(incidents, outgoing)[n].(derived := false, rootCause := None) == incidents[n]
    {
      OutcomeIs(incidents, outgoing, n);
    }
  }

  lemma OutcomeNamesUnderivedRoots(incidents: seq<Incident>, edges: Topology, outgoing: Callees)
    requires Fresh(incidents) && Lists(outgoing, edges) && CyclesAreSimple(edges)
    ensures var results := Outcome(incidents, outgoing);
            forall n :: 0 <= n < |results| && results[n].derived ==> NamesUnderivedRoot(results, n)
  {
    var results := Outcome(incidents, outgoing);
    forall n | 0 <= n < |results| && results[n].derived
      ensures NamesUnderivedRoot(results, n)
    {
      var m := RootCausesAreNotDerived(incidents, edges, outgoing, n);
      assert results[m] == incidents[m];
    }
  }

  /** What the annotations say of call edges, read off the annotated incidents alone. */
  ghost predicate EdgesAreJudged(results: seq<Incident>) {
    forall n: nat :: n < |results| && results[n].target.kind == CallEdge ==>
      (results[n].derived <==> LastOfKey(results, n) && HasCalleeIncident(results, n))
  }

  lemma SameKeysSameCallees(incidents: seq<Incident>, results: seq<Incident>, n: nat, m: nat)
    requires |results| == |incidents| && n < |incidents| && m < |incidents|
    requires forall k :: 0 <= k < |results| ==> results[k].(derived := false, rootCause := None) == incidents[k]
    ensures LastOfKey(results, n) <==> LastOfKey(incidents, n)
    ensures OfCallee(results, n, m) <==> OfCallee(incidents, n, m)
  {
    assert forall k :: 0 <= k < |results| ==> KeyOfIncident(results[k]) == KeyOfIncident(incidents[k]);
  }

  lemma OutcomeJudgesEdges(incidents: seq<Incident>, outgoing: Callees)
    requires Fresh(incidents)
    ensures EdgesAreJudged(Outcome(incidents, outgoing))
  {
    var results := Outcome(incidents, outgoing);
    forall k | 0 <= k < |results|
      ensures results[k].(derived := false, rootCause := None) == incidents[k]
    {
      OutcomeIs(incidents, outgoing, k);
    }
    forall n: nat | n < |results| && results[n].target.kind == CallEdge
      ensures results[n].derived <==> LastOfKey(results, n) && HasCalleeIncident(results, n)
    {
      EdgeIsJudged(incidents, outgoing, results, n);
    }
  }

  lemma EdgeIsJudged(incidents: seq<Incident>, outgoing: Callees, results: seq<Incident>, n: nat)
    requires Fresh(incidents) && results == Outcome(incidents, outgoing) && n < |results| && results[n].target.kind == CallEdge
    requires forall k :: 0 <= k < |results| ==> results[k].(derived := false, rootCause := None) == incidents[k]
    ensures results[n].derived <==> LastOfKey(results, n) && HasCalleeIncident(results, n)
  {
    OutcomeIs(incidents, outgoing, n);
    forall m: nat | m < |incidents|
      ensures LastOfKey(results, n) <==> LastOfKey(incidents, n)
      ensures OfCallee(results, n, m) <==> OfCallee(incidents, n, m)
    {
      SameKeysSameCallees(incidents, results, n, m);
    }
    if LastOfKey(incidents, n) {
      EdgeIncidentIsDerivedIff(incidents, outgoing, n);
    }
  }

  /** From raw detections to attributed incidents. */
  method Attribute(ds: seq<Detection>, window: int, edges: Topology) returns (results: seq<Incident>)
    requires window >= 0
    ensures Annotates(ds, window, results) && EdgesAreJudged(results)
    ensures CyclesAreSimple(edges) ==> forall n :: 0 <= n < |results| && results[n].derived ==> NamesUnderivedRoot(results, n)
  {
    var grouped := GroupDetections(ds, window);
    ghost var keys :| ListsKeys(ds, keys) && grouped == IncidentsOfAll(ds, keys, window);
    GroupedIncidentsAreFresh(ds, keys, window);
    results := SuppressPropagated(grouped, edges);
    ghost var outgoing :| Lists(outgoing, edges) && results == Outcome(grouped, outgoing);
    OutcomeAnnotates(ds, window, keys, outgoing);
    OutcomeJudgesEdges(grouped, outgoing);
    if CyclesAreSimple(edges) {
      OutcomeNamesUnderivedRoots(grouped, edges, outgoing);
    }
  }

  predicate NamesUnderivedRoot(results: seq<Incident>, n: nat)
    requires n < |results|
  {
    exists m :: 0 <= m < |results| && results[n].rootCause == Some(results[m].id) && !results[m].derived
  }

  // ----- A cycle can make a root cause derived -----

  lemma ResolvesPastOne(
    table: Table, outgoing: Callees, i: Incident, visiting: set<IncidentId>, deeper: set<IncidentId>,
    d: Incident, root: Incident)
    requires Consistent(table) && Tabled(table, i) && i.target.kind == Service
    requires i.id !in visiting && deeper == visiting + {i.id}
    requires CalleesOf(outgoing, i.target.callee) == [d.target.callee]
    requires Downstream(table, i, d.target.callee) == Some(d) && ResolveRoot(table, outgoing, d, deeper) == root
    ensures ResolveRoot(table, outgoing, i, visiting) == root
  {
    TabledIsListed(table, i);
    OneCandidateMore(table, outgoing, i, [], d, deeper);
  }

  lemma ResolvesPastTwo(
    table: Table, outgoing: Callees, i: Incident, visiting: set<IncidentId>, deeper: set<IncidentId>,
    d: Incident, d': Incident, root: Incident, root': Incident)
    requires Consistent(table) && Tabled(table, i) && i.target.kind == Service
    requires i.id !in visiting && deeper == visiting + {i.id}
    requires CalleesOf(outgoing, i.target.callee) == [d.target.callee, d'.target.callee]
    requires Downstream(table, i, d.target.callee) == Some(d) && Downstream(table, i, d'.target.callee) == Some(d')
    requires ResolveRoot(table, outgoing, d, deeper) == root && ResolveRoot(table, outgoing, d', deeper) == root'
    ensures ResolveRoot(table, outgoing, i, visiting) == MinByLabel([root, root'])
  {
    TabledIsListed(table, i);
    TwoCandidates(table, outgoing, i, deeper, d, d');
  }

  lemma TwoCandidates(table: Table, outgoing: Callees, i: Incident, visiting: set<IncidentId>, d: Incident, d': Incident)
    requires Consistent(table) && Tabled(table, i) && i.target.kind == Service
    requires Downstream(table, i, d.target.callee) == Some(d) && Downstream(table, i, d'.target.callee) == Some(d')
    ensures Candidates(table, outgoing, i, [d.target.callee, d'.target.callee], visiting)
         == [ResolveRoot(table, outgoing, d, visiting), ResolveRoot(table, outgoing, d', visiting)]
  {
    OneCandidateMore(table, outgoing, i, [], d, visiting);
    OneCandidateMore(table, outgoing, i, [d.target.callee], d', visiting);
  }

  lemma MinOfTwo(root: Incident, root': Incident)
    ensures MinByLabel([root, root'])
         == if StringLess(root'.target.Label(), root.target.Label()) then root' else root
  {
    assert [root, root'][..1] == [root];
  }

  lemma OneCandidateMore(table: Table, outgoing: Callees, i: Incident, callees: seq<string>, d: Incident, visiting: set<IncidentId>)
    requires Consistent(table) && Tabled(table, i) && i.target.kind == Service
    requires Downstream(table, i, d.target.callee) == Some(d)
    ensures Candidates(table, outgoing, i, callees + [d.target.callee], visiting)
         == Candidates(table, outgoing, i, callees, visiting) + [ResolveRoot(table, outgoing, d, visiting)]
  {
    assert (callees + [d.target.callee])[..|callees|] == callees;
  }

  const LOOPED: Topology := {("a", "c"), ("b", "a"), ("b", "b"), ("c", "a"), ("c", "b")}
  const LOOPED_CALLEES: Callees := map["a" := ["c"], "b" := ["a", "b"], "c" := ["a", "b"]]

  /**
    Three services that call each other in circles, one of them itself, with an incident on each:
    c is attributed to b while b is attributed to a.
   */
  lemma CyclicRootCauseCanBeDerived()
    ensures Lists(LOOPED_CALLEES, LOOPED)
    ensures var incidents := LoopedIncidents();
            var results := Outcome(incidents, LOOPED_CALLEES);
            Fresh(incidents) && results[2].rootCause == Some(incidents[1].id) && results[1].rootCause == Some(incidents[0].id)
  {
    var incidents := LoopedIncidents();
    LoopIsHeld();
    LoopedFromC(ByTarget(incidents));
    LoopedFromB(ByTarget(incidents));
    LoopIsListed();
    AttributedTo(incidents, LOOPED_CALLEES, 1, incidents[0]);
    AttributedTo(incidents, LOOPED_CALLEES, 2, incidents[1]);
  }

  lemma AttributedTo(incidents: seq<Incident>, outgoing: Callees, n: nat, root: Incident)
    requires Fresh(incidents) && n < |incidents| && incidents[n].target.kind == Service
    requires Tabled(ByTarget(incidents), incidents[n]) && root.id != incidents[n].id
    requires ResolveRoot(ByTarget(incidents), outgoing, incidents[n], {}) == root
    ensures Outcome(incidents, outgoing)[n].rootCause == Some(root.id)
  {
    TabledById(incidents, n);
    OutcomeIs(incidents, outgoing, n);
  }

  lemma LoopIsListed()
    ensures Lists(LOOPED_CALLEES, LOOPED)
  {
  }

  function LoopedIncidents(): seq<Incident> {
    [StuckIncident("a"), StuckIncident("b"), StuckIncident("c")]
  }

  lemma LoopIsHeld()
    ensures Fresh(LoopedIncidents()) && HoldsLoop(ByTarget(LoopedIncidents()))
  {
    var incidents := LoopedIncidents();
    assert forall n :: 0 <= n < |incidents| ==> incidents[n] == StuckIncident(["a", "b", "c"][n]);
    LastOfKeyIsTabled(incidents, 0);
    LastOfKeyIsTabled(incidents, 1);
    LastOfKeyIsTabled(incidents, 2);
  }

  ghost predicate HoldsLoop(table: Table) {
    && Consistent(table) && Tabled(table, StuckIncident("a")) && Tabled(table, StuckIncident("b"))
    && Tabled(table, StuckIncident("c"))
  }

  lemma LoopedFromA(table: Table, visiting: set<IncidentId>, deeper: set<IncidentId>)
    requires HoldsLoop(table) && StuckIncident("c").id in visiting && StuckIncident("a").id !in visiting
    requires deeper == visiting + {StuckIncident("a").id}
    ensures ResolveRoot(table, LOOPED_CALLEES, StuckIncident("a"), visiting) == StuckIncident("c")
  {
    ResolvesPastOne(table, LOOPED_CALLEES, StuckIncident("a"), visiting, deeper, StuckIncident("c"), StuckIncident("c"));
  }

  lemma LoopedFromC(table: Table)
    requires HoldsLoop(table)
    ensures ResolveRoot(table, LOOPED_CALLEES, StuckIncident("c"), {}) == StuckIncident("b")
  {
    var a, b, c := StuckIncident("a"), StuckIncident("b"), StuckIncident("c");
    LoopedFromA(table, {c.id}, {c.id, a.id});
    LoopedFromA(table, {c.id, b.id}, {c.id, b.id, a.id});
    MinOfTwo(c, b);
    ResolvesPastTwo(table, LOOPED_CALLEES, b, {c.id}, {c.id, b.id}, a, b, c, b);
    ResolvesPastTwo(table, LOOPED_CALLEES, c, {}, {c.id}, a, b, c, b);
  }

  lemma LoopedFromB(table: Table)
    requires HoldsLoop(table)
    ensures ResolveRoot(table, LOOPED_CALLEES, StuckIncident("b"), {}) == StuckIncident("a")
  {
    var a, b, c := StuckIncident("a"), StuckIncident("b"), StuckIncident("c");
    MinOfTwo(a, b);
    ResolvesPastTwo(table, LOOPED_CALLEES, c, {b.id, a.id}, {b.id, a.id, c.id}, a, b, a, b);
    ResolvesPastOne(table, LOOPED_CALLEES, a, {b.id}, {b.id, a.id}, c, a);
    ResolvesPastTwo(table, LOOPED_CALLEES, b, {}, {b.id}, a, b, a, b);
  }
}
