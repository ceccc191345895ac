/** `analyzer/suppression.py`: what `resolve_root` finds, on acyclic topologies and on others. */
module RootCauses {
  import opened Collections
  import opened Grouping
  import opened Suppression

  // ----- Any topology -----

  predicate UniqueLabels(cs: seq<Incident>) {
    forall c, d :: c in cs && d in cs && c.target.Label() == d.target.Label() ==> c == d
  }

  lemma SameMembersSameEmptiness<T>(a: seq<T>, b: seq<T>)
    requires forall x :: x in a <==> x in b
    ensures a == [] <==> b == []
  {
    if a != [] {
      assert a[0] in b;
    }
    if b != [] {
      assert b[0] in a;
    }
  }

  lemma MinIsDetermined(cs: seq<Incident>, ds: seq<Incident>)
    requires cs != [] && ds != [] && UniqueLabels(cs)
    requires forall c :: c in cs <==> c in ds
    ensures MinByLabel(cs) == MinByLabel(ds)
  {
    MinByLabelIs(cs);
    MinByLabelIs(ds);
    StringOrderIsStrict(MinByLabel(cs).target.Label(), MinByLabel(ds).target.Label(), []);
  }

  lemma CandidatesHaveUniqueLabels(table: Table, outgoing: Callees, i: Incident, callees: seq<string>, visiting: set<IncidentId>)
    requires Consistent(table) && Tabled(table, i) && i.target.kind == Service
    ensures UniqueLabels(Candidates(table, outgoing, i, callees, visiting))
  {
  }

  /** What resolving finds does not depend on the order in which a service's callees are tried. */
  lemma {:induction false} RootIgnoresOrder(
    table: Table, edges: Topology, outgoing: Callees, outgoing': Callees, i: Incident, visiting: set<IncidentId>)
    requires Consistent(table) && Tabled(table, i) && Lists(outgoing, edges) && Lists(outgoing', edges)
    ensures ResolveRoot(table, outgoing, i, visiting) == ResolveRoot(table, outgoing', i, visiting)
    decreases TableIds(table) - visiting
  {
    if i.target.kind == Service && i.id !in visiting {
      TabledIsListed(table, i);
      var deeper := visiting + {i.id};
      var callees, callees' := CalleesOf(outgoing, i.target.callee), CalleesOf(outgoing', i.target.callee);
      forall t | Downstream(table, i, t).Some?
        ensures ResolveRoot(table, outgoing, Downstream(table, i, t).value, deeper)
             == ResolveRoot(table, outgoing', Downstream(table, i, t).value, deeper)
      {
        RootIgnoresOrder(table, edges, outgoing, outgoing', Downstream(table, i, t).value, deeper);
      }
      var cs, cs' := Candidates(table, outgoing, i, callees, deeper), Candidates(table, outgoing', i, callees', deeper);
      assert forall t :: t in callees <==> t in callees' by {
        assert forall t :: t in callees <==> (i.target.callee, t) in edges;
      }
      forall c
        ensures c in cs <==> c in cs'
      {
        CandidatesAre(table, outgoing, i, callees, deeper, c);
        CandidatesAre(table, outgoing', i, callees', deeper, c);
      }
      SameMembersSameEmptiness(cs, cs');
      if cs != [] {
        CandidatesHaveUniqueLabels(table, outgoing, i, callees, deeper);
        MinIsDetermined(cs, cs');
      }
    }
  }

  /** The chosen candidate is what some linked incident resolves to. */
  lemma ChosenThroughLink(
    table: Table, edges: Topology, outgoing: Callees, i: Incident, visiting: set<IncidentId>)
    returns (next: Option<Incident>)
    requires Consistent(table) && Tabled(table, i) && Lists(outgoing, edges)
    requires i.target.kind == Service && i.id !in visiting
    ensures next.Some? ==>
              Link(table, edges, i, next.value) && ResolveRoot(table, outgoing, i, visiting) == ResolveRoot(table, outgoing, next.value, visiting + {i.id})
    ensures next.None? ==> Sink(table, edges, i) && ResolveRoot(table, outgoing, i, visiting) == i
  {
    var deeper := visiting + {i.id};
    var callees := CalleesOf(outgoing, i.target.callee);
    var cs := Candidates(table, outgoing, i, callees, deeper);
    TabledIsListed(table, i);
    if cs == [] {
      next := None;
      forall b
        ensures !Link(table, edges, i, b)
      {
        if Link(table, edges, i, b) {
          LinkIsDownstream(table, edges, outgoing, i, b);
          CandidatesAre(table, outgoing, i, callees, deeper, ResolveRoot(table, outgoing, b, deeper));
        }
      }
    } else {
      CandidatesAre(table, outgoing, i, callees, deeper, MinByLabel(cs));
      var t :| t in callees && Downstream(table, i, t).Some?
               && MinByLabel(cs) == ResolveRoot(table, outgoing, Downstream(table, i, t).value, deeper);
      DownstreamIsLink(table, edges, outgoing, i, t);
      next := Downstream(table, i, t);
    }
  }

  /** No label of a candidate comes before the root's. */
  lemma RootIsLeast(table: Table, edges: Topology, outgoing: Callees, i: Incident, visiting: set<IncidentId>, b: Incident)
    requires Consistent(table) && Tabled(table, i) && Lists(outgoing, edges)
    requires i.target.kind == Service && i.id !in visiting && Link(table, edges, i, b)
    ensures !Precedes(ResolveRoot(table, outgoing, b, visiting + {i.id}), ResolveRoot(table, outgoing, i, visiting))
  {
    var deeper := visiting + {i.id};
    var callees := CalleesOf(outgoing, i.target.callee);
    TabledIsListed(table, i);
    LinkIsDownstream(table, edges, outgoing, i, b);
    CandidatesAre(table, outgoing, i, callees, deeper, ResolveRoot(table, outgoing, b, deeper));
    MinByLabelIs(Candidates(table, outgoing, i, callees, deeper));
  }

  predicate Precedes(a: Incident, b: Incident) {
    StringLess(a.target.Label(), b.target.Label())
  }

  lemma LeastIsUnique(table: Table, a: Incident, b: Incident)
    requires Consistent(table) && Tabled(table, a) && Tabled(table, b) && a.detector == b.detector
    requires a.target.kind == b.target.kind && !Precedes(a, b) && !Precedes(b, a)
    ensures a == b
  {
    StringOrderIsStrict(a.target.Label(), b.target.Label(), []);
  }

  lemma NotBefore(a: Incident, b: Incident, c: Incident)
    requires !Precedes(a, b) && !Precedes(b, c)
    ensures !Precedes(a, c)
  {
    StringOrderIsStrict(a.target.Label(), c.target.Label(), b.target.Label());
    StringOrderIsStrict(a.target.Label(), b.target.Label(), c.target.Label());
    StringOrderIsStrict(c.target.Label(), b.target.Label(), a.target.Label());
    StringOrderIsStrict(b.target.Label(), c.target.Label(), a.target.Label());
    StringOrderIsStrict(b.target.Label(), a.target.Label(), c.target.Label());
  }

  lemma NotBeforeItself(c: Incident)
    ensures !Precedes(c, c)
  {
    StringOrderIsStrict(c.target.Label(), [], []);
  }

  /** On any topology the root is joined to the start by call edges whose neighbouring windows overlap. */
  lemma {:induction false} ResolvedIsLinked(
    table: Table, edges: Topology, outgoing: Callees, i: Incident, visiting: set<IncidentId>) returns (hops: nat)
    requires Consistent(table) && Tabled(table, i) && Lists(outgoing, edges)
    ensures Linked(table, edges, i, ResolveRoot(table, outgoing, i, visiting), hops)
    decreases TableIds(table) - visiting
  {
    hops := 0;
    if i.target.kind == Service && i.id !in visiting {
      TabledIsListed(table, i);
      var next := ChosenThroughLink(table, edges, outgoing, i, visiting);
      if next.Some? {
        var rest := ResolvedIsLinked(table, edges, outgoing, next.value, visiting + {i.id});
        hops := rest + 1;
      }
    }
  }

  // ----- Acyclic topologies -----

  ghost predicate Ranks(rank: map<string, nat>, edges: Topology) {
    forall s, t :: (s, t) in edges ==> s in rank && t in rank && rank[t] < rank[s]
  }

  /** No chain of calls returns to its start; in particular no service calls itself. */
  ghost predicate Acyclic(edges: Topology) {
    exists rank :: Ranks(rank, edges)
  }

  /** Everything being visited is further up than i. */
  ghost predicate Above(rank: map<string, nat>, i: Incident, visiting: set<IncidentId>) {
    forall id :: id in visiting ==> id.name in rank && i.target.callee in rank && rank[id.name] > rank[i.target.callee]
  }

  ghost function RankOf(rank: map<string, nat>, i: Incident): nat {
    if i.target.callee in rank then rank[i.target.callee] else 0
  }

  lemma AboveNext(table: Table, edges: Topology, rank: map<string, nat>, i: Incident, b: Incident, visiting: set<IncidentId>)
    requires Ranks(rank, edges) && Consistent(table) && Tabled(table, i) && Above(rank, i, visiting) && Link(table, edges, i, b)
    ensures Above(rank, b, visiting + {i.id}) && RankOf(rank, b) < RankOf(rank, i)
  {
  }

  lemma {:induction false} AcyclicResolvesToSink(
    table: Table, edges: Topology, outgoing: Callees, rank: map<string, nat>, i: Incident, visiting: set<IncidentId>)
    requires Ranks(rank, edges) && Consistent(table) && Tabled(table, i) && Lists(outgoing, edges)
    requires i.target.kind == Service && Above(rank, i, visiting)
    ensures Sink(table, edges, ResolveRoot(table, outgoing, i, visiting))
    ensures ResolveRoot(table, outgoing, i, visiting) == i <==> Sink(table, edges, i)
    decreases RankOf(rank, i)
  {
    var next := ChosenThroughLink(table, edges, outgoing, i, visiting);
    if next.Some? {
      AboveNext(table, edges, rank, i, next.value, visiting);
      AcyclicResolvesToSink(table, edges, outgoing, rank, next.value, visiting + {i.id});
    }
  }

  predicate SameRoot(table: Table, outgoing: Callees, i: Incident, t: string, visiting: set<IncidentId>, visiting': set<IncidentId>)
    requires Consistent(table) && Tabled(table, i) && Downstream(table, i, t).Some?
  {
    ResolveRoot(table, outgoing, Downstream(table, i, t).value, visiting)
    == ResolveRoot(table, outgoing, Downstream(table, i, t).value, visiting')
  }

  lemma {:induction false} CandidatesIgnoreVisiting(
    table: Table, outgoing: Callees, i: Incident, callees: seq<string>, visiting: set<IncidentId>, visiting': set<IncidentId>)
    requires Consistent(table) && Tabled(table, i) && i.target.kind == Service
    requires forall t | t in callees && Downstream(table, i, t).Some? :: SameRoot(table, outgoing, i, t, visiting, visiting')
    ensures Candidates(table, outgoing, i, callees, visiting) == Candidates(table, outgoing, i, callees, visiting')
  {
    if callees == [] {
    } else {
      SplitLast(callees);
      CandidatesIgnoreVisiting(table, outgoing, i, callees[..|callees| - 1], visiting, visiting');
    }
  }

  /** Of all the sinks that i's links lead to, the root is the first by label. */
  lemma {:induction false} AcyclicRootIsFirst(
    table: Table, edges: Topology, outgoing: Callees, rank: map<string, nat>, i: Incident, visiting: set<IncidentId>,
    s: Incident, hops: nat)
    requires Ranks(rank, edges) && Consistent(table) && Tabled(table, i) && Lists(outgoing, edges)
    requires i.target.kind == Service && Above(rank, i, visiting)
    requires Linked(table, edges, i, s, hops) && Sink(table, edges, s)
    ensures !Precedes(s, ResolveRoot(table, outgoing, i, visiting))
    decreases hops
  {
    if hops == 0 {
      AcyclicResolvesToSink(table, edges, outgoing, rank, i, visiting);
      NotBeforeItself(s);
    } else {
      var c :| Link(table, edges, i, c) && Linked(table, edges, c, s, hops - 1);
      AboveNext(table, edges, rank, i, c, visiting);
      AcyclicRootIsFirst(table, edges, outgoing, rank, c, visiting + {i.id}, s, hops - 1);
      NotBeforeThroughLink(table, edges, outgoing, i, visiting, c, s);
    }
  }

  lemma NotBeforeThroughLink(
    table: Table, edges: Topology, outgoing: Callees, i: Incident, visiting: set<IncidentId>, c: Incident, s: Incident)
    requires Consistent(table) && Tabled(table, i) && Lists(outgoing, edges)
    requires i.target.kind == Service && i.id !in visiting && Link(table, edges, i, c)
    requires !Precedes(s, ResolveRoot(table, outgoing, c, visiting + {i.id}))
    ensures !Precedes(s, ResolveRoot(table, outgoing, i, visiting))
  {
    RootIsLeast(table, edges, outgoing, i, visiting, c);
    NotBefore(s, ResolveRoot(table, outgoing, c, visiting + {i.id}), ResolveRoot(table, outgoing, i, visiting));
  }

  // ----- Exactly the acyclic topologies -----

  /** However incidents fall and edges are enumerated, every service incident resolves to the end of its links. */
  ghost predicate AlwaysResolvesToSinks(edges: Topology) {
    forall table: Table, outgoing: Callees, i: Incident ::
      Consistent(table) && Tabled(table, i) && i.target.kind == Service && Lists(outgoing, edges) ==>
        Sink(table, edges, ResolveRoot(table, outgoing, i, {}))
  }

  /** A set of services each of which calls into the set again. */
  ghost predicate Recurrent(edges: Topology, services: set<string>) {
    services != {} && forall s {:trigger CallsInto(edges, services, s)} :: s in services ==> CallsInto(edges, services, s)
  }

  ghost predicate CallsInto(edges: Topology, services: set<string>, s: string) {
    exists t :: t in services && (s, t) in edges
  }

  ghost predicate RanksWithin(rank: map<string, nat>, edges: Topology, services: set<string>) {
    && rank.Keys == services
    && forall s, t :: (s, t) in edges && s in services && t in services ==> rank[t] < rank[s]
  }

  lemma {:induction false} RankOrRecurrent(edges: Topology, services: set<string>)
    ensures (exists rank :: RanksWithin(rank, edges, services)) || (exists u :: Recurrent(edges, u))
  {
    if services == {} {
      assert RanksWithin(map[], edges, services);
    } else if !Recurrent(edges, services) {
      var s :| s in services && !CallsInto(edges, services, s);
      RankOrRecurrent(edges, services - {s});
      if rank :| RanksWithin(rank, edges, services - {s}) {
        var rank' := (map x | x in services :: if x == s then 0 else rank[x] + 1);
        assert RanksWithin(rank', edges, services);
      }
    }
  }

  lemma {:induction false} EdgesCanBeListed(edges: Topology) returns (outgoing: Callees)
    ensures Lists(outgoing, edges)
  {
    if edges == {} {
      outgoing := map[];
    } else {
      var e :| e in edges;
      var before := EdgesCanBeListed(edges - {e});
      outgoing := before[e.0 := CalleesOf(before, e.0) + [e.1]];
      assert forall s, t :: (s, t) in edges <==> (s, t) in edges - {e} || (s == e.0 && t == e.1);
    }
  }

  function StuckIncident(service: string): Incident {
    Incident(IncidentId(Service, service, "", 0), TargetKey(Service, "", service), "", 0, 0, 1, Warning, 0.0, false, None)
  }

  function StuckTable(services: set<string>): (table: Table)
    ensures Consistent(table)
    ensures forall i :: Tabled(table, i) ==> i.target.callee in services && i == StuckIncident(i.target.callee)
    ensures forall s :: s in services ==> Tabled(table, StuckIncident(s))
  {
    var keys := set s | s in services :: (Service, s, "");
    var table: Table := map k: Key | k in keys :: StuckIncident(k.1);
    table
  }

  lemma StuckIncidentsLink(edges: Topology, services: set<string>, i: Incident)
    requires Recurrent(edges, services) && Tabled(StuckTable(services), i)
    ensures !Sink(StuckTable(services), edges, i)
  {
    assert CallsInto(edges, services, i.target.callee);
    var t :| t in services && (i.target.callee, t) in edges;
    assert Link(StuckTable(services), edges, i, StuckIncident(t));
  }

  /** One simultaneous incident on every service of a recurrent set: nothing there is the end of its links. */
  lemma RecurrentHasNoSinks(edges: Topology, services: set<string>)
    requires Recurrent(edges, services)
    ensures !AlwaysResolvesToSinks(edges)
  {
    var s :| s in services;
    var table, i := StuckTable(services), StuckIncident(s);
    var outgoing := EdgesCanBeListed(edges);
    StuckIncidentsLink(edges, services, ResolveRoot(table, outgoing, i, {}));
  }

  ghost function Services(edges: Topology): set<string> {
    (set e | e in edges :: e.0) + (set e | e in edges :: e.1)
  }

  /** Resolving always ends at a sink for exactly the acyclic topologies. */
  lemma ResolvesToSinksIffAcyclic(edges: Topology)
    ensures AlwaysResolvesToSinks(edges) <==> Acyclic(edges)
  {
    if Acyclic(edges) {
      var rank :| Ranks(rank, edges);
      forall table: Table, outgoing: Callees, i: Incident |
        Consistent(table) && Tabled(table, i) && i.target.kind == Service && Lists(outgoing, edges)
        ensures Sink(table, edges, ResolveRoot(table, outgoing, i, {}))
      {
        AcyclicResolvesToSink(table, edges, outgoing, rank, i, {});
      }
    } else {
      RankOrRecurrent(edges, Services(edges));
      if rank :| RanksWithin(rank, edges, Services(edges)) {
        forall s, t | (s, t) in edges
          ensures s in rank && t in rank && rank[t] < rank[s]
        {
          assert (s, t).0 in Services(edges) && (s, t).1 in Services(edges);
        }
        assert Ranks(rank, edges);
      }
      var u :| Recurrent(edges, u);
      RecurrentHasNoSinks(edges, u);
    }
  }
}
