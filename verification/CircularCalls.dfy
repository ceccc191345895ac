/**
  `analyzer/suppression.py`: what `resolve_root` finds where services call each other in circles, as
  long as the circles have no service in common.
 */
module CircularCalls {
  import opened Collections
  import opened Grouping
  import opened Suppression
  import opened RootCauses

  // ----- Simple cycles -----

  /** Calls never go up in rank; inside a rank they may run either way. */
  ghost predicate WeaklyRanks(rank: map<string, nat>, edges: Topology) {
    forall s, t :: (s, t) in edges ==> s in rank && t in rank && rank[t] <= rank[s]
  }

  ghost predicate CallsAlongside(rank: map<string, nat>, edges: Topology, s: string, t: string) {
    (s, t) in edges && s != t && s in rank && t in rank && rank[s] == rank[t]
  }

  /** No service calls two others of its own rank. */
  ghost predicate OneAlongside(rank: map<string, nat>, edges: Topology) {
    forall s, t, u :: CallsAlongside(rank, edges, s, t) && CallsAlongside(rank, edges, s, u) ==> t == u
  }

  /**
    No service calls two others that can call it back: apart from self-calls, cycles are circles
    that have no service in common.
   */
  ghost predicate CyclesAreSimple(edges: Topology) {
    exists rank :: WeaklyRanks(rank, edges) && OneAlongside(rank, edges)
  }

  lemma AcyclicCyclesAreSimple(edges: Topology)
    requires Acyclic(edges)
    ensures CyclesAreSimple(edges)
  {
    var rank :| Ranks(rank, edges);
    assert WeaklyRanks(rank, edges);
  }

  /** No rank is shared by more than two services. */
  ghost predicate PairsOnly(rank: map<string, nat>) {
    forall s, t, u :: s in rank && t in rank && u in rank && rank[s] == rank[t] == rank[u] ==> s == t || s == u || t == u
  }

  /** Whatever chain of calls returns to its start stays with one service, or goes back and forth between two. */
  ghost predicate CyclesAreShort(edges: Topology) {
    exists rank :: WeaklyRanks(rank, edges) && PairsOnly(rank)
  }

  lemma ShortCyclesAreSimple(edges: Topology)
    requires CyclesAreShort(edges)
    ensures CyclesAreSimple(edges)
  {
    var rank :| WeaklyRanks(rank, edges) && PairsOnly(rank);
    assert OneAlongside(rank, edges);
  }

  /** The same incidents at or below a rank are being visited. */
  ghost predicate AgreeUpTo(rank: map<string, nat>, r: nat, visiting: set<IncidentId>, visiting': set<IncidentId>) {
    forall id: IncidentId :: id.name in rank && rank[id.name] <= r ==> (id in visiting <==> id in visiting')
  }

  ghost predicate AgreeBelow(rank: map<string, nat>, i: Incident, visiting: set<IncidentId>, visiting': set<IncidentId>) {
    i.target.callee in rank ==> AgreeUpTo(rank, rank[i.target.callee], visiting, visiting')
  }

  /** Of what is being visited, only the part at or below an incident's own rank can change its root. */
  lemma {:induction false} OnlyVisitedBelowMatters(
    table: Table, edges: Topology, outgoing: Callees, rank: map<string, nat>,
    i: Incident, visiting: set<IncidentId>, visiting': set<IncidentId>)
    requires WeaklyRanks(rank, edges) && Consistent(table) && Tabled(table, i) && Lists(outgoing, edges)
    requires i.target.kind == Service && AgreeBelow(rank, i, visiting, visiting')
    ensures ResolveRoot(table, outgoing, i, visiting) == ResolveRoot(table, outgoing, i, visiting')
    decreases TableIds(table) - visiting
  {
    if i.target.callee !in rank {
      Uncalling(table, edges, outgoing, rank, i, visiting);
      Uncalling(table, edges, outgoing, rank, i, visiting');
    } else if i.id !in visiting {
      var deeper, deeper' := visiting + {i.id}, visiting' + {i.id};
      var callees := CalleesOf(outgoing, i.target.callee);
      TabledIsListed(table, i);
      forall t | t in callees && Downstream(table, i, t).Some?
        ensures SameRoot(table, outgoing, i, t, deeper, deeper')
      {
        DownstreamIsLink(table, edges, outgoing, i, t);
        OnlyVisitedBelowMatters(table, edges, outgoing, rank, Downstream(table, i, t).value, deeper, deeper');
      }
      CandidatesIgnoreVisiting(table, outgoing, i, callees, deeper, deeper');
    }
  }

  lemma Uncalling(
    table: Table, edges: Topology, outgoing: Callees, rank: map<string, nat>, i: Incident, visiting: set<IncidentId>)
    requires WeaklyRanks(rank, edges) && Consistent(table) && Tabled(table, i) && Lists(outgoing, edges)
    requires i.target.kind == Service && i.target.callee !in rank
    ensures ResolveRoot(table, outgoing, i, visiting) == i
  {
    if i.id !in visiting {
      var next := ChosenThroughLink(table, edges, outgoing, i, visiting);
    }
  }

  /** What the lemmas about simple cycles have in common. */
  ghost predicate SimpleCycles(table: Table, edges: Topology, outgoing: Callees, rank: map<string, nat>) {
    WeaklyRanks(rank, edges) && OneAlongside(rank, edges) && Consistent(table) && Lists(outgoing, edges)
  }

  ghost predicate Lower(rank: map<string, nat>, a: Incident, b: Incident) {
    a.target.callee in rank && b.target.callee in rank && rank[a.target.callee] < rank[b.target.callee]
  }

  /** A link to another service of the same rank. */
  ghost predicate Alongside(table: Table, edges: Topology, rank: map<string, nat>, a: Incident, b: Incident) {
    Link(table, edges, a, b) && CallsAlongside(rank, edges, a.target.callee, b.target.callee)
  }

  lemma LinkLeads(table: Table, edges: Topology, outgoing: Callees, rank: map<string, nat>, a: Incident, b: Incident)
    requires SimpleCycles(table, edges, outgoing, rank) && Tabled(table, a) && Link(table, edges, a, b)
    ensures Lower(rank, b, a) || b == a || Alongside(table, edges, rank, a, b)
  {
  }

  lemma AlongsideIsUnique(
    table: Table, edges: Topology, outgoing: Callees, rank: map<string, nat>, a: Incident, b: Incident, c: Incident)
    requires SimpleCycles(table, edges, outgoing, rank)
    requires Alongside(table, edges, rank, a, b) && Alongside(table, edges, rank, a, c)
    ensures b == c
  {
    assert KeyOfIncident(b) == KeyOfIncident(c);
  }

  /** A walk along links inside one rank, never twice to the same incident. */
  ghost predicate Walk(table: Table, edges: Topology, rank: map<string, nat>, p: seq<Incident>) {
    && p != [] && Distinct(p)
    && (forall k :: 0 <= k < |p| ==> Tabled(table, p[k]) && p[k].target.kind == Service)
    && (forall k :: 0 <= k < |p| - 1 ==> Alongside(table, edges, rank, p[k], p[k + 1]))
  }

  /** It cannot go on: what is left is a link back, or none. */
  ghost predicate Finished(table: Table, edges: Topology, rank: map<string, nat>, p: seq<Incident>)
    requires p != []
  {
    forall m :: Alongside(table, edges, rank, Last(p), m) ==> m in p
  }

  ghost function Ids(p: seq<Incident>): set<IncidentId> {
    set i | i in p :: i.id
  }

  /** All of a walk has one detector and one rank. */
  lemma {:induction false} WalkIsLevel(table: Table, edges: Topology, rank: map<string, nat>, p: seq<Incident>, k: nat)
    requires Walk(table, edges, rank, p) && k < |p|
    ensures p[k].detector == p[0].detector
    ensures |p| > 1 ==> p[0].target.callee in rank && p[k].target.callee in rank && rank[p[k].target.callee] == rank[p[0].target.callee]
    decreases k
  {
    if k == 0 {
      assert |p| > 1 ==> Alongside(table, edges, rank, p[0], p[1]);
    } else {
      WalkIsLevel(table, edges, rank, p, k - 1);
      assert Alongside(table, edges, rank, p[k - 1], p[k]);
    }
  }

  /** Different incidents of a walk have different ids. */
  lemma WalkIdsAreDistinct(table: Table, edges: Topology, rank: map<string, nat>, p: seq<Incident>, k: nat, l: nat)
    requires Consistent(table) && Walk(table, edges, rank, p) && k < l < |p|
    ensures p[k].id != p[l].id
  {
    WalkIsLevel(table, edges, rank, p, k);
    WalkIsLevel(table, edges, rank, p, l);
    assert KeyOfIncident(p[k]) in table && KeyOfIncident(p[l]) in table;
  }

  lemma WalkOneMore(table: Table, edges: Topology, rank: map<string, nat>, p: seq<Incident>, m: Incident)
    requires Walk(table, edges, rank, p) && Alongside(table, edges, rank, Last(p), m) && m !in p
    ensures Walk(table, edges, rank, p + [m])
  {
    var q := p + [m];
    forall k | 0 <= k < |q| - 1
      ensures Alongside(table, edges, rank, q[k], q[k + 1])
    {
      assert q[k] == p[k];
      assert k + 1 < |p| ==> Alongside(table, edges, rank, p[k], p[k + 1]);
    }
  }

  ghost function Members(table: Table): set<Incident> {
    set k | k in table :: table[k]
  }

  lemma {:induction false} FinishedWalk(table: Table, edges: Topology, rank: map<string, nat>, p: seq<Incident>) returns (q: seq<Incident>)
    requires Walk(table, edges, rank, p)
    ensures Walk(table, edges, rank, q) && Finished(table, edges, rank, q) && q[0] == p[0]
    decreases Members(table) - Elements(p)
  {
    if m :| Alongside(table, edges, rank, Last(p), m) && m !in p {
      WalkOneMore(table, edges, rank, p, m);
      assert KeyOfIncident(m) in table && m in Members(table);
      assert Elements(p + [m]) == Elements(p) + {m};
      q := FinishedWalk(table, edges, rank, p + [m]);
    } else {
      q := p;
    }
  }

  /** What an incident of a walk can resolve to by itself: a root further down, or itself by a self-call. */
  ghost predicate Own(table: Table, edges: Topology, outgoing: Callees, rank: map<string, nat>, m: Incident, c: Incident)
    requires Consistent(table)
  {
    || (c == m && Link(table, edges, m, m))
    || exists b :: Link(table, edges, m, b) && Tabled(table, b) && Lower(rank, b, m) && c == ResolveRoot(table, outgoing, b, {})
  }

  ghost predicate OwnSince(
    table: Table, edges: Topology, outgoing: Callees, rank: map<string, nat>, p: seq<Incident>, t: nat, c: Incident)
    requires Consistent(table)
  {
    exists k :: t <= k < |p| && Own(table, edges, outgoing, rank, p[k], c)
  }

  /** What resolving can come to from the t-th incident of a finished walk on. */
  ghost predicate Pool(
    table: Table, edges: Topology, outgoing: Callees, rank: map<string, nat>, p: seq<Incident>, t: nat, c: Incident)
    requires Consistent(table) && p != []
  {
    || OwnSince(table, edges, outgoing, rank, p, t, c)
    || Alongside(table, edges, rank, Last(p), c)
    || (c == Last(p) && Sink(table, edges, c))
  }

  ghost predicate Best(
    table: Table, edges: Topology, outgoing: Callees, rank: map<string, nat>, p: seq<Incident>, t: nat, x: Incident)
    requires Consistent(table) && p != []
  {
    Pool(table, edges, outgoing, rank, p, t, x) && forall c :: Pool(table, edges, outgoing, rank, p, t, c) ==> !Precedes(c, x)
  }

  /** Visiting incidents of higher rank does not change what a lower incident resolves to. */
  lemma LowerIgnoresWalk(
    table: Table, edges: Topology, outgoing: Callees, rank: map<string, nat>, p: seq<Incident>, t: nat, b: Incident)
    requires SimpleCycles(table, edges, outgoing, rank) && Walk(table, edges, rank, p) && t < |p|
    requires Tabled(table, b) && b.target.kind == Service && Lower(rank, b, p[t])
    ensures ResolveRoot(table, outgoing, b, Ids(p[..t + 1])) == ResolveRoot(table, outgoing, b, {})
  {
    forall id | id in Ids(p[..t + 1])
      ensures id.name in rank && rank[id.name] > rank[b.target.callee]
    {
      var k :| 0 <= k <= t && p[k].id == id;
      WalkIsLevel(table, edges, rank, p, k);
      WalkIsLevel(table, edges, rank, p, t);
      assert KeyOfIncident(p[k]) in table;
    }
    OnlyVisitedBelowMatters(table, edges, outgoing, rank, b, Ids(p[..t + 1]), {});
  }

  lemma VisitedOneMore(p: seq<Incident>, t: nat)
    requires t < |p|
    ensures Ids(p[..t + 1]) == Ids(p[..t]) + {p[t].id}
  {
    assert p[..t + 1] == p[..t] + [p[t]];
  }

  lemma NotYetVisited(table: Table, edges: Topology, rank: map<string, nat>, p: seq<Incident>, t: nat)
    requires Consistent(table) && Walk(table, edges, rank, p) && t < |p|
    ensures p[t].id !in Ids(p[..t])
  {
    forall k | 0 <= k < t
      ensures p[k].id != p[t].id
    {
      WalkIdsAreDistinct(table, edges, rank, p, k, t);
    }
  }

  /** What p[t] gets through one of its links. */
  ghost function Through(table: Table, outgoing: Callees, p: seq<Incident>, t: nat, b: Incident): Incident
    requires Consistent(table) && Tabled(table, b) && t < |p|
  {
    ResolveRoot(table, outgoing, b, Ids(p[..t + 1]))
  }

  /** Each link of p[t] leads into its pool, as long as the rest of the walk resolves as it should. */
  lemma LinkLeadsIntoPool(
    table: Table, edges: Topology, outgoing: Callees, rank: map<string, nat>, p: seq<Incident>, t: nat, b: Incident)
    requires SimpleCycles(table, edges, outgoing, rank) && Walk(table, edges, rank, p) && Finished(table, edges, rank, p)
    requires t < |p| && Link(table, edges, p[t], b)
    requires t < |p| - 1 ==> Best(table, edges, outgoing, rank, p, t + 1, Through(table, outgoing, p, t, p[t + 1]))
    ensures Pool(table, edges, outgoing, rank, p, t, Through(table, outgoing, p, t, b))
  {
    LinkLeads(table, edges, outgoing, rank, p[t], b);
    VisitedOneMore(p, t);
    if Lower(rank, b, p[t]) {
      LowerIgnoresWalk(table, edges, outgoing, rank, p, t, b);
      assert Own(table, edges, outgoing, rank, p[t], Through(table, outgoing, p, t, b));
    } else if b == p[t] {
      assert Own(table, edges, outgoing, rank, p[t], b);
    } else if t < |p| - 1 {
      assert Alongside(table, edges, rank, p[t], p[t + 1]);
      AlongsideIsUnique(table, edges, outgoing, rank, p[t], b, p[t + 1]);
    } else {
      assert b in p;
      assert p[..t + 1] == p;
    }
  }

  lemma OwnComesThroughLink(
    table: Table, edges: Topology, outgoing: Callees, rank: map<string, nat>, p: seq<Incident>, t: nat, c: Incident)
    returns (b: Incident)
    requires SimpleCycles(table, edges, outgoing, rank) && Walk(table, edges, rank, p) && t < |p|
    requires Own(table, edges, outgoing, rank, p[t], c)
    ensures Link(table, edges, p[t], b) && c == Through(table, outgoing, p, t, b)
  {
    VisitedOneMore(p, t);
    if c == p[t] && Link(table, edges, c, c) {
      b := c;
    } else {
      b :| Link(table, edges, p[t], b) && Tabled(table, b) && Lower(rank, b, p[t]) && c == ResolveRoot(table, outgoing, b, {});
      LowerIgnoresWalk(table, edges, outgoing, rank, p, t, b);
    }
  }

  /** The end of the walk leads back to where it has been. */
  lemma EndComesThroughLink(
    table: Table, edges: Topology, outgoing: Callees, rank: map<string, nat>, p: seq<Incident>, t: nat, c: Incident)
    requires SimpleCycles(table, edges, outgoing, rank) && Walk(table, edges, rank, p) && Finished(table, edges, rank, p)
    requires t + 1 == |p| && Alongside(table, edges, rank, p[t], c)
    ensures c == Through(table, outgoing, p, t, c)
  {
    assert c in p && p[..t + 1] == p;
  }

  lemma PoolSplits(
    table: Table, edges: Topology, outgoing: Callees, rank: map<string, nat>, p: seq<Incident>, t: nat, c: Incident)
    requires Consistent(table) && t < |p| - 1 && Pool(table, edges, outgoing, rank, p, t, c)
    ensures Own(table, edges, outgoing, rank, p[t], c) || Pool(table, edges, outgoing, rank, p, t + 1, c)
  {
    if OwnSince(table, edges, outgoing, rank, p, t, c) {
      var k :| t <= k < |p| && Own(table, edges, outgoing, rank, p[k], c);
      assert k == t || OwnSince(table, edges, outgoing, rank, p, t + 1, c);
    }
  }

  /** And nothing in the pool comes before all that the links give. */
  lemma PoolComesThroughLinks(
    table: Table, edges: Topology, outgoing: Callees, rank: map<string, nat>, p: seq<Incident>, t: nat, c: Incident)
    returns (b: Option<Incident>)
    requires SimpleCycles(table, edges, outgoing, rank) && Walk(table, edges, rank, p) && Finished(table, edges, rank, p)
    requires t < |p| && Pool(table, edges, outgoing, rank, p, t, c)
    requires t < |p| - 1 ==> Best(table, edges, outgoing, rank, p, t + 1, Through(table, outgoing, p, t, p[t + 1]))
    ensures b.Some? ==> Link(table, edges, p[t], b.value) && !Precedes(c, Through(table, outgoing, p, t, b.value))
    ensures b.None? ==> c == p[t] && Sink(table, edges, c)
  {
    NotBeforeItself(c);
    if Own(table, edges, outgoing, rank, p[t], c) {
      var d := OwnComesThroughLink(table, edges, outgoing, rank, p, t, c);
      b := Some(d);
    } else if t < |p| - 1 {
      assert Alongside(table, edges, rank, p[t], p[t + 1]);
      PoolSplits(table, edges, outgoing, rank, p, t, c);
      b := Some(p[t + 1]);
    } else if Alongside(table, edges, rank, p[t], c) {
      EndComesThroughLink(table, edges, outgoing, rank, p, t, c);
      b := Some(c);
    } else {
      b := None;
    }
  }

  /** Along a finished walk, each incident resolves to the best of its pool. */
  lemma {:induction false} WalkResolves(
    table: Table, edges: Topology, outgoing: Callees, rank: map<string, nat>, p: seq<Incident>, t: nat)
    requires SimpleCycles(table, edges, outgoing, rank) && Walk(table, edges, rank, p) && Finished(table, edges, rank, p)
    requires t < |p|
    ensures Best(table, edges, outgoing, rank, p, t, ResolveRoot(table, outgoing, p[t], Ids(p[..t])))
    decreases |p| - t
  {
    if t < |p| - 1 {
      WalkResolves(table, edges, outgoing, rank, p, t + 1);
      assert Alongside(table, edges, rank, p[t], p[t + 1]);
    }
    var x := ResolveRoot(table, outgoing, p[t], Ids(p[..t]));
    VisitedOneMore(p, t);
    NotYetVisited(table, edges, rank, p, t);
    var next := ChosenThroughLink(table, edges, outgoing, p[t], Ids(p[..t]));
    if next.Some? {
      LinkLeadsIntoPool(table, edges, outgoing, rank, p, t, next.value);
    }
    forall c | Pool(table, edges, outgoing, rank, p, t, c)
      ensures !Precedes(c, x)
    {
      var b := PoolComesThroughLinks(table, edges, outgoing, rank, p, t, c);
      if b.Some? {
        RootIsLeast(table, edges, outgoing, p[t], Ids(p[..t]), b.value);
        NotBefore(c, Through(table, outgoing, p, t, b.value), x);
      } else {
        StringOrderIsStrict(c.target.Label(), [], []);
      }
    }
  }

  // ----- Roots resolve to themselves -----

  predicate Settled(table: Table, outgoing: Callees, x: Incident)
    requires Consistent(table) && Tabled(table, x)
  {
    ResolveRoot(table, outgoing, x, {}) == x
  }

  lemma SinkIsSettled(table: Table, edges: Topology, outgoing: Callees, i: Incident)
    requires Consistent(table) && Tabled(table, i) && Lists(outgoing, edges) && i.target.kind == Service && Sink(table, edges, i)
    ensures Settled(table, outgoing, i)
  {
    var next := ChosenThroughLink(table, edges, outgoing, i, {});
  }

  /** The walk from its t-th incident on: onwards, and round again if the end leads back before it. */
  ghost function From(p: seq<Incident>, t: nat, back: nat): seq<Incident>
    requires back <= t < |p|
  {
    p[t..] + p[back..t]
  }

  lemma WalkFrom(table: Table, edges: Topology, rank: map<string, nat>, p: seq<Incident>, t: nat, back: nat)
    requires Walk(table, edges, rank, p) && back <= t < |p| && (back < t ==> Alongside(table, edges, rank, Last(p), p[back]))
    ensures Walk(table, edges, rank, From(p, t, back)) && From(p, t, back)[0] == p[t]
  {
    var q := From(p, t, back);
    var n := |p| - t;
    forall k | 0 <= k < |q| - 1
      ensures Alongside(table, edges, rank, q[k], q[k + 1])
    {
      if k < n - 1 {
        assert Alongside(table, edges, rank, p[t + k], p[t + k + 1]);
      } else if k >= n {
        assert Alongside(table, edges, rank, p[back + k - n], p[back + k - n + 1]);
      }
    }
  }

  lemma EndOfFrom(table: Table, edges: Topology, rank: map<string, nat>, p: seq<Incident>, t: nat, back: nat)
    requires Walk(table, edges, rank, p) && back <= t < |p|
    ensures Last(From(p, t, back)) == if back < t then p[t - 1] else Last(p)
    ensures back < t ==> Alongside(table, edges, rank, p[t - 1], p[t])
  {
    if back < t {
      assert Alongside(table, edges, rank, p[t - 1], p[t]);
    } else {
      assert From(p, t, back) == p[t..];
    }
  }

  lemma FinishedFrom(
    table: Table, edges: Topology, outgoing: Callees, rank: map<string, nat>, p: seq<Incident>, t: nat, back: nat)
    requires SimpleCycles(table, edges, outgoing, rank) && Walk(table, edges, rank, p) && Finished(table, edges, rank, p)
    requires back <= t < |p|
    requires back == t ==> forall k :: 0 <= k < t ==> !Alongside(table, edges, rank, Last(p), p[k])
    ensures Finished(table, edges, rank, From(p, t, back))
  {
    var q := From(p, t, back);
    EndOfFrom(table, edges, rank, p, t, back);
    forall m | Alongside(table, edges, rank, Last(q), m)
      ensures m in q
    {
      if back < t {
        AlongsideIsUnique(table, edges, outgoing, rank, p[t - 1], m, p[t]);
        assert q[0] == p[t];
      } else {
        var k :| 0 <= k < |p| && p[k] == m;
        assert q[k - t] == m;
      }
    }
  }

  lemma OwnFrom(
    table: Table, edges: Topology, outgoing: Callees, rank: map<string, nat>, p: seq<Incident>, t: nat, back: nat, c: Incident)
    requires Consistent(table) && back <= t < |p| && OwnSince(table, edges, outgoing, rank, From(p, t, back), 0, c)
    ensures OwnSince(table, edges, outgoing, rank, p, 0, c)
  {
    var q := From(p, t, back);
    var k :| 0 <= k < |q| && Own(table, edges, outgoing, rank, q[k], c);
    var l := if k < |p| - t then t + k else back + k - (|p| - t);
    assert p[l] == q[k];
  }

  /** Its pool is part of the whole walk's, if p[t] itself is. */
  lemma PoolFrom(
    table: Table, edges: Topology, outgoing: Callees, rank: map<string, nat>, p: seq<Incident>, t: nat, back: nat, c: Incident)
    requires SimpleCycles(table, edges, outgoing, rank) && Walk(table, edges, rank, p)
    requires back <= t < |p| && Pool(table, edges, outgoing, rank, p, 0, p[t])
    requires Pool(table, edges, outgoing, rank, From(p, t, back), 0, c)
    ensures Pool(table, edges, outgoing, rank, p, 0, c)
  {
    EndOfFrom(table, edges, rank, p, t, back);
    if OwnSince(table, edges, outgoing, rank, From(p, t, back), 0, c) {
      OwnFrom(table, edges, outgoing, rank, p, t, back, c);
    } else if back < t && Alongside(table, edges, rank, p[t - 1], c) {
      AlongsideIsUnique(table, edges, outgoing, rank, p[t - 1], p[t], c);
    }
  }

  lemma OwnRootIsInPool(
    table: Table, edges: Topology, outgoing: Callees, rank: map<string, nat>, p: seq<Incident>, t: nat, back: nat)
    requires Consistent(table) && Walk(table, edges, rank, p) && back <= t < |p|
    requires Link(table, edges, p[t], p[t]) || Alongside(table, edges, rank, Last(p), p[t])
    ensures Pool(table, edges, outgoing, rank, From(p, t, back), 0, p[t])
  {
    var q := From(p, t, back);
    EndOfFrom(table, edges, rank, p, t, back);
    if Link(table, edges, p[t], p[t]) {
      assert Own(table, edges, outgoing, rank, q[0], p[t]);
    }
  }

  /** A root on the walk itself keeps to itself: starting there, the pool is no larger. */
  lemma RootOnWalkIsSettled(table: Table, edges: Topology, outgoing: Callees, rank: map<string, nat>, p: seq<Incident>, t: nat)
    requires SimpleCycles(table, edges, outgoing, rank) && Walk(table, edges, rank, p) && Finished(table, edges, rank, p)
    requires t < |p| && Best(table, edges, outgoing, rank, p, 0, p[t])
    requires Link(table, edges, p[t], p[t]) || Alongside(table, edges, rank, Last(p), p[t])
    ensures Settled(table, outgoing, p[t])
  {
    var back := t;
    if k :| 0 <= k < t && Alongside(table, edges, rank, Last(p), p[k]) {
      back := k;
    }
    var q := From(p, t, back);
    WalkFrom(table, edges, rank, p, t, back);
    FinishedFrom(table, edges, outgoing, rank, p, t, back);
    WalkResolves(table, edges, outgoing, rank, q, 0);
    assert Ids(q[..0]) == {};
    var y := ResolveRoot(table, outgoing, q[0], {});
    PoolFrom(table, edges, outgoing, rank, p, t, back, y);
    OwnRootIsInPool(table, edges, outgoing, rank, p, t, back);
    LeastIsUnique(table, y, p[t]);
  }

  /** Where cycles are simple, a root resolves to itself. */
  lemma {:induction false} RootIsSettled(
    table: Table, edges: Topology, outgoing: Callees, rank: map<string, nat>, i: Incident, x: Incident)
    requires SimpleCycles(table, edges, outgoing, rank) && Tabled(table, i) && i.target.kind == Service
    requires x == ResolveRoot(table, outgoing, i, {})
    ensures Settled(table, outgoing, x)
    decreases RankOf(rank, i)
  {
    var p := FinishedWalk(table, edges, rank, [i]);
    WalkResolves(table, edges, outgoing, rank, p, 0);
    assert Ids(p[..0]) == {};
    if OwnSince(table, edges, outgoing, rank, p, 0, x) {
      var t :| 0 <= t < |p| && Own(table, edges, outgoing, rank, p[t], x);
      if x == p[t] && Link(table, edges, x, x) {
        RootOnWalkIsSettled(table, edges, outgoing, rank, p, t);
      } else {
        var b :| Link(table, edges, p[t], b) && Tabled(table, b) && Lower(rank, b, p[t]) && x == ResolveRoot(table, outgoing, b, {});
        WalkIsLevel(table, edges, rank, p, t);
        RootIsSettled(table, edges, outgoing, rank, b, x);
      }
    } else if Alongside(table, edges, rank, Last(p), x) {
      var t :| 0 <= t < |p| && p[t] == x;
      RootOnWalkIsSettled(table, edges, outgoing, rank, p, t);
    } else {
      SinkIsSettled(table, edges, outgoing, x);
    }
  }
}
