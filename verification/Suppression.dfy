/** `analyzer/suppression.py`: `suppress_propagated`, which of the incidents are echoes of a deeper one. */
module Suppression {
  import opened Collections
  import opened Grouping

  type Topology = set<(string, string)>
  type Table = map<Key, Incident>
  type Callees = map<string, seq<string>>

  function KeyOfIncident(i: Incident): Key {
    (i.target.kind, i.target.Label(), i.detector)
  }

  /** The incident's id spells out its key and start, as `_build_incident` makes it. */
  predicate WellNamed(i: Incident) {
    i.id == IncidentId(i.target.kind, i.target.Label(), i.detector, i.start)
  }

  predicate Overlaps(a: Incident, b: Incident) {
    a.start <= b.end && b.start <= a.end
  }

  predicate OpenAt(i: Incident, t: int) {
    i.start <= t <= i.end
  }

  /** Incidents overlap exactly if there is a moment that belongs to both. */
  lemma OverlapsIff(a: Incident, b: Incident)
    requires a.start <= a.end && b.start <= b.end
    ensures Overlaps(a, b) <==> exists t :: OpenAt(a, t) && OpenAt(b, t)
  {
    if Overlaps(a, b) {
      var t := if a.start <= b.start then b.start else a.start;
      assert OpenAt(a, t) && OpenAt(b, t);
    }
  }

  predicate Consistent(table: Table) {
    forall k :: k in table ==> KeyOfIncident(table[k]) == k && WellNamed(table[k])
  }

  predicate Tabled(table: Table, i: Incident) {
    KeyOfIncident(i) in table && table[KeyOfIncident(i)] == i
  }

  function TableIds(table: Table): set<IncidentId> {
    set k | k in table :: table[k].id
  }

  lemma TabledIsListed(table: Table, i: Incident)
    requires Tabled(table, i)
    ensures i.id in TableIds(table)
  {
    assert KeyOfIncident(i) in table;
  }

  // ----- Labels are compared as Python compares strings -----

  predicate StringLess(a: string, b: string) {
    if b == [] then false
    else a == [] || a[0] < b[0] || (a[0] == b[0] && StringLess(a[1..], b[1..]))
  }

  lemma {:induction false} StringOrderIsStrict(a: string, b: string, c: string)
    ensures !StringLess(a, a)
    ensures StringLess(a, b) && StringLess(b, c) ==> StringLess(a, c)
    ensures a == b || StringLess(a, b) || StringLess(b, a)
  {
    if a != [] && b != [] {
      StringOrderIsStrict(a[1..], b[1..], if c == [] then c else c[1..]);
      if a[0] == b[0] && a[1..] == b[1..] {
        assert a == [a[0]] + a[1..] == [b[0]] + b[1..] == b;
      }
    } else if a != [] {
      StringOrderIsStrict(a[1..], [], []);
    }
  }

  /** The first candidate no other comes before, as `min` picks it. */
  function MinByLabel(cs: seq<Incident>): (m: Incident)
    requires cs != []
    ensures m in cs
  {
    if |cs| == 1 then cs[0]
    else
      var best := MinByLabel(cs[..|cs| - 1]);
      if StringLess(Last(cs).target.Label(), best.target.Label()) then Last(cs) else best
  }

  lemma {:induction false} MinByLabelIs(cs: seq<Incident>)
    requires cs != []
    ensures forall c :: c in cs ==> !StringLess(c.target.Label(), MinByLabel(cs).target.Label())
  {
    SplitLast(cs);
    if |cs| == 1 {
      StringOrderIsStrict(cs[0].target.Label(), [], []);
    } else {
      var init, last := cs[..|cs| - 1], Last(cs);
      MinByLabelIs(init);
      var best := MinByLabel(init);
      forall c | c in cs
        ensures !StringLess(c.target.Label(), MinByLabel(cs).target.Label())
      {
        StringOrderIsStrict(c.target.Label(), last.target.Label(), best.target.Label());
        StringOrderIsStrict(last.target.Label(), last.target.Label(), best.target.Label());
      }
    }
  }

  // ----- resolve_root -----

  function CalleesOf(outgoing: Callees, service: string): seq<string> {
    if service in outgoing then outgoing[service] else []
  }

  function Downstream(table: Table, i: Incident, callee: string): Option<Incident> {
    var key := (Service, callee, i.detector);
    if key in table && Overlaps(i, table[key]) then Some(table[key]) else None
  }

  function ResolveRoot(table: Table, outgoing: Callees, i: Incident, visiting: set<IncidentId>): (root: Incident)
    requires Consistent(table) && Tabled(table, i)
    ensures Tabled(table, root) && root.detector == i.detector && root.target.kind == i.target.kind
    decreases TableIds(table) - visiting, 0, 0
  {
    if i.target.kind != Service || i.id in visiting then i
    else
      TabledIsListed(table, i);
      var candidates := Candidates(table, outgoing, i, CalleesOf(outgoing, i.target.callee), visiting + {i.id});
      if candidates == [] then i else MinByLabel(candidates)
  }

  function Candidates(table: Table, outgoing: Callees, i: Incident, callees: seq<string>, visiting: set<IncidentId>): (cs: seq<Incident>)
    requires Consistent(table) && Tabled(table, i) && i.target.kind == Service
    ensures forall c :: c in cs ==> Tabled(table, c) && c.detector == i.detector && c.target.kind == Service
    decreases TableIds(table) - visiting, 1, |callees|
  {
    if callees == [] then []
    else
      var before := Candidates(table, outgoing, i, callees[..|callees| - 1], visiting);
      match Downstream(table, i, Last(callees))
      case None => before
      case Some(d) => before + [ResolveRoot(table, outgoing, d, visiting)]
  }

  // ----- The link graph -----

  /** b is an overlapping same-detector incident on a service that a's service calls. */
  ghost predicate Link(table: Table, edges: Topology, a: Incident, b: Incident) {
    && a.target.kind == Service && b.target.kind == Service
    && (a.target.callee, b.target.callee) in edges
    && a.detector == b.detector && Tabled(table, b) && Overlaps(a, b)
  }

  ghost predicate Sink(table: Table, edges: Topology, i: Incident) {
    forall b :: !Link(table, edges, i, b)
  }

  /** Linked hop by hop; only neighbours need overlap. */
  ghost predicate Linked(table: Table, edges: Topology, a: Incident, b: Incident, hops: nat)
    decreases hops
  {
    if hops == 0 then a == b else exists c :: Link(table, edges, a, c) && Linked(table, edges, c, b, hops - 1)
  }

  /** Some enumeration of the edge set. */
  ghost predicate Lists(outgoing: Callees, edges: Topology) {
    forall s, t :: t in CalleesOf(outgoing, s) <==> (s, t) in edges
  }

  lemma {:induction false} CandidatesAre(
    table: Table, outgoing: Callees, i: Incident, callees: seq<string>, visiting: set<IncidentId>, c: Incident)
    requires Consistent(table) && Tabled(table, i) && i.target.kind == Service
    ensures c in Candidates(table, outgoing, i, callees, visiting) <==>
            exists t :: t in callees && Downstream(table, i, t).Some?
                        && c == ResolveRoot(table, outgoing, Downstream(table, i, t).value, visiting)
    decreases |callees|
  {
    if callees == [] {
    } else {
      SplitLast(callees);
      CandidatesAre(table, outgoing, i, callees[..|callees| - 1], visiting, c);
    }
  }

  lemma DownstreamIsLink(table: Table, edges: Topology, outgoing: Callees, i: Incident, t: string)
    requires Consistent(table) && Lists(outgoing, edges) && i.target.kind == Service
    requires t in CalleesOf(outgoing, i.target.callee) && Downstream(table, i, t).Some?
    ensures Link(table, edges, i, Downstream(table, i, t).value)
  {
    var key := (Service, t, i.detector);
    assert KeyOfIncident(table[key]) == key;
  }

  lemma LinkIsDownstream(table: Table, edges: Topology, outgoing: Callees, i: Incident, b: Incident)
    requires Lists(outgoing, edges) && Link(table, edges, i, b)
    ensures b.target.callee in CalleesOf(outgoing, i.target.callee) && Downstream(table, i, b.target.callee) == Some(b)
  {
  }

  // ----- suppress_propagated -----

  /** `by_target`: the last incident of each key. */
  function ByTarget(incidents: seq<Incident>): (table: Table)
    requires forall i :: i in incidents ==> WellNamed(i)
    ensures Consistent(table)
  {
    if incidents == [] then map[]
    else ByTarget(incidents[..|incidents| - 1])[KeyOfIncident(Last(incidents)) := Last(incidents)]
  }

  predicate LastOfKey(incidents: seq<Incident>, n: nat)
    requires n < |incidents|
  {
    forall m :: n < m < |incidents| ==> KeyOfIncident(incidents[m]) != KeyOfIncident(incidents[n])
  }

  lemma {:induction false} LastOfKeyIsTabled(incidents: seq<Incident>, n: nat)
    requires forall i :: i in incidents ==> WellNamed(i)
    requires n < |incidents| && LastOfKey(incidents, n)
    ensures Tabled(ByTarget(incidents), incidents[n])
  {
    if n < |incidents| - 1 {
      LastOfKeyIsTabled(incidents[..|incidents| - 1], n);
      assert KeyOfIncident(Last(incidents)) != KeyOfIncident(incidents[n]);
    }
  }

  lemma {:induction false} TabledIsLastOfKey(incidents: seq<Incident>, i: Incident) returns (n: nat)
    requires forall j :: j in incidents ==> WellNamed(j)
    requires Tabled(ByTarget(incidents), i)
    ensures n < |incidents| && incidents[n] == i && LastOfKey(incidents, n)
  {
    if KeyOfIncident(i) == KeyOfIncident(Last(incidents)) {
      n := |incidents| - 1;
    } else {
      n := TabledIsLastOfKey(incidents[..|incidents| - 1], i);
    }
  }

  function KeyOfId(id: IncidentId): Key {
    (id.kind, id.name, id.detector)
  }

  /** The root an incident is attributed to, if it is not its own. */
  function Verdict(table: Table, outgoing: Callees, i: Incident): Option<IncidentId>
    requires Consistent(table) && Tabled(table, i)
  {
    if i.target.kind == Service then
      var root := ResolveRoot(table, outgoing, i, {});
      if root.id != i.id then Some(root.id) else None
    else
      match Downstream(table, i, i.target.callee)
      case None => None
      case Some(callee) => Some(ResolveRoot(table, outgoing, callee, {}).id)
  }

  function Marked(i: Incident, root: IncidentId): Incident {
    i.(derived := true, rootCause := Some(root))
  }

  /** What becomes of an incident: only the last one of its key can be marked. */
  function Judged(table: Table, outgoing: Callees, i: Incident): Incident
    requires Consistent(table)
  {
    var key := KeyOfId(i.id);
    if key in table && table[key].id == i.id && Verdict(table, outgoing, table[key]).Some?
    then Marked(table[key], Verdict(table, outgoing, table[key]).value)
    else i
  }

  function Outcome(incidents: seq<Incident>, outgoing: Callees): (results: seq<Incident>)
    requires forall i :: i in incidents ==> WellNamed(i)
    ensures |results| == |incidents|
  {
    seq(|incidents|, n requires 0 <= n < |incidents| => Judged(ByTarget(incidents), outgoing, incidents[n]))
  }

  /** The dictionary of replaced incidents once the given keys are done. */
  ghost predicate ResolvedFor(table: Table, outgoing: Callees, done: set<Key>, resolved: map<IncidentId, Incident>)
    requires Consistent(table)
  {
    forall id ::
      if KeyOfId(id) in done && KeyOfId(id) in table && table[KeyOfId(id)].id == id
         && Verdict(table, outgoing, table[KeyOfId(id)]).Some?
      then id in resolved && resolved[id] == Marked(table[KeyOfId(id)], Verdict(table, outgoing, table[KeyOfId(id)]).value)
      else id !in resolved
  }

  ghost function KeysOfKind(keys: seq<Key>, kind: Kind): set<Key> {
    set k | k in keys && k.0 == kind
  }

  lemma ResolvedOneMore(
    table: Table, outgoing: Callees, done: set<Key>, resolved: map<IncidentId, Incident>, key: Key)
    requires Consistent(table) && ResolvedFor(table, outgoing, done, resolved) && key in table
    ensures var verdict := Verdict(table, outgoing, table[key]);
            ResolvedFor(table, outgoing, done + {key},
              if verdict.Some? then resolved[table[key].id := Marked(table[key], verdict.value)] else resolved)
  {
    assert KeyOfId(table[key].id) == key;
  }

  method IndexByTarget(incidents: seq<Incident>) returns (order: seq<Key>, table: Table)
    requires forall i :: i in incidents ==> WellNamed(i)
    ensures table == ByTarget(incidents) && forall k :: k in order <==> k in table
  {
    table, order := map[], [];
    ghost var seen: seq<Incident> := [];
    for n := 0 to |incidents|
      invariant seen == incidents[..n] && table == ByTarget(seen) && forall k :: k in order <==> k in table
    {
      var i := incidents[n];
      assert (seen + [i])[..|seen|] == seen;
      seen := seen + [i];
      var key := KeyOfIncident(i);
      if key !in table {
        order := order + [key];
      }
      table := table[key := i];
    }
    assert seen == incidents;
  }

  method ListCallees(edges: Topology) returns (outgoing: Callees)
    ensures Lists(outgoing, edges)
  {
    outgoing := map[];
    var rest := edges;
    while rest != {}
      invariant rest <= edges && Lists(outgoing, edges - rest)
      decreases rest
    {
      var e :| e in rest;
      ListedOneMore(outgoing, edges - rest, e);
      assert edges - (rest - {e}) == (edges - rest) + {e};
      rest := rest - {e};
      outgoing := outgoing[e.0 := CalleesOf(outgoing, e.0) + [e.1]];
    }
    assert edges - rest == edges;
  }

  lemma ListedOneMore(outgoing: Callees, edges: Topology, e: (string, string))
    requires Lists(outgoing, edges)
    ensures Lists(outgoing[e.0 := CalleesOf(outgoing, e.0) + [e.1]], edges + {e})
  {
    var outgoing' := outgoing[e.0 := CalleesOf(outgoing, e.0) + [e.1]];
    forall s, t
      ensures t in CalleesOf(outgoing', s) <==> (s, t) in edges + {e}
    {
      assert (s, t) == e <==> s == e.0 && t == e.1;
    }
  }

  method ResolveServices(table: Table, outgoing: Callees, order: seq<Key>) returns (resolved: map<IncidentId, Incident>)
    requires Consistent(table) && forall k :: k in order ==> k in table
    ensures ResolvedFor(table, outgoing, KeysOfKind(order, Service), resolved)
  {
    resolved := map[];
    ghost var done: set<Key> := {};
    for n := 0 to |order|
      invariant done == KeysOfKind(order[..n], Service) && ResolvedFor(table, outgoing, done, resolved)
    {
      var incident := table[order[n]];
      assert order[..n + 1] == order[..n] + [order[n]];
      if incident.target.kind == Service {
        ResolvedOneMore(table, outgoing, done, resolved, order[n]);
        done := done + {order[n]};
        var root := ResolveRoot(table, outgoing, incident, {});
        if root.id != incident.id {
          resolved := resolved[incident.id := Marked(incident, root.id)];
        }
      }
    }
    assert order[..|order|] == order;
  }

  method ResolveEdges(table: Table, outgoing: Callees, order: seq<Key>, services: map<IncidentId, Incident>)
    returns (resolved: map<IncidentId, Incident>)
    requires Consistent(table) && forall k :: k in order ==> k in table
    requires ResolvedFor(table, outgoing, KeysOfKind(order, Service), services)
    ensures ResolvedFor(table, outgoing, KeysOfKind(order, Service) + KeysOfKind(order, CallEdge), resolved)
  {
    resolved := services;
    ghost var done := KeysOfKind(order, Service);
    for n := 0 to |order|
      invariant done == KeysOfKind(order, Service) + KeysOfKind(order[..n], CallEdge)
      invariant ResolvedFor(table, outgoing, done, resolved)
    {
      var incident := table[order[n]];
      assert order[..n + 1] == order[..n] + [order[n]];
      if incident.target.kind == CallEdge {
        ResolvedOneMore(table, outgoing, done, resolved, order[n]);
        done := done + {order[n]};
        var callee := Downstream(table, incident, incident.target.callee);
        if callee.Some? {
          var root := ResolveRoot(table, outgoing, callee.value, {});
          resolved := resolved[incident.id := Marked(incident, root.id)];
        }
      }
    }
    assert order[..|order|] == order;
  }

  method SuppressPropagated(incidents: seq<Incident>, edges: Topology)
    returns (results: seq<Incident>)
    requires forall i :: i in incidents ==> WellNamed(i)
    ensures exists outgoing :: Lists(outgoing, edges) && results == Outcome(incidents, outgoing)
  {
    var order, table := IndexByTarget(incidents);
    var callees := ListCallees(edges);
    var services := ResolveServices(table, callees, order);
    var resolved := ResolveEdges(table, callees, order, services);
    assert KeysOfKind(order, Service) + KeysOfKind(order, CallEdge) == table.Keys;
    results := ReplaceResolved(table, callees, incidents, resolved);
    assert results == Outcome(incidents, callees);
  }

  method ReplaceResolved(table: Table, outgoing: Callees, incidents: seq<Incident>, resolved: map<IncidentId, Incident>)
    returns (results: seq<Incident>)
    requires Consistent(table) && ResolvedFor(table, outgoing, table.Keys, resolved)
    ensures |results| == |incidents|
    ensures forall n :: 0 <= n < |incidents| ==> results[n] == Judged(table, outgoing, incidents[n])
  {
    results := [];
    for n := 0 to |incidents|
      invariant |results| == n
      invariant forall m :: 0 <= m < n ==> results[m] == Judged(table, outgoing, incidents[m])
    {
      var id := incidents[n].id;
      results := results + [if id in resolved then resolved[id] else incidents[n]];
    }
  }
}
