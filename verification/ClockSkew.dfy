/**
  `analyzer/clockskew.py`: causality violations, and per-service clock offsets estimated from the
  median gaps of the call edges, outward from a root service.
 */
module ClockSkew {
  import opened Collections
  import opened Spans
  import opened TraceGroups
  import opened CallGraph
  import opened Statistics

  // ----- detect_violations -----

  datatype ViolationKind = StartsBeforeParent | EndsAfterParent
  datatype Violation = Violation(parent: SpanRow, child: SpanRow, kind: ViolationKind)

  predicate RunsInside(parent: SpanRow, child: SpanRow) {
    parent.start <= child.start && child.end <= parent.end
  }

  /** One violation per resolved call that does not run inside its caller, late ends only when the start is in order. */
  ghost predicate Violations(rows: seq<SpanRow>, violations: seq<Violation>) {
    && (forall v :: v in violations <==> v.parent in rows && v.child in rows && Calls(v.parent, v.child)
                                         && !RunsInside(v.parent, v.child)
                                         && (v.kind == StartsBeforeParent <==> v.child.start < v.parent.start))
    && (forall i, j :: 0 <= i < j < |violations| ==> violations[i].child != violations[j].child)
  }

  method DetectViolations(rows: seq<SpanRow>) returns (violations: seq<Violation>)
    requires UniqueSpans(rows)
    ensures Violations(rows, violations)
  {
    var pairs := ResolvedPairs(rows);
    violations := [];
    for i := 0 to |pairs|
      invariant forall v :: v in violations <==> (v.parent, v.child) in pairs[..i] && !RunsInside(v.parent, v.child)
                                                 && (v.kind == StartsBeforeParent <==> v.child.start < v.parent.start)
      invariant forall k, l :: 0 <= k < l < |violations| ==> violations[k].child != violations[l].child
    {
      var (parent, child) := pairs[i];
      assert pairs[..i + 1] == pairs[..i] + [(parent, child)];
      assert forall v :: v in violations ==> v.child != child;
      if child.start < parent.start {
        violations := violations + [Violation(parent, child, StartsBeforeParent)];
      } else if child.end > parent.end {
        violations := violations + [Violation(parent, child, EndsAfterParent)];
      }
    }
    assert pairs[..|pairs|] == pairs;
  }

  // ----- The observed edges -----

  function EdgeOf(pair: Pair): Edge {
    (pair.0.service, pair.1.service)
  }

  function Gap(pair: Pair): real {
    (pair.1.start - pair.0.start) as real
  }

  function GapsAlong(pairs: seq<Pair>, e: Edge): seq<real> {
    if pairs == [] then []
    else
      var last := pairs[|pairs| - 1];
      GapsAlong(pairs[..|pairs| - 1], e) + if EdgeOf(last) == e then [Gap(last)] else []
  }

  /** The edges in the order in which a dictionary first meets them. */
  function EdgeOrder(pairs: seq<Pair>): seq<Edge> {
    if pairs == [] then []
    else
      var before, e := EdgeOrder(pairs[..|pairs| - 1]), EdgeOf(pairs[|pairs| - 1]);
      if e in before then before else before + [e]
  }

  lemma {:induction false} EdgeOrderIs(pairs: seq<Pair>, e: Edge)
    ensures Distinct(EdgeOrder(pairs))
    ensures e in EdgeOrder(pairs) <==> GapsAlong(pairs, e) != []
    ensures EdgeOrder(pairs) == [] <==> pairs == []
  {
    if pairs == [] {
    } else {
      EdgeOrderIs(pairs[..|pairs| - 1], e);
    }
  }

  function MedianGap(pairs: seq<Pair>, e: Edge): real {
    Median(GapsAlong(pairs, e))
  }

  /** The first of the values of least magnitude, as `min(key=abs)` picks it. */
  function LeastMagnitude(values: seq<real>): real
    requires values != []
  {
    if |values| == 1 then values[0]
    else
      var best, last := LeastMagnitude(values[..|values| - 1]), values[|values| - 1];
      if Abs(last) < Abs(best) then last else best
  }

  lemma {:induction false} LeastMagnitudeIs(values: seq<real>)
    requires values != []
    ensures LeastMagnitude(values) in values
    ensures forall x :: x in values ==> Abs(LeastMagnitude(values)) <= Abs(x)
  {
    var init, last := values[..|values| - 1], values[|values| - 1];
    assert values == init + [last];
    if init != [] {
      LeastMagnitudeIs(init);
      assert forall x :: x in values <==> x in init || x == last;
    }
  }

  function Medians(pairs: seq<Pair>, edges: seq<Edge>): (r: seq<real>)
    ensures |r| == |edges|
  {
    seq(|edges|, i requires 0 <= i < |edges| => MedianGap(pairs, edges[i]))
  }

  function TypicalGap(pairs: seq<Pair>): real
    requires pairs != []
  {
    EdgeOrderIs(pairs, EdgeOf(pairs[0]));
    LeastMagnitude(Medians(pairs, EdgeOrder(pairs)))
  }

  // ----- Primary callers -----

  type Caller = (string, nat)

  function Incoming(pairs: seq<Pair>, edges: seq<Edge>, callee: string): seq<Caller> {
    if edges == [] then []
    else
      var last := edges[|edges| - 1];
      Incoming(pairs, edges[..|edges| - 1], callee) + if last.1 == callee then [(last.0, |GapsAlong(pairs, last)|)] else []
  }

  /** The first of the busiest callers, as `max` picks it. */
  function Busiest(callers: seq<Caller>): Caller
    requires callers != []
  {
    if |callers| == 1 then callers[0]
    else
      var best, last := Busiest(callers[..|callers| - 1]), callers[|callers| - 1];
      if last.1 > best.1 then last else best
  }

  lemma {:induction false} BusiestIs(callers: seq<Caller>)
    requires callers != []
    ensures Busiest(callers) in callers && forall c :: c in callers ==> c.1 <= Busiest(callers).1
  {
    var init, last := callers[..|callers| - 1], callers[|callers| - 1];
    assert callers == init + [last];
    if init != [] {
      BusiestIs(init);
      assert forall c :: c in callers <==> c in init || c == last;
    }
  }

  lemma {:induction false} IncomingIs(pairs: seq<Pair>, edges: seq<Edge>, callee: string, c: Caller)
    ensures c in Incoming(pairs, edges, callee) <==> (c.0, callee) in edges && c.1 == |GapsAlong(pairs, (c.0, callee))|
  {
    if edges == [] {
    } else {
      var last := edges[|edges| - 1];
      assert edges == edges[..|edges| - 1] + [last];
      IncomingIs(pairs, edges[..|edges| - 1], callee, c);
      assert last == (last.0, last.1);
    }
  }

  function Primary(pairs: seq<Pair>, callee: string): Option<string> {
    var callers := Incoming(pairs, EdgeOrder(pairs), callee);
    if callers == [] then None else Some(Busiest(callers).0)
  }

  /** A called service's primary caller is an observed caller, and none has more calls. */
  lemma PrimaryIs(pairs: seq<Pair>, callee: string)
    ensures Primary(pairs, callee).Some? <==> exists caller :: (caller, callee) in EdgeOrder(pairs)
    ensures Primary(pairs, callee).Some? ==>
              var p := Primary(pairs, callee).value;
              (p, callee) in EdgeOrder(pairs)
              && forall c :: |GapsAlong(pairs, (c, callee))| <= |GapsAlong(pairs, (p, callee))|
  {
    var edges := EdgeOrder(pairs);
    var callers := Incoming(pairs, edges, callee);
    forall c: Caller
      ensures c in callers <==> (c.0, callee) in edges && c.1 == |GapsAlong(pairs, (c.0, callee))|
    {
      IncomingIs(pairs, edges, callee, c);
    }
    forall c
      ensures (c, callee) in edges <==> (c, |GapsAlong(pairs, (c, callee))|) in callers
      ensures (c, callee) in edges <==> GapsAlong(pairs, (c, callee)) != []
    {
      EdgeOrderIs(pairs, (c, callee));
    }
    if callers != [] {
      BusiestIs(callers);
      forall c
        ensures |GapsAlong(pairs, (c, callee))| <= Busiest(callers).1
      {
        if (c, callee) in edges {
          assert (c, |GapsAlong(pairs, (c, callee))|).1 <= Busiest(callers).1;
        }
      }
    }
  }

  /** Python's `round`: to the nearest integer, halves to the even one. */
  function Round(x: real): (r: int)
    ensures -0.5 <= r as real - x <= 0.5
    ensures r as real - x == 0.5 || r as real - x == -0.5 ==> r % 2 == 0
  {
    var f := x.Floor;
    if x - f as real < 0.5 then f else if x - f as real > 0.5 then f + 1 else if f % 2 == 0 then f else f + 1
  }

  lemma RoundOfInt(n: int)
    ensures Round(n as real) == n
  {
  }

  // ----- What each service's estimate is -----

  /** Each called service's primary caller, how much later than typical that call is, and how often it was seen. */
  datatype Tree = Tree(primary: string -> Option<string>, delay: string -> real, calls: string -> nat)

  function PrimaryEdge(pairs: seq<Pair>, s: string): Edge {
    (if Primary(pairs, s).Some? then Primary(pairs, s).value else "", s)
  }

  /** How long after its primary caller a service typically starts. */
  function Delay(pairs: seq<Pair>, s: string): real {
    MedianGap(pairs, PrimaryEdge(pairs, s))
  }

  function CallCount(pairs: seq<Pair>, s: string): nat {
    |GapsAlong(pairs, PrimaryEdge(pairs, s))|
  }

  function TreeOf(pairs: seq<Pair>, typical: real): Tree {
    Tree(s => Primary(pairs, s), s => Delay(pairs, s) - typical, s => CallCount(pairs, s))
  }

  /** d primary callers up from s is the root, and not sooner. */
  ghost predicate Chain(tree: Tree, root: string, s: string, d: nat)
    decreases d
  {
    if s == root then d == 0
    else d > 0 && tree.primary(s).Some? && Chain(tree, root, tree.primary(s).value, d - 1)
  }

  lemma {:induction false} ChainIsUnique(tree: Tree, root: string, s: string, d: nat, e: nat)
    requires Chain(tree, root, s, d) && Chain(tree, root, s, e)
    ensures d == e
    decreases d
  {
    if s != root {
      ChainIsUnique(tree, root, tree.primary(s).value, d - 1, e - 1);
    }
  }

  /** The estimate for a service d calls below the root: rounded at every hop. */
  function Estimate(tree: Tree, s: string, d: nat): int
    decreases d
  {
    if d == 0 || tree.primary(s).None? then 0
    else Round(Estimate(tree, tree.primary(s).value, d - 1) as real + tree.delay(s))
  }

  datatype ServiceOffset = ServiceOffset(service: string, offset: int, confidence: nat)

  function OffsetOf(tree: Tree, s: string, d: nat): ServiceOffset {
    ServiceOffset(s, Estimate(tree, s, d), if d == 0 then 0 else tree.calls(s))
  }

  ghost predicate Chained(tree: Tree, root: string, s: string) {
    exists d: nat :: Chain(tree, root, s, d)
  }

  ghost predicate Right(tree: Tree, root: string, offsets: map<string, ServiceOffset>) {
    forall s, d: nat :: s in offsets && Chain(tree, root, s, d) ==> offsets[s] == OffsetOf(tree, s, d)
  }

  /** Exactly the services whose primary-caller chain reaches the root, each with its estimate. */
  ghost predicate Estimates(tree: Tree, root: string, offsets: map<string, ServiceOffset>) {
    (forall s :: s in offsets <==> Chained(tree, root, s)) && Right(tree, root, offsets)
  }

  // ----- One level of the search -----

  /** The services of one level further out, as far as the given edges have been followed. */
  ghost predicate Expanding(
    tree: Tree, root: string, k: nat, done: set<Edge>, offsets: map<string, ServiceOffset>, next: seq<string>)
  {
    && Right(tree, root, offsets)
    && (forall s :: s in next <==> Reached(tree, root, s, k, done))
    && (forall s :: s in offsets <==> WithinDepth(tree, root, s, k) || s in next)
  }

  ghost predicate Next(tree: Tree, root: string, s: string, k: nat) {
    Chain(tree, root, s, k + 1)
  }

  /** One level below k, by an edge already followed. */
  ghost predicate Reached(tree: Tree, root: string, s: string, k: nat, done: set<Edge>) {
    Next(tree, root, s, k) && (tree.primary(s).value, s) in done
  }

  ghost predicate WithinDepth(tree: Tree, root: string, s: string, k: nat) {
    exists d: nat :: d <= k && Chain(tree, root, s, d)
  }

  /** An edge to a service that is known already, or is mostly called by others, changes nothing. */
  lemma PassedEdge(
    tree: Tree, root: string, k: nat, done: set<Edge>, offsets: map<string, ServiceOffset>, next: seq<string>, e: Edge)
    requires Expanding(tree, root, k, done, offsets, next)
    requires e.1 in offsets || tree.primary(e.1) != Some(e.0)
    ensures Expanding(tree, root, k, done + {e}, offsets, next)
  {
    forall s
      ensures Reached(tree, root, s, k, done + {e}) <==> Reached(tree, root, s, k, done)
    {
      if WithinDepth(tree, root, s, k) && Chain(tree, root, s, k + 1) {
        var d: nat :| d <= k && Chain(tree, root, s, d);
        ChainIsUnique(tree, root, s, d, k + 1);
      }
    }
  }

  lemma NewIsDeeper(tree: Tree, root: string, k: nat, done: set<Edge>, offsets: map<string, ServiceOffset>, next: seq<string>, e: Edge)
    requires Expanding(tree, root, k, done, offsets, next) && Chain(tree, root, e.0, k)
    requires e.1 !in offsets && tree.primary(e.1) == Some(e.0)
    ensures Reached(tree, root, e.1, k, {e})
  {
    if e.1 == root {
      assert Chain(tree, root, root, 0);
      assert WithinDepth(tree, root, root, k);
    }
  }

  lemma FollowedEdge(
    tree: Tree, root: string, k: nat, done: set<Edge>, offsets: map<string, ServiceOffset>, next: seq<string>, e: Edge)
    requires Expanding(tree, root, k, done, offsets, next) && Reached(tree, root, e.1, k, {e})
    ensures Expanding(tree, root, k, done + {e}, offsets[e.1 := OffsetOf(tree, e.1, k + 1)], next + [e.1])
  {
    forall d: nat | Chain(tree, root, e.1, d)
      ensures d == k + 1
    {
      ChainIsUnique(tree, root, e.1, d, k + 1);
    }
    forall s
      ensures Reached(tree, root, s, k, done + {e}) <==> Reached(tree, root, s, k, done) || s == e.1
    {
    }
  }

  /** After every edge out of the level has been followed, `next` is the next level. */
  lemma LevelDone(
    tree: Tree, root: string, k: nat, done: set<Edge>, offsets: map<string, ServiceOffset>, next: seq<string>)
    requires Expanding(tree, root, k, done, offsets, next)
    requires forall s :: Next(tree, root, s, k) ==> Reached(tree, root, s, k, done)
    ensures forall s :: s in next <==> Next(tree, root, s, k)
    ensures forall s :: s in offsets <==> WithinDepth(tree, root, s, k) || Next(tree, root, s, k)
  {
  }

  lemma OneDeeper(tree: Tree, root: string, s: string, k: nat)
    ensures WithinDepth(tree, root, s, k + 1) <==> WithinDepth(tree, root, s, k) || Next(tree, root, s, k)
  {
    if WithinDepth(tree, root, s, k + 1) {
      var d: nat :| d <= k + 1 && Chain(tree, root, s, d);
      assert d <= k || d == k + 1;
    }
  }

  /** Chains have no holes: where one level is empty, so are all further ones. */
  lemma {:induction false} ChainPasses(tree: Tree, root: string, s: string, d: nat, k: nat) returns (t: string)
    requires Chain(tree, root, s, d) && k <= d
    ensures Chain(tree, root, t, k)
    decreases d
  {
    if k == d {
      t := s;
    } else {
      t := ChainPasses(tree, root, tree.primary(s).value, d - 1, k);
    }
  }

  lemma CallerIsKnown(
    tree: Tree, root: string, k: nat, done: set<Edge>, offsets: map<string, ServiceOffset>, next: seq<string>, s: string)
    requires Expanding(tree, root, k, done, offsets, next) && Chain(tree, root, s, k)
    ensures s in offsets && offsets[s].offset == Estimate(tree, s, k)
  {
    assert WithinDepth(tree, root, s, k);
  }

  // ----- estimate_offsets -----

  ghost predicate Indexes(pairs: seq<Pair>, order: seq<Edge>, gaps: map<Edge, seq<real>>) {
    && order == EdgeOrder(pairs)
    && (forall e :: e in order <==> e in gaps)
    && (forall e :: e in gaps ==> gaps[e] == GapsAlong(pairs, e))
  }

  method GapsByEdge(pairs: seq<Pair>) returns (order: seq<Edge>, gaps: map<Edge, seq<real>>)
    ensures Indexes(pairs, order, gaps)
  {
    order, gaps := [], map[];
    ghost var seen: seq<Pair> := [];
    for i := 0 to |pairs|
      invariant seen == pairs[..i] && Indexes(seen, order, gaps)
    {
      var e := EdgeOf(pairs[i]);
      IndexesOneMore(seen, order, gaps, pairs[i]);
      seen := seen + [pairs[i]];
      if e !in gaps {
        order := order + [e];
      }
      gaps := gaps[e := (if e in gaps then gaps[e] else []) + [Gap(pairs[i])]];
    }
    assert seen == pairs;
  }

  lemma IndexesOneMore(pairs: seq<Pair>, order: seq<Edge>, gaps: map<Edge, seq<real>>, pair: Pair)
    requires Indexes(pairs, order, gaps)
    ensures var e := EdgeOf(pair);
            Indexes(pairs + [pair], if e in gaps then order else order + [e],
                    gaps[e := (if e in gaps then gaps[e] else []) + [Gap(pair)]])
  {
    assert (pairs + [pair])[..|pairs|] == pairs;
    EdgeOrderIs(pairs, EdgeOf(pair));
  }

  ghost predicate Counted(pairs: seq<Pair>, edges: seq<Edge>, incoming: map<string, seq<Caller>>) {
    forall s :: CallersOf(incoming, s) == Incoming(pairs, edges, s)
  }

  function CallersOf(incoming: map<string, seq<Caller>>, s: string): seq<Caller> {
    if s in incoming then incoming[s] else []
  }

  lemma CountedOneMore(pairs: seq<Pair>, edges: seq<Edge>, incoming: map<string, seq<Caller>>, e: Edge)
    requires Counted(pairs, edges, incoming)
    ensures Counted(pairs, edges + [e], incoming[e.1 := CallersOf(incoming, e.1) + [(e.0, |GapsAlong(pairs, e)|)]])
  {
    assert (edges + [e])[..|edges|] == edges;
    forall s
      ensures Incoming(pairs, edges + [e], s) == Incoming(pairs, edges, s) + if e.1 == s then [(e.0, |GapsAlong(pairs, e)|)] else []
    {
    }
  }

  method CountIncoming(ghost pairs: seq<Pair>, order: seq<Edge>, gaps: map<Edge, seq<real>>)
    returns (incoming: map<string, seq<Caller>>)
    requires Indexes(pairs, order, gaps)
    ensures Counted(pairs, order, incoming)
  {
    incoming := map[];
    ghost var seen: seq<Edge> := [];
    for i := 0 to |order|
      invariant seen == order[..i] && Counted(pairs, seen, incoming)
    {
      var e := order[i];
      CountedOneMore(pairs, seen, incoming, e);
      seen := seen + [e];
      incoming := incoming[e.1 := CallersOf(incoming, e.1) + [(e.0, |gaps[e]|)]];
    }
    assert seen == order;
  }

  function EdgesFrom(order: seq<Edge>, callers: seq<string>): set<Edge> {
    set e | e in order && e.0 in callers
  }

  /** The dictionaries the search reads. */
  datatype Observed = Observed(
    typical: real, order: seq<Edge>, medians: map<Edge, real>, gaps: map<Edge, seq<real>>, incoming: map<string, seq<Caller>>)

  /** They hold what the tree is made of. */
  ghost predicate Tabulates(tree: Tree, o: Observed) {
    forall e :: e in o.order ==> EdgeTabulated(tree, o, e)
  }

  ghost predicate EdgeTabulated(tree: Tree, o: Observed, e: Edge) {
    && e in o.medians && e in o.gaps && e.1 in o.incoming && o.incoming[e.1] != []
    && tree.primary(e.1) == Some(Busiest(o.incoming[e.1]).0)
    && (tree.primary(e.1) == Some(e.0) ==> tree.delay(e.1) == o.medians[e] - o.typical && tree.calls(e.1) == |o.gaps[e]|)
  }

  lemma EdgeStep(
    tree: Tree, root: string, k: nat, done: set<Edge>, offsets: map<string, ServiceOffset>, next: seq<string>, e: Edge)
    requires Expanding(tree, root, k, done, offsets, next) && Chain(tree, root, e.0, k)
    ensures e.0 in offsets
    ensures if e.1 in offsets || tree.primary(e.1) != Some(e.0) then Expanding(tree, root, k, done + {e}, offsets, next)
            else
              var offset := Round(offsets[e.0].offset as real + tree.delay(e.1));
              Expanding(tree, root, k, done + {e},
                offsets[e.1 := ServiceOffset(e.1, offset, tree.calls(e.1))], next + [e.1])
  {
    CallerIsKnown(tree, root, k, done, offsets, next, e.0);
    if e.1 in offsets || tree.primary(e.1) != Some(e.0) {
      PassedEdge(tree, root, k, done, offsets, next, e);
    } else {
      NewIsDeeper(tree, root, k, done, offsets, next, e);
      FollowedEdge(tree, root, k, done, offsets, next, e);
    }
  }

  method FollowEdge(
    ghost tree: Tree, ghost root: string, ghost k: nat, ghost done: set<Edge>, o: Observed, e: Edge,
    known: map<string, ServiceOffset>, found: seq<string>)
    returns (offsets: map<string, ServiceOffset>, next: seq<string>)
    requires EdgeTabulated(tree, o, e)
    requires Expanding(tree, root, k, done, known, found) && Chain(tree, root, e.0, k)
    ensures Expanding(tree, root, k, done + {e}, offsets, next)
  {
    EdgeStep(tree, root, k, done, known, found, e);
    if e.1 in known {
      return known, found;
    }
    var primaryCaller := Busiest(o.incoming[e.1]).0;
    if primaryCaller != e.0 {
      return known, found;
    }
    var delta := o.medians[e] - o.typical;
    return known[e.1 := ServiceOffset(e.1, Round(known[e.0].offset as real + delta), |o.gaps[e]|)], found + [e.1];
  }

  /** One caller of the frontier: its edges in order. */
  method FollowCaller(
    ghost tree: Tree, ghost root: string, ghost k: nat, ghost done: set<Edge>, o: Observed, caller: string,
    known: map<string, ServiceOffset>, found: seq<string>)
    returns (offsets: map<string, ServiceOffset>, next: seq<string>)
    requires Tabulates(tree, o)
    requires Expanding(tree, root, k, done, known, found) && Chain(tree, root, caller, k)
    ensures Expanding(tree, root, k, done + EdgesFrom(o.order, [caller]), offsets, next)
  {
    offsets, next := known, found;
    ghost var followed := done;
    for j := 0 to |o.order|
      invariant followed == done + EdgesFrom(o.order[..j], [caller])
      invariant Expanding(tree, root, k, followed, offsets, next)
    {
      var e := o.order[j];
      EdgesFromOneMore(o.order, j, caller);
      if e.0 == caller {
        offsets, next := FollowEdge(tree, root, k, followed, o, e, offsets, next);
        followed := followed + {e};
      }
    }
    assert o.order[..|o.order|] == o.order;
  }

  lemma EdgesFromOneMore(order: seq<Edge>, j: nat, caller: string)
    requires j < |order|
    ensures EdgesFrom(order[..j + 1], [caller])
         == EdgesFrom(order[..j], [caller]) + if order[j].0 == caller then {order[j]} else {}
  {
    assert order[..j + 1] == order[..j] + [order[j]];
  }

  /** One level: every caller of the frontier in turn. */
  method FollowLevel(
    ghost tree: Tree, ghost root: string, ghost k: nat, o: Observed, frontier: seq<string>, known: map<string, ServiceOffset>)
    returns (offsets: map<string, ServiceOffset>, next: seq<string>)
    requires Tabulates(tree, o)
    requires Expanding(tree, root, k, {}, known, []) && forall s :: s in frontier ==> Chain(tree, root, s, k)
    ensures Expanding(tree, root, k, EdgesFrom(o.order, frontier), offsets, next)
  {
    offsets, next := known, [];
    ghost var done: set<Edge> := {};
    for i := 0 to |frontier|
      invariant done == EdgesFrom(o.order, frontier[..i]) && Expanding(tree, root, k, done, offsets, next)
    {
      assert frontier[..i + 1] == frontier[..i] + [frontier[i]];
      offsets, next := FollowCaller(tree, root, k, done, o, frontier[i], offsets, next);
      done := done + EdgesFrom(o.order, [frontier[i]]);
    }
    assert frontier[..|frontier|] == frontier;
  }

  function Callees(order: seq<Edge>): set<string> {
    set e | e in order :: e.1
  }

  /** Everything between levels: the level itself, and all that is known by then. */
  ghost predicate AtLevel(tree: Tree, root: string, k: nat, frontier: seq<string>, offsets: map<string, ServiceOffset>) {
    && Right(tree, root, offsets)
    && (forall s :: s in frontier <==> Chain(tree, root, s, k))
    && (forall s :: s in offsets <==> WithinDepth(tree, root, s, k))
  }

  ghost predicate PrimariesListed(tree: Tree, order: seq<Edge>) {
    forall s :: tree.primary(s).Some? ==> (tree.primary(s).value, s) in order
  }

  lemma LevelStarts(tree: Tree, root: string, k: nat, frontier: seq<string>, offsets: map<string, ServiceOffset>)
    requires AtLevel(tree, root, k, frontier, offsets)
    ensures Expanding(tree, root, k, {}, offsets, [])
  {
  }

  lemma LevelEnds(
    tree: Tree, root: string, k: nat, order: seq<Edge>, frontier: seq<string>, known: map<string, ServiceOffset>,
    offsets: map<string, ServiceOffset>, next: seq<string>)
    requires AtLevel(tree, root, k, frontier, known) && PrimariesListed(tree, order)
    requires Expanding(tree, root, k, EdgesFrom(order, frontier), offsets, next)
    ensures AtLevel(tree, root, k + 1, next, offsets)
    ensures forall s :: s in next ==> s in Callees(order) && s in offsets && s !in known
    ensures known.Keys <= offsets.Keys
  {
    forall s
      ensures Next(tree, root, s, k) ==> Reached(tree, root, s, k, EdgesFrom(order, frontier))
    {
    }
    LevelDone(tree, root, k, EdgesFrom(order, frontier), offsets, next);
    forall s
      ensures WithinDepth(tree, root, s, k + 1) <==> WithinDepth(tree, root, s, k) || Next(tree, root, s, k)
    {
      OneDeeper(tree, root, s, k);
    }
    forall s | s in next
      ensures s in Callees(order) && s !in known
    {
      assert (tree.primary(s).value, s) in order;
      if WithinDepth(tree, root, s, k) {
        var d: nat :| d <= k && Chain(tree, root, s, d);
        ChainIsUnique(tree, root, s, d, k + 1);
      }
    }
  }

  lemma RootLevel(tree: Tree, root: string)
    ensures AtLevel(tree, root, 0, [root], map[root := ServiceOffset(root, 0, 0)])
  {
    assert Chain(tree, root, root, 0);
    forall s
      ensures WithinDepth(tree, root, s, 0) <==> Chain(tree, root, s, 0)
    {
    }
  }

  lemma LastLevel(tree: Tree, root: string, k: nat, offsets: map<string, ServiceOffset>)
    requires AtLevel(tree, root, k, [], offsets)
    ensures Estimates(tree, root, offsets)
  {
    forall s | Chained(tree, root, s)
      ensures WithinDepth(tree, root, s, k)
    {
      var d: nat :| Chain(tree, root, s, d);
      if d > k {
        var t := ChainPasses(tree, root, s, d, k);
      }
    }
  }

  /** The frontier loop. */
  method SearchOutward(ghost tree: Tree, root: string, o: Observed) returns (offsets: map<string, ServiceOffset>)
    requires Tabulates(tree, o) && PrimariesListed(tree, o.order)
    ensures Estimates(tree, root, offsets)
  {
    offsets := map[root := ServiceOffset(root, 0, 0)];
    var frontier := [root];
    ghost var k: nat := 0;
    RootLevel(tree, root);
    while frontier != []
      invariant AtLevel(tree, root, k, frontier, offsets)
      decreases Callees(o.order) - offsets.Keys, |frontier|
    {
      ghost var known, level := offsets, frontier;
      LevelStarts(tree, root, k, frontier, offsets);
      offsets, frontier := FollowLevel(tree, root, k, o, frontier, offsets);
      LevelEnds(tree, root, k, o.order, level, known, offsets, frontier);
      if frontier != [] {
        assert frontier[0] in frontier;
      }
      k := k + 1;
    }
    LastLevel(tree, root, k, offsets);
  }

  lemma TreeIsListed(pairs: seq<Pair>, typical: real)
    ensures PrimariesListed(TreeOf(pairs, typical), EdgeOrder(pairs))
  {
    forall s
      ensures Primary(pairs, s).Some? ==> (Primary(pairs, s).value, s) in EdgeOrder(pairs)
    {
      PrimaryIs(pairs, s);
    }
  }

  lemma TreeIsTabulated(pairs: seq<Pair>, o: Observed)
    requires Indexes(pairs, o.order, o.gaps) && Counted(pairs, o.order, o.incoming)
    requires forall e :: e in o.order ==> e in o.medians && o.medians[e] == MedianGap(pairs, e)
    ensures Tabulates(TreeOf(pairs, o.typical), o)
  {
    forall e | e in o.order
      ensures EdgeTabulated(TreeOf(pairs, o.typical), o, e)
    {
      IncomingIs(pairs, o.order, e.1, (e.0, |GapsAlong(pairs, e)|));
      assert e == (e.0, e.1);
      assert CallersOf(o.incoming, e.1) == Incoming(pairs, o.order, e.1) != [];
    }
  }

  method MedianByEdge(ghost pairs: seq<Pair>, order: seq<Edge>, gaps: map<Edge, seq<real>>)
    returns (medians: map<Edge, real>, typical: real)
    requires pairs != [] && Indexes(pairs, order, gaps)
    ensures forall e :: e in order ==> e in medians && medians[e] == MedianGap(pairs, e)
    ensures typical == TypicalGap(pairs)
  {
    EdgeOrderIs(pairs, EdgeOf(pairs[0]));
    medians := map e | e in gaps :: Median(gaps[e]);
    var values := seq(|order|, i requires 0 <= i < |order| => medians[order[i]]);
    assert values == Medians(pairs, order);
    typical := MinByMagnitude(values);
  }

  method MinByMagnitude(values: seq<real>) returns (best: real)
    requires values != []
    ensures best == LeastMagnitude(values)
  {
    best := values[0];
    assert values[..1] == [values[0]];
    for i := 1 to |values|
      invariant best == LeastMagnitude(values[..i])
    {
      assert values[..i + 1][..i] == values[..i];
      if Abs(values[i]) < Abs(best) {
        best := values[i];
      }
    }
    assert values[..|values|] == values;
  }

  /** The estimates that some listing of the resolved calls leads to; none without calls. */
  ghost predicate EstimatesFrom(rows: seq<SpanRow>, root: string, offsets: map<string, ServiceOffset>) {
    exists pairs :: PairsUp(rows, pairs) && EstimatesFromPairs(pairs, root, offsets)
  }

  ghost predicate EstimatesFromPairs(pairs: seq<Pair>, root: string, offsets: map<string, ServiceOffset>) {
    if pairs == [] then offsets == map[] else Estimates(TreeOf(pairs, TypicalGap(pairs)), root, offsets)
  }

  method EstimateOffsets(rows: seq<SpanRow>, root: string) returns (offsets: map<string, ServiceOffset>)
    requires UniqueSpans(rows)
    ensures EstimatesFrom(rows, root, offsets)
  {
    var resolved := ResolvedPairs(rows);
    offsets := map[];
    if resolved != [] {
      offsets := EstimateFromPairs(resolved, root);
    }
    assert EstimatesFromPairs(resolved, root, offsets);
  }

  method EstimateFromPairs(pairs: seq<Pair>, root: string) returns (offsets: map<string, ServiceOffset>)
    requires pairs != []
    ensures Estimates(TreeOf(pairs, TypicalGap(pairs)), root, offsets)
  {
    var order, gaps := GapsByEdge(pairs);
    var medians, typical := MedianByEdge(pairs, order, gaps);
    var incoming := CountIncoming(pairs, order, gaps);
    var o := Observed(typical, order, medians, gaps, incoming);
    TreeIsListed(pairs, typical);
    TreeIsTabulated(pairs, o);
    offsets := SearchOutward(TreeOf(pairs, typical), root, o);
  }
}
