/**
  `dashboard/src/lib/flameGraph.ts`: `buildFlameNodes`, the depth-first twin of reassembly.
  The first pass is the same index that reassembly builds.
 */
module FlameGraph {
  import opened Collections
  import opened Spans
  import opened ParentChain
  import opened Reassembly

  datatype FlameNode = FlameNode(span: SpanRow, depth: nat, isOrphan: bool, inOrphanSubtree: bool) {
    function Id(): string {
      span.spanId
    }
  }

  function NodeIds(nodes: seq<FlameNode>): set<string> {
    set n | n in nodes :: n.Id()
  }

  predicate UniqueNodes(nodes: seq<FlameNode>) {
    forall i, j :: 0 <= i < j < |nodes| ==> nodes[i].Id() != nodes[j].Id()
  }

  /** i is the node of j's parent, one level up, and all that lies between them hangs below i. */
  predicate ParentAt(nodes: seq<FlameNode>, i: int, j: int) {
    && 0 <= i < j < |nodes|
    && nodes[j].span.parent == nodes[i].Id()
    && nodes[i].depth + 1 == nodes[j].depth
    && forall k :: i < k < j ==> nodes[k].depth > nodes[i].depth
  }

  /** Depth-first order: each node that is not at depth 0 follows its parent, inside its parent's stretch. */
  ghost predicate PreOrdered(nodes: seq<FlameNode>) {
    forall j {:trigger Placed(nodes, j)} :: 0 <= j < |nodes| && nodes[j].depth > 0 ==> Placed(nodes, j)
  }

  ghost predicate Placed(nodes: seq<FlameNode>, j: int) {
    exists i :: ParentAt(nodes, i, j)
  }

  /** The node tells the truth about its span's chain. */
  ghost predicate Faithful(par: map<string, string>, n: FlameNode) {
    && n.Id() in par && n.span.parent == par[n.Id()]
    && (n.isOrphan <==> IsOrphan(par, n.Id()))
    && exists seed :: Climbs(par, n.Id(), n.depth, seed) && seed in par && (n.inOrphanSubtree <==> IsOrphan(par, seed))
  }

  ghost predicate AllFaithful(par: map<string, string>, byId: map<string, SpanRow>, nodes: seq<FlameNode>) {
    forall n {:trigger Faithful(par, n)} :: n in nodes ==> Faithful(par, n) && n.Id() in byId && n.span == byId[n.Id()]
  }

  // ----- The order of siblings -----

  /** Siblings come in row order. */
  ghost predicate SiblingsInOrder(rows: seq<SpanRow>, nodes: seq<FlameNode>) {
    forall i, j :: 0 <= i < j < |nodes| && AreSiblings(nodes[i], nodes[j]) ==> IdBefore(rows, nodes[i].Id(), nodes[j].Id())
  }

  predicate AreSiblings(m: FlameNode, n: FlameNode) {
    m.depth > 0 && n.depth > 0 && m.span.parent == n.span.parent
  }

  /** Every sibling of n there is so far comes before it. */
  ghost predicate FollowsSiblings(rows: seq<SpanRow>, nodes: seq<FlameNode>, id: string, parent: string) {
    forall m :: m in nodes && m.depth > 0 && m.span.parent == parent ==> IdBefore(rows, m.Id(), id)
  }

  lemma SiblingsOneMore(rows: seq<SpanRow>, nodes: seq<FlameNode>, n: FlameNode)
    requires SiblingsInOrder(rows, nodes) && (n.depth > 0 ==> FollowsSiblings(rows, nodes, n.Id(), n.span.parent))
    ensures SiblingsInOrder(rows, nodes + [n])
  {
    forall i | 0 <= i < |nodes| && AreSiblings(nodes[i], n)
      ensures IdBefore(rows, nodes[i].Id(), n.Id())
    {
      assert nodes[i] in nodes;
    }
  }

  /** The seeds come in their order, roots before orphans. */
  ghost predicate TopsInOrder(seeds: seq<SpanRow>, nodes: seq<FlameNode>) {
    forall i, j :: 0 <= i < j < |nodes| && nodes[i].depth == 0 && nodes[j].depth == 0 ==> IdBefore(seeds, nodes[i].Id(), nodes[j].Id())
  }

  /** One walk: id first, then only what hangs below spans that were not there before. */
  ghost predicate WalkedFrom(visited0: set<string>, nodes0: seq<FlameNode>, nodes: seq<FlameNode>, id: string, parent: string) {
    && nodes0 <= nodes
    && (|nodes| > |nodes0| ==> nodes[|nodes0|].Id() == id && nodes[|nodes0|].span.parent == parent)
    && forall k :: |nodes0| < k < |nodes| ==> nodes[k].depth > 0 && nodes[k].span.parent !in visited0
  }

  /** All new nodes hang below id or below spans that were not there before. */
  ghost predicate GrownBelow(visited0: set<string>, nodes0: seq<FlameNode>, nodes: seq<FlameNode>, id: string, depth: nat) {
    && nodes0 <= nodes
    && forall k :: |nodes0| <= k < |nodes| ==>
         nodes[k].depth > depth && (nodes[k].span.parent == id || nodes[k].span.parent !in visited0)
  }

  lemma GrowsOneWalk(
    visited0: set<string>, nodes0: seq<FlameNode>, visited1: set<string>, nodes1: seq<FlameNode>, nodes: seq<FlameNode>,
    id: string, depth: nat, kid: string)
    requires GrownBelow(visited0, nodes0, nodes1, id, depth) && WalkedFrom(visited1, nodes1, nodes, kid, id) && visited0 <= visited1
    requires forall k :: |nodes1| <= k < |nodes| ==> nodes[k].depth >= depth + 1
    ensures GrownBelow(visited0, nodes0, nodes, id, depth)
  {
  }

  /** What hangs below id is among these of its children. */
  ghost predicate OnlyKids(nodes: seq<FlameNode>, id: string, kids: seq<string>) {
    forall n :: n in nodes && n.depth > 0 && n.span.parent == id ==> n.Id() in kids
  }

  lemma OnlyKidsOneWalk(
    visited0: set<string>, nodes0: seq<FlameNode>, nodes: seq<FlameNode>, id: string, kids: seq<string>, kid: string)
    requires OnlyKids(nodes0, id, kids) && WalkedFrom(visited0, nodes0, nodes, kid, id) && id in visited0
    ensures OnlyKids(nodes, id, kids + [kid])
  {
    forall n | n in nodes && n.depth > 0 && n.span.parent == id
      ensures n.Id() in kids + [kid]
    {
      var k :| 0 <= k < |nodes| && nodes[k] == n;
      if k < |nodes0| {
        assert nodes0[k] in nodes0;
      }
    }
  }

  /** In a pre-order nothing hangs below a span that is not there. */
  lemma NothingBelowAbsent(nodes: seq<FlameNode>, id: string)
    requires PreOrdered(nodes) && id !in NodeIds(nodes)
    ensures OnlyKids(nodes, id, [])
  {
    forall n | n in nodes && n.depth > 0
      ensures n.span.parent != id
    {
      var j :| 0 <= j < |nodes| && nodes[j] == n;
      assert Placed(nodes, j);
      var i :| ParentAt(nodes, i, j);
      assert nodes[i] in nodes;
    }
  }

  class Walker {
    ghost const rows: seq<SpanRow>
    const byId: map<string, SpanRow>
    const children: map<string, seq<string>>
    ghost const par: map<string, string>
    var nodes: seq<FlameNode>
    var visited: set<string>

    constructor (
      ghost rows: seq<SpanRow>, byId: map<string, SpanRow>, children: map<string, seq<string>>, ghost par: map<string, string>)
      ensures nodes == [] && visited == {}
      ensures this.rows == rows && this.byId == byId && this.children == children && this.par == par
    {
      this.rows, this.byId, this.children, this.par := rows, byId, children, par;
      nodes, visited := [], {};
    }

    /** The index and the links agree. */
    ghost predicate Fixed() {
      && Indexes(children, par) && KidsInOrder(rows, children)
      && byId.Keys == par.Keys && (forall id :: id in byId ==> byId[id].spanId == id && byId[id].parent == par[id])
    }

    ghost predicate Valid()
      reads this
    {
      && visited == NodeIds(nodes) && UniqueNodes(nodes)
      && PreOrdered(nodes) && SiblingsInOrder(rows, nodes)
      && AllFaithful(par, byId, nodes)
    }

    /** `nodes.push` for a span not met before. */
    method Visit(id: string, depth: nat, isOrphanSeed: bool, inOrphanSubtree: bool, ghost seed: string, ghost above: int)
      requires Fixed() && Valid() && id !in visited && Climbs(par, id, depth, seed) && seed in par
      requires (isOrphanSeed <==> IsOrphan(par, id)) && (inOrphanSubtree <==> IsOrphan(par, seed))
      requires depth > 0 ==> Open(nodes, above, par[id], depth) && FollowsSiblings(rows, nodes, id, par[id])
      modifies this`nodes, this`visited
      ensures Valid() && visited == old(visited) + {id}
      ensures nodes == old(nodes) + [FlameNode(byId[id], depth, isOrphanSeed, inOrphanSubtree)]
    {
      var n := FlameNode(byId[id], depth, isOrphanSeed, inOrphanSubtree);
      Appended(nodes, n, above);
      SiblingsOneMore(rows, nodes, n);
      assert AllFaithful(par, byId, nodes + [n]) by {
        assert Faithful(par, n);
        assert forall m :: m in nodes + [n] <==> m in nodes || m == n;
      }
      visited := visited + {id};
      nodes := nodes + [n];
    }

    method Walk(id: string, depth: nat, isOrphanSeed: bool, inOrphanSubtree: bool, ghost seed: string, ghost above: int)
      requires Fixed() && Valid() && Climbs(par, id, depth, seed) && seed in par
      requires (isOrphanSeed <==> IsOrphan(par, id)) && (inOrphanSubtree <==> IsOrphan(par, seed))
      requires depth > 0 ==> Open(nodes, above, par[id], depth) && (id !in visited ==> FollowsSiblings(rows, nodes, id, par[id]))
      modifies this`nodes, this`visited
      ensures Valid() && old(visited) <= visited && id in visited
      ensures WalkedFrom(old(visited), old(nodes), nodes, id, par[id])
      ensures forall k :: |old(nodes)| <= k < |nodes| ==> nodes[k].depth >= depth
      ensures ClosedSince(old(visited))
      decreases par.Keys - visited, 0
    {
      if id in visited {
        return;
      }
      NothingBelowAbsent(nodes, id);
      Visit(id, depth, isOrphanSeed, inOrphanSubtree, seed, above);
      ghost var at := |nodes| - 1;
      assert OnlyKids(nodes, id, []) by {
        assert nodes[at].depth > 0 ==> nodes[at].span.parent != id;
      }
      WalkKids(id, depth, inOrphanSubtree, seed, at);
    }

    /** The loop over one span's children. */
    method WalkKids(id: string, depth: nat, inOrphanSubtree: bool, ghost seed: string, ghost at: int)
      requires Fixed() && Valid() && id in visited && Climbs(par, id, depth, seed) && seed in par
      requires (inOrphanSubtree <==> IsOrphan(par, seed)) && Open(nodes, at, id, depth + 1) && OnlyKids(nodes, id, [])
      modifies this`nodes, this`visited
      ensures Valid() && old(visited) <= visited
      ensures GrownBelow(old(visited), old(nodes), nodes, id, depth)
      ensures ClosedSince(old(visited)) && forall c :: c in Kids(children, id) ==> c in visited
      decreases par.Keys - visited, 1
    {
      ghost var nodes0, visited0 := nodes, visited;
      var kids := Kids(children, id);
      ghost var seen: seq<string> := [];
      for k := 0 to |kids|
        invariant Valid() && visited0 <= visited && seen == kids[..k]
        invariant Open(nodes, at, id, depth + 1) && GrownBelow(visited0, nodes0, nodes, id, depth)
        invariant (forall c :: c in seen ==> c in visited) && OnlyKids(nodes, id, seen)
        invariant ClosedSince(visited0)
      {
        assert kids[k] in kids;
        ghost var nodes1, visited1 := nodes, visited;
        KidFollowsSiblings(rows, nodes, id, kids, k);
        Walk(kids[k], depth + 1, false, inOrphanSubtree, seed, at);
        OnlyKidsOneWalk(visited1, nodes1, nodes, id, seen, kids[k]);
        GrowsOneWalk(visited0, nodes0, visited1, nodes1, nodes, id, depth, kids[k]);
        seen := seen + [kids[k]];
      }
      assert seen == kids;
    }

    /** Whatever was visited after `visited0` has all its children visited. */
    ghost predicate ClosedSince(visited0: set<string>)
      reads this
    {
      forall x, c :: x in visited && x !in visited0 && c in Kids(children, x) ==> c in visited
    }
  }

  lemma KidFollowsSiblings(rows: seq<SpanRow>, nodes: seq<FlameNode>, id: string, kids: seq<string>, k: nat)
    requires k < |kids| && IdsInOrder(rows, kids) && OnlyKids(nodes, id, kids[..k])
    ensures FollowsSiblings(rows, nodes, kids[k], id)
  {
    forall m | m in nodes && m.depth > 0 && m.span.parent == id
      ensures IdBefore(rows, m.Id(), kids[k])
    {
      var x :| 0 <= x < k && kids[x] == m.Id();
    }
  }

  /** Node i has this id, and all later nodes so far hang below it. */
  ghost predicate Open(nodes: seq<FlameNode>, i: int, id: string, depth: nat) {
    && 0 <= i < |nodes| && nodes[i].Id() == id && nodes[i].depth + 1 == depth
    && forall k :: i < k < |nodes| ==> nodes[k].depth >= depth
  }

  /** One more node inside its parent's stretch keeps the order. */
  lemma Appended(nodes: seq<FlameNode>, n: FlameNode, above: int)
    requires PreOrdered(nodes) && UniqueNodes(nodes) && n.Id() !in NodeIds(nodes)
    requires n.depth > 0 ==> Open(nodes, above, n.span.parent, n.depth)
    ensures PreOrdered(nodes + [n]) && UniqueNodes(nodes + [n]) && NodeIds(nodes + [n]) == NodeIds(nodes) + {n.Id()}
  {
    var nodes' := nodes + [n];
    assert NodeIds(nodes') == NodeIds(nodes) + {n.Id()} by {
      assert forall m :: m in nodes' <==> m in nodes || m == n;
    }
    assert UniqueNodes(nodes') by {
      assert forall k :: 0 <= k < |nodes| ==> nodes[k] in nodes;
    }
    forall j | 0 <= j < |nodes'| && nodes'[j].depth > 0
      ensures Placed(nodes', j)
    {
      var i := above;
      if j < |nodes| {
        assert Placed(nodes, j);
        i :| ParentAt(nodes, i, j);
      }
      assert ParentAt(nodes', i, j);
    }
  }

  /** Roots come first, then orphans, and both are seeds. */
  ghost predicate SeedAt(par: map<string, string>, seeds: seq<SpanRow>, roots: nat, i: int)
    requires 0 <= i < |seeds|
  {
    var id := seeds[i].spanId;
    id in par && IsSeed(par, id) && (IsOrphan(par, id) <==> i >= roots)
  }

  lemma SeedKinds(spans: seq<SpanRow>)
    requires UniqueIds(spans)
    ensures var seeds := RootRows(spans) + OrphanRows(spans, Ids(spans));
            forall i {:trigger SeedAt(Parents(spans), seeds, |RootRows(spans)|, i)} :: 0 <= i < |seeds| ==>
                   SeedAt(Parents(spans), seeds, |RootRows(spans)|, i)
  {
    var roots, orphans := RootRows(spans), OrphanRows(spans, Ids(spans));
    forall i | 0 <= i < |roots + orphans|
      ensures SeedAt(Parents(spans), roots + orphans, |roots|, i)
    {
      var s := (roots + orphans)[i];
      RootRowsAre(spans, s);
      OrphanRowsAre(spans, Ids(spans), s);
      assert if i < |roots| then s in roots else s in orphans;
      ParentsOfUnique(spans, s);
    }
  }

  method IndexById(spans: seq<SpanRow>) returns (byId: map<string, SpanRow>)
    requires UniqueIds(spans)
    ensures byId.Keys == Parents(spans).Keys
    ensures forall id :: id in byId ==> byId[id] in spans && byId[id].spanId == id && byId[id].parent == Parents(spans)[id]
  {
    byId := map s | s in spans :: s.spanId := s;
    forall s | s in spans
      ensures Parents(spans)[s.spanId] == s.parent
    {
      ParentsOfUnique(spans, s);
    }
  }

  /** A walk from the next seed adds at most that seed at the top. */
  lemma TopsOneWalk(
    seeds: seq<SpanRow>, s: SpanRow, visited0: set<string>, nodes0: seq<FlameNode>, nodes: seq<FlameNode>, parent: string)
    requires TopsInOrder(seeds, nodes0) && TopsAreSeeds(seeds, nodes0) && WalkedFrom(visited0, nodes0, nodes, s.spanId, parent)
    ensures TopsInOrder(seeds + [s], nodes) && TopsAreSeeds(seeds + [s], nodes)
  {
    assert seeds[..|seeds|] == seeds && (seeds + [s])[|seeds|] == s;
    forall i, j | 0 <= i < j < |nodes| && nodes[i].depth == 0 && nodes[j].depth == 0
      ensures IdBefore(seeds + [s], nodes[i].Id(), nodes[j].Id())
    {
      assert nodes0[i] == nodes[i] && nodes0[i] in nodes0;
      IdBeforeOneMore(seeds, s, nodes[i].Id(), nodes[j].Id());
    }
    forall n | n in nodes && n.depth == 0
      ensures HasId(seeds + [s], n.Id())
    {
      var k :| 0 <= k < |nodes| && nodes[k] == n;
      if k < |nodes0| {
        assert nodes0[k] in nodes0;
        var q :| q in seeds && q.spanId == n.Id();
        assert q in seeds + [s];
      } else {
        assert s in seeds + [s];
      }
    }
  }

  ghost predicate TopsAreSeeds(seeds: seq<SpanRow>, nodes: seq<FlameNode>) {
    forall n :: n in nodes && n.depth == 0 ==> HasId(seeds, n.Id())
  }

  // ----- Seeds are in row order, roots and orphans apart -----

  ghost predicate RowsInOrder(rows: seq<SpanRow>, some: seq<SpanRow>) {
    forall i, j :: 0 <= i < j < |some| ==> IdBefore(rows, some[i].spanId, some[j].spanId)
  }

  lemma {:induction false} SeedRowsInOrder(rows: seq<SpanRow>, ids: set<string>)
    ensures RowsInOrder(rows, RootRows(rows)) && RowsInOrder(rows, OrphanRows(rows, ids))
  {
    if rows == [] {
    } else {
      var init, last := rows[..|rows| - 1], rows[|rows| - 1];
      assert rows == init + [last];
      SeedRowsInOrder(init, ids);
      forall r | r in RootRows(init) || r in OrphanRows(init, ids)
        ensures HasId(init, r.spanId)
      {
        RootRowsAre(init, r);
        OrphanRowsAre(init, ids, r);
      }
      RowsInOrderOneMore(init, last, RootRows(init));
      RowsInOrderOneMore(init, last, OrphanRows(init, ids));
    }
  }

  lemma RowsInOrderOneMore(rows: seq<SpanRow>, last: SpanRow, some: seq<SpanRow>)
    requires RowsInOrder(rows, some) && forall r :: r in some ==> HasId(rows, r.spanId)
    ensures RowsInOrder(rows + [last], some) && RowsInOrder(rows + [last], some + [last])
  {
    var more := some + [last];
    forall i, j | 0 <= i < j < |more|
      ensures IdBefore(rows + [last], more[i].spanId, more[j].spanId)
    {
      assert more[i] == some[i] && some[i] in some;
      IdBeforeOneMore(rows, last, more[i].spanId, more[j].spanId);
    }
    forall i, j | 0 <= i < j < |some|
      ensures IdBefore(rows + [last], some[i].spanId, some[j].spanId)
    {
      assert more[i] == some[i] && more[j] == some[j];
    }
  }

  /** Where nothing of depth 0 comes twice: roots in row order, then orphans in row order. */
  ghost predicate SeedsInOrder(rows: seq<SpanRow>, nodes: seq<FlameNode>) {
    forall i, j :: 0 <= i < j < |nodes| && nodes[i].depth == 0 && nodes[j].depth == 0 ==>
      if nodes[i].isOrphan == nodes[j].isOrphan then IdBefore(rows, nodes[i].Id(), nodes[j].Id()) else nodes[j].isOrphan
  }

  lemma SeedPositions(roots: seq<SpanRow>, orphans: seq<SpanRow>, rows: seq<SpanRow>, par: map<string, string>, a: string, b: string)
    requires IdBefore(roots + orphans, a, b) && RowsInOrder(rows, roots) && RowsInOrder(rows, orphans)
    requires forall i {:trigger SeedAt(par, roots + orphans, |roots|, i)} :: 0 <= i < |roots + orphans| ==>
                       SeedAt(par, roots + orphans, |roots|, i)
    ensures a in par && b in par
    ensures if IsOrphan(par, a) == IsOrphan(par, b) then IdBefore(rows, a, b) else IsOrphan(par, b)
  {
    var seeds := roots + orphans;
    var i, j :| 0 <= i < j < |seeds| && seeds[i].spanId == a && seeds[j].spanId == b;
    assert SeedAt(par, seeds, |roots|, i) && SeedAt(par, seeds, |roots|, j);
    if j < |roots| {
      assert seeds[i] == roots[i] && seeds[j] == roots[j];
    } else if i >= |roots| {
      assert seeds[i] == orphans[i - |roots|] && seeds[j] == orphans[j - |roots|];
    }
  }

  lemma TopsAreInOrder(
    rows: seq<SpanRow>, roots: seq<SpanRow>, orphans: seq<SpanRow>, par: map<string, string>, nodes: seq<FlameNode>)
    requires RowsInOrder(rows, roots) && RowsInOrder(rows, orphans) && TopsInOrder(roots + orphans, nodes)
    requires forall i {:trigger SeedAt(par, roots + orphans, |roots|, i)} :: 0 <= i < |roots + orphans| ==>
                       SeedAt(par, roots + orphans, |roots|, i)
    requires forall n {:trigger Faithful(par, n)} :: n in nodes ==> Faithful(par, n)
    ensures SeedsInOrder(rows, nodes)
  {
    forall i, j | 0 <= i < j < |nodes| && nodes[i].depth == 0 && nodes[j].depth == 0
      ensures if nodes[i].isOrphan == nodes[j].isOrphan then IdBefore(rows, nodes[i].Id(), nodes[j].Id()) else nodes[j].isOrphan
    {
      assert nodes[i] in nodes && nodes[j] in nodes && Faithful(par, nodes[i]) && Faithful(par, nodes[j]);
      SeedPositions(roots, orphans, rows, par, nodes[i].Id(), nodes[j].Id());
    }
  }

  /**
    Exactly the anchored spans, each once, in depth-first order, at the depth of its climb; siblings
    in row order, roots before orphans and both in row order.
   */
  method BuildFlameNodes(spans: seq<SpanRow>) returns (nodes: seq<FlameNode>)
    requires UniqueIds(spans)
    ensures UniqueNodes(nodes) && PreOrdered(nodes)
    ensures forall n :: n in nodes ==> n.span in spans && Faithful(Parents(spans), n)
    ensures forall id :: id in NodeIds(nodes) <==> Anchored(Parents(spans), id)
    ensures SiblingsInOrder(spans, nodes) && SeedsInOrder(spans, nodes)
  {
    var byId := IndexById(spans);
    var ids, roots, orphans, children := IndexTrace(spans);
    SeedKinds(spans);
    SeedRowsInOrder(spans, ids);
    var w := WalkSeeds(spans, byId, children, roots + orphans, |roots|, Parents(spans));
    nodes := w.nodes;
    SeedsAre(spans);
    WalkedAll(Parents(spans), children, w.visited, roots + orphans);
    forall n | n in nodes
      ensures n.span in spans && Faithful(Parents(spans), n)
    {
      assert Faithful(w.par, n);
    }
    TopsAreInOrder(spans, roots, orphans, Parents(spans), nodes);
  }

  method WalkSeeds(
    ghost rows: seq<SpanRow>, byId: map<string, SpanRow>, children: map<string, seq<string>>, seeds: seq<SpanRow>, roots: nat,
    ghost par: map<string, string>)
    returns (w: Walker)
    requires Indexes(children, par) && KidsInOrder(rows, children)
    requires byId.Keys == par.Keys && (forall id :: id in byId ==> byId[id].spanId == id && byId[id].parent == par[id])
    requires forall i {:trigger SeedAt(par, seeds, roots, i)} :: 0 <= i < |seeds| ==> SeedAt(par, seeds, roots, i)
    ensures fresh(w) && w.Fixed() && w.Valid() && w.rows == rows && w.par == par && w.byId == byId && w.children == children
    ensures ClosedBelow(children, w.visited, []) && Ids(seeds) <= w.visited && TopsInOrder(seeds, w.nodes)
  {
    w := new Walker(rows, byId, children, par);
    for i := 0 to |seeds|
      invariant fresh(w) && w.Valid() && ClosedBelow(children, w.visited, [])
      invariant Ids(seeds[..i]) <= w.visited
      invariant TopsInOrder(seeds[..i], w.nodes) && TopsAreSeeds(seeds[..i], w.nodes)
    {
      assert SeedAt(par, seeds, roots, i);
      var isOrphan := i >= roots;
      ghost var nodes0, visited0 := w.nodes, w.visited;
      w.Walk(seeds[i].spanId, 0, isOrphan, isOrphan, seeds[i].spanId, -1);
      TopsOneWalk(seeds[..i], seeds[i], visited0, nodes0, w.nodes, par[seeds[i].spanId]);
      assert seeds[..i + 1] == seeds[..i] + [seeds[i]];
    }
    assert seeds[..|seeds|] == seeds;
  }

  lemma WalkedAll(par: map<string, string>, children: map<string, seq<string>>, visited: set<string>, seeds: seq<SpanRow>)
    requires Indexes(children, par) && ClosedBelow(children, visited, [])
    requires Ids(seeds) <= visited
    requires forall id :: id in par && IsSeed(par, id) ==> HasId(seeds, id)
    ensures forall id :: Anchored(par, id) ==> id in visited
  {
    forall id | Anchored(par, id)
      ensures id in visited
    {
      var n: nat, seed :| Climbs(par, id, n, seed);
      ClimbEndsAtSeed(par, id, n, seed);
      assert HasId(seeds, seed);
      ClosedReachesClimbers(par, children, visited, id, n, seed);
    }
  }
}
