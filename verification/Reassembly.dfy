/** `analyzer/reassembly.py`: breadth-first reassembly of one trace, against the parent-chain reading of its links. */
module Reassembly {
  import opened Spans
  import opened ParentChain

  datatype Label = Ok | OrphanMissingParent | CycleRejected

  datatype Classification = Classification(spanId: string, verdict: Label)

  datatype Reason = Complete | MissingRoot | MultipleRoots | Orphaned | Cyclic

  datatype TraceSummary = TraceSummary(depth: nat, spanCount: nat, rootService: string, reason: Reason, orphanCount: nat)

  /** What a span's label means: the fate of its own parent link, or of its whole chain. */
  ghost function LabelOf(par: map<string, string>, id: string): Label
    requires id in par
  {
    if IsOrphan(par, id) then OrphanMissingParent
    else if Anchored(par, id) then Ok
    else CycleRejected
  }

  // ----- The index built in the first pass -----

  function RootRows(rows: seq<SpanRow>): seq<SpanRow> {
    if rows == [] then []
    else
      var last := rows[|rows| - 1];
      RootRows(rows[..|rows| - 1]) + if last.parent == "" then [last] else []
  }

  function OrphanRows(rows: seq<SpanRow>, ids: set<string>): seq<SpanRow> {
    if rows == [] then []
    else
      var last := rows[|rows| - 1];
      OrphanRows(rows[..|rows| - 1], ids) + if last.parent != "" && last.parent !in ids then [last] else []
  }

  lemma {:induction false} RootRowsAre(rows: seq<SpanRow>, r: SpanRow)
    ensures r in RootRows(rows) <==> r in rows && r.parent == ""
  {
    if rows == [] {
    } else {
      var init, last := rows[..|rows| - 1], rows[|rows| - 1];
      assert rows == init + [last];
      RootRowsAre(init, r);
    }
  }

  lemma {:induction false} OrphanRowsAre(rows: seq<SpanRow>, ids: set<string>, r: SpanRow)
    ensures r in OrphanRows(rows, ids) <==> r in rows && r.parent != "" && r.parent !in ids
  {
    if rows == [] {
    } else {
      var init, last := rows[..|rows| - 1], rows[|rows| - 1];
      assert rows == init + [last];
      OrphanRowsAre(init, ids, r);
    }
  }

  function Kids(children: map<string, seq<string>>, p: string): seq<string> {
    if p in children then children[p] else []
  }

  /** The child index holds exactly the resolved links. */
  ghost predicate Indexes(children: map<string, seq<string>>, par: map<string, string>) {
    forall p, c :: c in Kids(children, p) <==> c in par && !IsSeed(par, c) && par[c] == p
  }

  ghost predicate LinkedIn(rows: seq<SpanRow>, ids: set<string>, p: string, c: string) {
    exists r :: r in rows && r.spanId == c && r.parent == p && p != "" && p in ids
  }

  lemma LinkedInOneMore(rows: seq<SpanRow>, r: SpanRow, ids: set<string>)
    ensures forall p, c :: LinkedIn(rows + [r], ids, p, c) <==>
                           LinkedIn(rows, ids, p, c) || (r.spanId == c && r.parent == p && p != "" && p in ids)
  {
    assert forall x :: x in rows + [r] <==> x in rows || x == r;
  }

  /** The index of the rows seen so far. */
  ghost predicate IndexesSoFar(children: map<string, seq<string>>, rows: seq<SpanRow>, ids: set<string>) {
    forall p, c :: c in Kids(children, p) <==> LinkedIn(rows, ids, p, c)
  }

  lemma IndexesOneMore(children: map<string, seq<string>>, rows: seq<SpanRow>, ids: set<string>, r: SpanRow)
    requires IndexesSoFar(children, rows, ids)
    ensures if r.parent == "" || r.parent !in ids then IndexesSoFar(children, rows + [r], ids)
            else IndexesSoFar(children[r.parent := Kids(children, r.parent) + [r.spanId]], rows + [r], ids)
  {
    LinkedInOneMore(rows, r, ids);
    var children' := children[r.parent := Kids(children, r.parent) + [r.spanId]];
    assert forall p :: Kids(children', p) == Kids(children, p) + if p == r.parent then [r.spanId] else [];
  }

  lemma LinkedInAll(rows: seq<SpanRow>)
    requires UniqueIds(rows)
    ensures forall p, c :: LinkedIn(rows, Ids(rows), p, c) <==>
                           c in Parents(rows) && !IsSeed(Parents(rows), c) && Parents(rows)[c] == p
  {
    forall p, c
      ensures LinkedIn(rows, Ids(rows), p, c) <==>
              c in Parents(rows) && !IsSeed(Parents(rows), c) && Parents(rows)[c] == p
    {
      LinkedInIs(rows, p, c);
    }
  }

  lemma LinkedInIs(rows: seq<SpanRow>, p: string, c: string)
    requires UniqueIds(rows)
    ensures LinkedIn(rows, Ids(rows), p, c) <==> c in Parents(rows) && !IsSeed(Parents(rows), c) && Parents(rows)[c] == p
  {
    if c in Ids(rows) {
      var r :| r in rows && r.spanId == c;
      ParentsOfUnique(rows, r);
      forall s | s in rows && s.spanId == c
        ensures s == r
      {
        RowsById(rows, s, r);
      }
    }
  }

  /** The row of a comes before that of b. */
  ghost predicate IdBefore(rows: seq<SpanRow>, a: string, b: string) {
    exists i, j :: 0 <= i < j < |rows| && rows[i].spanId == a && rows[j].spanId == b
  }

  lemma IdBeforeOneMore(rows: seq<SpanRow>, r: SpanRow, a: string, b: string)
    ensures IdBefore(rows, a, b) ==> IdBefore(rows + [r], a, b)
    ensures b == r.spanId && HasId(rows, a) ==> IdBefore(rows + [r], a, b)
  {
    var all := rows + [r];
    if IdBefore(rows, a, b) {
      var i, j :| 0 <= i < j < |rows| && rows[i].spanId == a && rows[j].spanId == b;
      assert all[i].spanId == a && all[j].spanId == b;
    }
    if b == r.spanId && HasId(rows, a) {
      var q :| q in rows && q.spanId == a;
      var i :| 0 <= i < |rows| && rows[i] == q;
      assert all[i].spanId == a && all[|rows|].spanId == b;
    }
  }

  ghost predicate IdsInOrder(rows: seq<SpanRow>, ids: seq<string>) {
    forall x, y :: 0 <= x < y < |ids| ==> IdBefore(rows, ids[x], ids[y])
  }

  /** Each list of children is in row order. */
  ghost predicate KidsInOrder(rows: seq<SpanRow>, children: map<string, seq<string>>) {
    forall p :: IdsInOrder(rows, Kids(children, p))
  }

  lemma IdsInOrderOneMore(rows: seq<SpanRow>, r: SpanRow, ids: seq<string>)
    requires IdsInOrder(rows, ids)
    ensures IdsInOrder(rows + [r], ids)
    ensures (forall id :: id in ids ==> HasId(rows, id)) ==> IdsInOrder(rows + [r], ids + [r.spanId])
  {
    forall x, y | 0 <= x < y < |ids|
      ensures IdBefore(rows + [r], ids[x], ids[y])
    {
      IdBeforeOneMore(rows, r, ids[x], ids[y]);
    }
    if forall id :: id in ids ==> HasId(rows, id) {
      forall x | 0 <= x < |ids|
        ensures IdBefore(rows + [r], ids[x], r.spanId)
      {
        IdBeforeOneMore(rows, r, ids[x], r.spanId);
      }
    }
  }

  lemma KidsInOrderOneMore(children: map<string, seq<string>>, rows: seq<SpanRow>, ids: set<string>, r: SpanRow)
    requires IndexesSoFar(children, rows, ids) && KidsInOrder(rows, children)
    ensures KidsInOrder(rows + [r], children)
    ensures KidsInOrder(rows + [r], children[r.parent := Kids(children, r.parent) + [r.spanId]])
  {
    var children' := children[r.parent := Kids(children, r.parent) + [r.spanId]];
    forall p
      ensures IdsInOrder(rows + [r], Kids(children, p)) && IdsInOrder(rows + [r], Kids(children', p))
    {
      forall c | c in Kids(children, p)
        ensures HasId(rows, c)
      {
        assert LinkedIn(rows, ids, p, c);
      }
      IdsInOrderOneMore(rows, r, Kids(children, p));
    }
  }

  method IndexTrace(rows: seq<SpanRow>)
    returns (ids: set<string>, roots: seq<SpanRow>, orphans: seq<SpanRow>, children: map<string, seq<string>>)
    requires UniqueIds(rows)
    ensures ids == Ids(rows)
    ensures roots == RootRows(rows) && orphans == OrphanRows(rows, ids)
    ensures Indexes(children, Parents(rows)) && KidsInOrder(rows, children)
  {
    ids := set r | r in rows :: r.spanId;
    roots, orphans, children := [], [], map[];
    for i := 0 to |rows|
      invariant roots == RootRows(rows[..i]) && orphans == OrphanRows(rows[..i], ids)
      invariant IndexesSoFar(children, rows[..i], ids) && KidsInOrder(rows[..i], children)
    {
      var r := rows[i];
      assert rows[..i + 1] == rows[..i] + [r];
      IndexesOneMore(children, rows[..i], ids, r);
      KidsInOrderOneMore(children, rows[..i], ids, r);
      if r.parent == "" {
        roots := roots + [r];
      } else if r.parent !in ids {
        orphans := orphans + [r];
      } else {
        children := children[r.parent := Kids(children, r.parent) + [r.spanId]];
      }
    }
    assert rows[..|rows|] == rows;
    LinkedInAll(rows);
  }

  // ----- Reachability -----

  ghost predicate ClosedBelow(children: map<string, seq<string>>, visited: set<string>, pending: seq<string>) {
    forall id, c :: id in visited && c in Kids(children, id) ==> c in visited || c in pending
  }

  ghost predicate AllAnchored(par: map<string, string>, ids: set<string>) {
    forall id :: id in ids ==> Anchored(par, id)
  }

  method BfsMark(seed: string, children: map<string, seq<string>>, visited0: set<string>, ghost par: map<string, string>)
    returns (visited: set<string>)
    requires Indexes(children, par) && seed in par && IsSeed(par, seed)
    requires visited0 <= par.Keys && AllAnchored(par, visited0) && ClosedBelow(children, visited0, [])
    ensures visited0 + {seed} <= visited <= par.Keys
    ensures AllAnchored(par, visited) && ClosedBelow(children, visited, [])
  {
    visited := visited0;
    var queue := [seed];
    assert Climbs(par, seed, 0, seed);
    while queue != []
      invariant visited0 <= visited <= par.Keys && (seed in visited || seed in queue)
      invariant forall id :: id in queue ==> id in par && Anchored(par, id)
      invariant AllAnchored(par, visited) && ClosedBelow(children, visited, queue)
      decreases par.Keys - visited, |queue|
    {
      var id := queue[0];
      assert forall x :: x in queue ==> x == id || x in queue[1..];
      queue := queue[1..];
      if id !in visited {
        visited := visited + {id};
        forall c | c in Kids(children, id)
          ensures Anchored(par, c)
        {
          var n: nat, s :| Climbs(par, id, n, s);
          assert Climbs(par, c, n + 1, s);
        }
        queue := queue + Kids(children, id);
      }
    }
  }

  lemma {:induction false} ClosedReachesClimbers(
    par: map<string, string>, children: map<string, seq<string>>, visited: set<string>, id: string, n: nat, seed: string)
    requires Indexes(children, par) && ClosedBelow(children, visited, [])
    requires Climbs(par, id, n, seed) && seed in visited
    ensures id in visited
    decreases n
  {
    if n > 0 {
      ClosedReachesClimbers(par, children, visited, par[id], n - 1, seed);
      assert id in Kids(children, par[id]);
    }
  }

  /** Every seed's marking together: exactly the anchored spans. */
  method MarkFrom(seeds: seq<SpanRow>, children: map<string, seq<string>>, ghost par: map<string, string>)
    returns (visited: set<string>)
    requires Indexes(children, par)
    requires forall id :: HasId(seeds, id) <==> id in par && IsSeed(par, id)
    ensures forall id :: id in visited <==> Anchored(par, id)
  {
    visited := {};
    for i := 0 to |seeds|
      invariant visited <= par.Keys && AllAnchored(par, visited) && ClosedBelow(children, visited, [])
      invariant forall k :: 0 <= k < i ==> seeds[k].spanId in visited
    {
      assert seeds[i] in seeds && HasId(seeds, seeds[i].spanId);
      visited := BfsMark(seeds[i].spanId, children, visited, par);
    }
    forall id | Anchored(par, id)
      ensures id in visited
    {
      var n: nat, seed :| Climbs(par, id, n, seed);
      ClimbEndsAtSeed(par, id, n, seed);
      assert HasId(seeds, seed);
      ClosedReachesClimbers(par, children, visited, id, n, seed);
    }
  }

  // ----- Depth -----

  ghost predicate Tracked(par: map<string, string>, queue: seq<(string, nat)>, seed: string) {
    forall e :: e in queue ==> e.1 > 0 && Climbs(par, e.0, e.1 - 1, seed)
  }

  ghost predicate Waiting(queue: seq<(string, nat)>, id: string) {
    exists d :: (id, d) in queue
  }

  method SubtreeDepth(seed: string, children: map<string, seq<string>>, ghost par: map<string, string>) returns (maxDepth: nat)
    requires Indexes(children, par) && seed in par && IsSeed(par, seed)
    ensures maxDepth == Depth(par, seed)
  {
    maxDepth := 1;
    var seen := {seed};
    var queue: seq<(string, nat)> := [(seed, 1)];
    ghost var done: set<string> := {};
    assert Climbs(par, seed, 0, seed);
    assert (seed, 1) in queue;
    while queue != []
      invariant done <= seen <= par.Keys && seed in seen
      invariant Tracked(par, queue, seed) && forall e :: e in queue ==> e.0 in seen
      invariant forall id :: id in seen ==> id in done || Waiting(queue, id)
      invariant forall id, c :: id in done && c in Kids(children, id) ==> c in seen
      invariant forall id, n: nat :: id in done && Climbs(par, id, n, seed) ==> n < maxDepth
      invariant maxDepth > 0 && HasHeight(par, seed, maxDepth - 1)
      decreases par.Keys - seen, |queue|
    {
      var (id, depth) := queue[0];
      assert forall e :: e in queue ==> e == (id, depth) || e in queue[1..];
      assert (id, depth) in queue;
      queue := queue[1..];
      if depth > maxDepth {
        maxDepth := depth;
        assert Climbs(par, id, maxDepth - 1, seed);
      }
      forall n: nat | Climbs(par, id, n, seed)
        ensures n == depth - 1
      {
        ClimbIsUnique(par, id, n, seed, depth - 1, seed);
      }
      seen, queue := PushKids(id, depth, children, seen, queue, par, seed);
      done := done + {id};
    }
    forall id, n: nat | Climbs(par, id, n, seed)
      ensures n < maxDepth
    {
      assert ClosedBelow(children, done, []);
      ClosedReachesClimbers(par, children, done, id, n, seed);
    }
    DepthIs(par, seed, maxDepth);
  }

  /** The loop over one span's children. */
  method PushKids(
    id: string, depth: nat, children: map<string, seq<string>>, seen0: set<string>, queue0: seq<(string, nat)>,
    ghost par: map<string, string>, ghost seed: string)
    returns (seen: set<string>, queue: seq<(string, nat)>)
    requires Indexes(children, par) && seen0 <= par.Keys && Tracked(par, queue0, seed)
    requires depth > 0 && Climbs(par, id, depth - 1, seed) && forall e :: e in queue0 ==> e.0 in seen0
    ensures seen0 <= seen <= par.Keys && Tracked(par, queue, seed) && forall e :: e in queue ==> e.0 in seen
    ensures seen == seen0 ==> |queue| == |queue0|
    ensures forall x :: x in seen && x !in seen0 ==> Waiting(queue, x)
    ensures forall x :: Waiting(queue0, x) ==> Waiting(queue, x)
    ensures forall c :: c in Kids(children, id) ==> c in seen
  {
    seen, queue := seen0, queue0;
    var kids := Kids(children, id);
    for k := 0 to |kids|
      invariant seen0 <= seen <= par.Keys && Tracked(par, queue, seed) && forall e :: e in queue ==> e.0 in seen
      invariant seen == seen0 ==> |queue| == |queue0|
      invariant forall x :: x in seen && x !in seen0 ==> Waiting(queue, x)
      invariant queue0 <= queue
      invariant forall j :: 0 <= j < k ==> kids[j] in seen
    {
      if kids[k] !in seen {
        assert kids[k] in kids;
        assert Climbs(par, kids[k], depth, seed);
        seen := seen + {kids[k]};
        ghost var shorter := queue;
        queue := queue + [(kids[k], depth + 1)];
        assert forall e :: e in shorter ==> e in queue;
        assert (kids[k], depth + 1) in queue;
      }
    }
    assert forall e :: e in queue0 ==> e in queue;
  }

  // ----- One trace -----

  /** The first of the rows that start earliest, as `min` picks it. */
  function Earliest(rows: seq<SpanRow>): SpanRow
    requires rows != []
  {
    var last := rows[|rows| - 1];
    if |rows| == 1 then last
    else
      var best := Earliest(rows[..|rows| - 1]);
      if last.start < best.start then last else best
  }

  function Where(rows: seq<SpanRow>, ids: set<string>): seq<SpanRow> {
    if rows == [] then []
    else
      var last := rows[|rows| - 1];
      Where(rows[..|rows| - 1], ids) + if last.spanId in ids then [last] else []
  }

  function Labelled(rows: seq<SpanRow>, verdict: Label): seq<Classification> {
    seq(|rows|, i requires 0 <= i < |rows| => Classification(rows[i].spanId, verdict))
  }

  /** Some chain never ends. */
  ghost predicate HasCycle(par: map<string, string>) {
    exists id :: id in par && !Anchored(par, id)
  }

  ghost function ReasonFor(rows: seq<SpanRow>): Reason {
    var par := Parents(rows);
    if RootRows(rows) == [] then MissingRoot
    else if |RootRows(rows)| > 1 then MultipleRoots
    else if OrphanRows(rows, par.Keys) != [] then Orphaned
    else if HasCycle(par) then Cyclic
    else Complete
  }

  ghost function Summarize(rows: seq<SpanRow>): TraceSummary {
    var roots := RootRows(rows);
    TraceSummary(
      if roots == [] then 0 else Depth(Parents(rows), Earliest(roots).spanId),
      |rows|,
      if roots == [] then "" else Earliest(roots).service,
      ReasonFor(rows),
      |OrphanRows(rows, Ids(rows))|)
  }

  /** The labels of just these spans, one for each, and the one its chain deserves. */
  ghost predicate LabelsOf(par: map<string, string>, ids: set<string>, labels: seq<Classification>)
    requires ids <= par.Keys
  {
    && |labels| == |ids|
    && (forall k :: 0 <= k < |labels| ==> labels[k].spanId in ids && labels[k].verdict == LabelOf(par, labels[k].spanId))
    && (forall j, k :: 0 <= j < k < |labels| ==> labels[j].spanId != labels[k].spanId)
    && (forall id :: id in ids ==> Classification(id, LabelOf(par, id)) in labels)
  }

  ghost predicate OneLabelEach(rows: seq<SpanRow>, labels: seq<Classification>) {
    LabelsOf(Parents(rows), Ids(rows), labels)
  }

  lemma {:induction false} EarliestIs(rows: seq<SpanRow>)
    requires rows != []
    ensures Earliest(rows) in rows && forall r :: r in rows ==> Earliest(rows).start <= r.start
  {
    var init, last := rows[..|rows| - 1], rows[|rows| - 1];
    assert rows == init + [last];
    if init != [] {
      EarliestIs(init);
      assert forall r :: r in rows <==> r in init || r == last;
    }
  }

  lemma {:induction false} WhereIs(rows: seq<SpanRow>, ids: set<string>)
    requires UniqueIds(rows)
    ensures forall r :: r in Where(rows, ids) <==> r in rows && r.spanId in ids
    ensures UniqueIds(Where(rows, ids))
  {
    if rows == [] {
    } else {
      var init, last := rows[..|rows| - 1], rows[|rows| - 1];
      assert rows == init + [last];
      WhereIs(init, ids);
      forall r | r in init
        ensures r.spanId != last.spanId
      {
        var k :| 0 <= k < |init| && init[k] == r;
        assert rows[k] == r;
      }
    }
  }

  lemma {:induction false} WhereCounts(rows: seq<SpanRow>, ids: set<string>)
    requires UniqueIds(rows) && ids <= Ids(rows)
    ensures |Where(rows, ids)| == |ids|
  {
    if rows == [] {
      assert ids == {};
    } else {
      var init, last := rows[..|rows| - 1], rows[|rows| - 1];
      assert rows == init + [last];
      WhereCounts(init, ids - {last.spanId});
      WhereIgnores(init, ids, last.spanId);
    }
  }

  lemma {:induction false} WhereIgnores(rows: seq<SpanRow>, ids: set<string>, id: string)
    requires forall k :: 0 <= k < |rows| ==> rows[k].spanId != id
    ensures Where(rows, ids) == Where(rows, ids - {id})
  {
    if rows == [] {
    } else {
      WhereIgnores(rows[..|rows| - 1], ids, id);
    }
  }

  lemma {:induction false} OrphanRowsAreWhere(rows: seq<SpanRow>, present: set<string>, orphans: set<string>)
    requires forall r :: r in rows ==> (r.spanId in orphans <==> r.parent != "" && r.parent !in present)
    ensures OrphanRows(rows, present) == Where(rows, orphans)
  {
    if rows == [] {
    } else {
      var init, last := rows[..|rows| - 1], rows[|rows| - 1];
      assert rows == init + [last];
      OrphanRowsAreWhere(init, present, orphans);
    }
  }

  lemma LabelsAppend(par: map<string, string>, a: set<string>, la: seq<Classification>, b: set<string>, lb: seq<Classification>)
    requires a + b <= par.Keys && a !! b && LabelsOf(par, a, la) && LabelsOf(par, b, lb)
    ensures LabelsOf(par, a + b, la + lb)
  {
    forall id | id in a + b
      ensures Classification(id, LabelOf(par, id)) in la + lb
    {
      assert Classification(id, LabelOf(par, id)) in if id in a then la else lb;
    }
  }

  lemma LabelledIs(rows: seq<SpanRow>, par: map<string, string>, ids: set<string>, verdict: Label)
    requires UniqueIds(rows) && ids <= Ids(rows) && ids <= par.Keys
    requires forall id :: id in ids ==> LabelOf(par, id) == verdict
    ensures LabelsOf(par, ids, Labelled(Where(rows, ids), verdict))
  {
    WhereIs(rows, ids);
    WhereCounts(rows, ids);
    var picked := Where(rows, ids);
    assert forall i :: 0 <= i < |picked| ==> picked[i] in picked;
    forall id | id in ids
      ensures Classification(id, verdict) in Labelled(picked, verdict)
    {
      var r :| r in rows && r.spanId == id;
      LabelledHas(picked, r, verdict);
    }
  }

  lemma LabelledHas(rows: seq<SpanRow>, r: SpanRow, verdict: Label)
    requires r in rows
    ensures Classification(r.spanId, verdict) in Labelled(rows, verdict)
  {
    var i :| 0 <= i < |rows| && rows[i] == r;
    assert Labelled(rows, verdict)[i] == Classification(r.spanId, verdict);
  }

  ghost predicate HasId(rows: seq<SpanRow>, id: string) {
    exists r :: r in rows && r.spanId == id
  }

  lemma SeedsAre(rows: seq<SpanRow>)
    requires UniqueIds(rows)
    ensures var par, seeds := Parents(rows), RootRows(rows) + OrphanRows(rows, Ids(rows));
            forall id :: HasId(seeds, id) <==> id in par && IsSeed(par, id)
  {
    var par, roots, orphans := Parents(rows), RootRows(rows), OrphanRows(rows, Ids(rows));
    forall id
      ensures HasId(roots + orphans, id) <==> id in par && IsSeed(par, id)
    {
      if id in par {
        var r :| r in rows && r.spanId == id;
        ParentsOfUnique(rows, r);
        RootRowsAre(rows, r);
        OrphanRowsAre(rows, Ids(rows), r);
        if IsSeed(par, id) {
          assert r in roots + orphans;
        }
      }
      if r: SpanRow :| r in roots + orphans && r.spanId == id {
        RootRowsAre(rows, r);
        OrphanRowsAre(rows, Ids(rows), r);
        ParentsOfUnique(rows, r);
      }
    }
  }

  method ReassembleTrace(rows: seq<SpanRow>) returns (summary: TraceSummary, labels: seq<Classification>)
    requires UniqueIds(rows)
    ensures summary == Summarize(rows)
    ensures OneLabelEach(rows, labels)
  {
    var ids, roots, orphans, children := IndexTrace(rows);
    SeedsAre(rows);
    var visited := MarkFrom(roots + orphans, children, Parents(rows));
    var cycleRejected;
    cycleRejected, labels := ClassifyRows(rows, orphans, visited);

    var depth: nat, rootService := 0, "";
    if roots != [] {
      var canonical := Earliest(roots);
      CanonicalIsRoot(rows);
      depth := SubtreeDepth(canonical.spanId, children, Parents(rows));
      rootService := canonical.service;
    }
    var reason :=
      if roots == [] then MissingRoot
      else if |roots| > 1 then MultipleRoots
      else if orphans != [] then Orphaned
      else if cycleRejected != [] then Cyclic
      else Complete;
    summary := TraceSummary(depth, |rows|, rootService, reason, |orphans|);
  }

  method ClassifyRows(rows: seq<SpanRow>, orphans: seq<SpanRow>, visited: set<string>)
    returns (cycleRejected: seq<SpanRow>, labels: seq<Classification>)
    requires UniqueIds(rows) && orphans == OrphanRows(rows, Ids(rows))
    requires forall id :: id in visited <==> Anchored(Parents(rows), id)
    ensures cycleRejected != [] <==> HasCycle(Parents(rows))
    ensures OneLabelEach(rows, labels)
  {
    var orphanIds := set r | r in orphans :: r.spanId;
    OrphanIdsAre(rows);
    var cycleIds := set r | r in rows && r.spanId !in visited && r.spanId !in orphanIds :: r.spanId;
    cycleRejected := Where(rows, cycleIds);
    assert cycleIds == Ids(rows) - visited - orphanIds;
    CycleShows(rows, visited, orphanIds, cycleIds);
    var okIds := set r | r in rows && r.spanId !in orphanIds && r.spanId !in cycleIds :: r.spanId;
    assert okIds == Ids(rows) * visited - orphanIds;
    labels := Labelled(orphans, OrphanMissingParent) + Labelled(cycleRejected, CycleRejected) + Labelled(Where(rows, okIds), Ok);
    LabelsOfParts(rows, visited, orphanIds);
  }

  lemma CycleShows(rows: seq<SpanRow>, visited: set<string>, orphanIds: set<string>, cycleIds: set<string>)
    requires UniqueIds(rows)
    requires forall id :: id in visited <==> Anchored(Parents(rows), id)
    requires forall id :: id in orphanIds <==> id in Parents(rows) && IsOrphan(Parents(rows), id)
    requires cycleIds == Ids(rows) - visited - orphanIds
    ensures HasCycle(Parents(rows)) <==> Where(rows, cycleIds) != []
  {
    WhereCounts(rows, cycleIds);
    forall id | id in Parents(rows) && IsSeed(Parents(rows), id)
      ensures Anchored(Parents(rows), id)
    {
      SeedIsAnchored(Parents(rows), id);
    }
    if id :| id in Parents(rows) && !Anchored(Parents(rows), id) {
      assert id in cycleIds;
    }
  }

  lemma CanonicalIsRoot(rows: seq<SpanRow>)
    requires UniqueIds(rows) && RootRows(rows) != []
    ensures var c := Earliest(RootRows(rows)); c in rows && IsRoot(Parents(rows), c.spanId)
  {
    var c := Earliest(RootRows(rows));
    EarliestIs(RootRows(rows));
    RootRowsAre(rows, c);
    ParentsOfUnique(rows, c);
  }

  lemma LabelsOfParts(rows: seq<SpanRow>, visited: set<string>, o: set<string>)
    requires UniqueIds(rows) && OrphanRows(rows, Ids(rows)) == Where(rows, o)
    requires forall id :: id in o <==> id in Parents(rows) && IsOrphan(Parents(rows), id)
    requires forall id :: id in visited <==> Anchored(Parents(rows), id)
    ensures OneLabelEach(rows, Labelled(OrphanRows(rows, Ids(rows)), OrphanMissingParent)
                               + Labelled(Where(rows, Ids(rows) - visited - o), CycleRejected)
                               + Labelled(Where(rows, Ids(rows) * visited - o), Ok))
  {
    var par, c, k := Parents(rows), Ids(rows) - visited - o, Ids(rows) * visited - o;
    LabelledIs(rows, par, o, OrphanMissingParent);
    LabelledIs(rows, par, c, CycleRejected);
    LabelledIs(rows, par, k, Ok);
    var lo, lc := Labelled(Where(rows, o), OrphanMissingParent), Labelled(Where(rows, c), CycleRejected);
    LabelsAppend(par, o, lo, c, lc);
    LabelsAppend(par, o + c, lo + lc, k, Labelled(Where(rows, k), Ok));
    assert o + c + k == Ids(rows);
  }

  lemma OrphanIdsAre(rows: seq<SpanRow>)
    requires UniqueIds(rows)
    ensures var par, orphans := Parents(rows), OrphanRows(rows, Ids(rows));
            && (forall id :: id in Ids(orphans) <==> id in par && IsOrphan(par, id))
            && orphans == Where(rows, Ids(orphans))
  {
    var par, orphans := Parents(rows), OrphanRows(rows, Ids(rows));
    forall r | r in rows || r in orphans
      ensures r in orphans <==> r.parent != "" && r.parent !in par
      ensures r in rows && par[r.spanId] == r.parent
    {
      OrphanRowsAre(rows, Ids(rows), r);
      ParentsOfUnique(rows, r);
    }
    forall id | id in par
      ensures id in Ids(orphans) <==> IsOrphan(par, id)
    {
      var r :| r in rows && r.spanId == id;
    }
    OrphanRowsAreWhere(rows, Ids(rows), Ids(orphans));
  }
}
