/**
  Generate, fault, reassemble, score: whatever spans are lost and however clocks are skewed,
  the reconstruction of a generated run says nothing false, and says everything the landed
  spans allow.
 */
module EndToEnd {
  import opened Collections
  import opened Spans
  import opened ParentChain
  import opened Reassembly
  import opened ReassemblyLaws
  import opened TraceGroups
  import opened CallGraph
  import opened Evaluation
  import opened TracePlan
  import opened Generator
  import opened Faults

  /** Every non-root span comes after its parent. */
  ghost predicate GroundTruth(gt: seq<SpanRow>) {
    && UniqueSpans(gt)
    && (forall j :: 0 <= j < |gt| ==> gt[j].spanId != "" && (gt[j].parent == "" || HasParentBefore(gt, j)))
  }

  ghost predicate HasParentBefore(gt: seq<SpanRow>, j: nat)
    requires j < |gt|
  {
    exists i :: 0 <= i < j && Calls(gt[i], gt[j])
  }

  /** The same span, whatever became of its clock or status. */
  predicate Echo(g: SpanRow, r: SpanRow) {
    g.traceId == r.traceId && g.spanId == r.spanId && g.parent == r.parent && g.service == r.service
  }

  /** Some of the spans, each at most once, in any order, with any times. */
  ghost predicate Landing(gt: seq<SpanRow>, landed: seq<SpanRow>) {
    UniqueSpans(landed) && forall r :: r in landed ==> EchoesSome(gt, r)
  }

  ghost predicate EchoesSome(gt: seq<SpanRow>, r: SpanRow) {
    exists j :: 0 <= j < |gt| && Echo(gt[j], r)
  }

  // ----- A generated plan is ground truth, and faults only thin it out -----

  lemma PlanIsGroundTruth(plan: seq<PlannedSpan>, shape: Shape)
    requires IsTrace(plan, shape)
    ensures GroundTruth(Rows(plan))
    ensures forall r :: r in Rows(plan) && r.parent == "" ==> r == Rows(plan)[0]
  {
    var gt := Rows(plan);
    forall j | 0 < j < |gt|
      ensures gt[j].parent != "" && HasParentBefore(gt, j)
    {
      assert Hangs(plan, shape, j);
      assert Calls(gt[shape.up[j]], gt[j]);
    }
  }

  lemma RunsConcatenate(gt: seq<SpanRow>, more: seq<SpanRow>)
    requires GroundTruth(gt) && GroundTruth(more)
    requires forall r, s :: r in gt && s in more ==> r.traceId != s.traceId
    ensures GroundTruth(gt + more)
  {
    var all := gt + more;
    forall j | 0 <= j < |all| && all[j].parent != ""
      ensures HasParentBefore(all, j)
    {
      if j < |gt| {
        assert HasParentBefore(gt, j);
        var i :| 0 <= i < j && Calls(gt[i], gt[j]);
        assert Calls(all[i], all[j]);
      } else {
        assert HasParentBefore(more, j - |gt|);
        var i :| 0 <= i < j - |gt| && Calls(more[i], more[j - |gt|]);
        assert Calls(all[|gt| + i], all[j]);
      }
    }
    forall i, j | 0 <= i < j < |all|
      ensures all[i].traceId != all[j].traceId || all[i].spanId != all[j].spanId
    {
      if i < |gt| <= j {
        assert all[i] in gt && all[j] in more;
      }
    }
  }

  // ----- Every landed chain is anchored -----

  lemma {:induction false} LandedIsAnchored(gt: seq<SpanRow>, landed: seq<SpanRow>, trace: string, j: nat)
    requires GroundTruth(gt) && Landing(gt, landed) && j < |gt| && gt[j].traceId == trace
    requires gt[j].spanId in Ids(TraceRows(landed, trace))
    ensures Anchored(Parents(TraceRows(landed, trace)), gt[j].spanId)
    decreases j
  {
    var rows := TraceRows(landed, trace);
    var par := Parents(rows);
    var r := LandedRow(gt, landed, trace, j);
    if IsSeed(par, r.spanId) {
      SeedIsAnchored(par, r.spanId);
    } else {
      assert HasParentBefore(gt, j);
      var i :| 0 <= i < j && Calls(gt[i], gt[j]);
      LandedIsAnchored(gt, landed, trace, i);
      var n: nat, seed :| Climbs(par, gt[i].spanId, n, seed);
      assert Climbs(par, r.spanId, n + 1, seed);
    }
  }

  /** The landed row of a ground-truth span carries its links. */
  lemma LandedRow(gt: seq<SpanRow>, landed: seq<SpanRow>, trace: string, j: nat) returns (r: SpanRow)
    requires UniqueSpans(gt) && Landing(gt, landed) && j < |gt| && gt[j].traceId == trace
    requires gt[j].spanId in Ids(TraceRows(landed, trace))
    ensures r in TraceRows(landed, trace) && r in landed && Echo(gt[j], r)
    ensures UniqueIds(TraceRows(landed, trace)) && Parents(TraceRows(landed, trace))[r.spanId] == gt[j].parent
  {
    var rows := TraceRows(landed, trace);
    r :| r in rows && r.spanId == gt[j].spanId;
    TraceRowsAre(landed, trace, r);
    TraceRowsUnique(landed, trace);
    ParentsOfUnique(rows, r);
    assert EchoesSome(gt, r);
    var k :| 0 <= k < |gt| && Echo(gt[k], r);
    assert k == j;
  }

  lemma LandedId(landed: seq<SpanRow>, trace: string, id: string)
    ensures id in Ids(TraceRows(landed, trace)) <==> exists r :: r in landed && r.traceId == trace && r.spanId == id
  {
    if r :| r in TraceRows(landed, trace) && r.spanId == id {
      TraceRowsAre(landed, trace, r);
    }
    if r :| r in landed && r.traceId == trace && r.spanId == id {
      TraceRowsAre(landed, trace, r);
    }
  }

  /** The label of a landed span says whether its parent landed. */
  lemma LandedLabel(gt: seq<SpanRow>, landed: seq<SpanRow>, j: nat)
    requires GroundTruth(gt) && Landing(gt, landed) && j < |gt|
    requires gt[j].spanId in Ids(TraceRows(landed, gt[j].traceId))
    ensures var par := Parents(TraceRows(landed, gt[j].traceId));
            LabelOf(par, gt[j].spanId) == if gt[j].parent == "" || gt[j].parent in par then Ok else OrphanMissingParent
  {
    var r := LandedRow(gt, landed, gt[j].traceId, j);
    LandedIsAnchored(gt, landed, gt[j].traceId, j);
  }

  lemma NoLandedCycle(gt: seq<SpanRow>, landed: seq<SpanRow>, trace: string)
    requires GroundTruth(gt) && Landing(gt, landed)
    ensures UniqueIds(TraceRows(landed, trace)) && !HasCycle(Parents(TraceRows(landed, trace)))
  {
    TraceRowsUnique(landed, trace);
    forall id | id in Parents(TraceRows(landed, trace))
      ensures Anchored(Parents(TraceRows(landed, trace)), id)
    {
      var r :| r in TraceRows(landed, trace) && r.spanId == id;
      TraceRowsAre(landed, trace, r);
      assert EchoesSome(gt, r);
      var j :| 0 <= j < |gt| && Echo(gt[j], r);
      LandedIsAnchored(gt, landed, trace, j);
    }
  }

  // ----- Completeness -----

  ghost predicate AncestorClosed(rows: seq<SpanRow>) {
    forall r :: r in rows && r.parent != "" ==> r.parent in Ids(rows)
  }

  ghost predicate OneRoot(gt: seq<SpanRow>, trace: string) {
    forall r, s :: r in gt && s in gt && r.traceId == trace && s.traceId == trace && r.parent == "" && s.parent == "" ==> r == s
  }

  /** A trace is reported complete exactly when something landed, together with everything above it. */
  lemma CompleteIffAncestorClosed(gt: seq<SpanRow>, landed: seq<SpanRow>, trace: string)
    requires GroundTruth(gt) && Landing(gt, landed) && OneRoot(gt, trace)
    ensures var rows := TraceRows(landed, trace);
            Summarize(rows).reason == Complete <==> rows != [] && AncestorClosed(rows)
  {
    var rows := TraceRows(landed, trace);
    NoLandedCycle(gt, landed, trace);
    if ReasonFor(rows) == Complete {
      CompleteHasOneSeed(rows);
      OneSeedClosesAncestors(rows, RootRows(rows)[0].spanId);
    } else if rows != [] && AncestorClosed(rows) {
      ClosedHasOneSeed(gt, landed, trace);
    }
  }

  lemma OneSeedClosesAncestors(rows: seq<SpanRow>, root: string)
    requires UniqueIds(rows) && OneSeed(Parents(rows), root)
    ensures rows != [] && AncestorClosed(rows)
  {
    forall r | r in rows && r.parent != ""
      ensures r.parent in Ids(rows)
    {
      ParentsOfUnique(rows, r);
    }
    assert root in Ids(rows);
  }

  lemma ClosedHasOneSeed(gt: seq<SpanRow>, landed: seq<SpanRow>, trace: string)
    requires GroundTruth(gt) && Landing(gt, landed) && OneRoot(gt, trace)
    requires var rows := TraceRows(landed, trace); rows != [] && AncestorClosed(rows) && UniqueIds(rows) && !HasCycle(Parents(rows))
    ensures ReasonFor(TraceRows(landed, trace)) == Complete
  {
    var rows := TraceRows(landed, trace);
    var par := Parents(rows);
    assert rows[0] in rows && rows[0].spanId in par;
    var n: nat, root :| Climbs(par, rows[0].spanId, n, root);
    ClimbEndsAtSeed(par, rows[0].spanId, n, root);
    var top := SeedIsTrueRoot(gt, landed, trace, root);
    forall id | id in par && IsSeed(par, id)
      ensures id == root
    {
      var other := SeedIsTrueRoot(gt, landed, trace, id);
    }
    OneSeedIsComplete(rows, root);
  }

  lemma SeedIsTrueRoot(gt: seq<SpanRow>, landed: seq<SpanRow>, trace: string, id: string) returns (g: SpanRow)
    requires Landing(gt, landed)
    requires var rows := TraceRows(landed, trace);
             UniqueIds(rows) && AncestorClosed(rows) && id in Parents(rows) && IsSeed(Parents(rows), id)
    ensures g in gt && g.traceId == trace && g.spanId == id && g.parent == "" && IsRoot(Parents(TraceRows(landed, trace)), id)
  {
    var rows := TraceRows(landed, trace);
    var r :| r in rows && r.spanId == id;
    ParentsOfUnique(rows, r);
    TraceRowsAre(landed, trace, r);
    assert EchoesSome(gt, r);
    var j :| 0 <= j < |gt| && Echo(gt[j], r);
    g := gt[j];
  }

  // ----- Edges -----

  function TrueEdges(gt: seq<SpanRow>): set<Edge> {
    set p, c | p in gt && c in gt && Calls(p, c) :: (p.service, c.service)
  }

  /** No edge is invented: any spans of the run, in any window, under any skew, give true edges only. */
  lemma FoundEdgesAreTrue(gt: seq<SpanRow>, landed: seq<SpanRow>, edges: seq<ServiceEdge>)
    requires Landing(gt, landed) && Aggregates(landed, edges)
    ensures forall x :: x in edges ==> x.Key() in TrueEdges(gt)
  {
    forall x | x in edges
      ensures x.Key() in TrueEdges(gt)
    {
      var c :| c in CallsAlong(landed, x.Key());
      assert HasCaller(landed, c, x.Key());
      var p :| p in landed && CallsAs(p, c, x.Key());
      assert EchoesSome(gt, p) && EchoesSome(gt, c);
      var i :| 0 <= i < |gt| && Echo(gt[i], p);
      var j :| 0 <= j < |gt| && Echo(gt[j], c);
      assert Calls(gt[i], gt[j]) && gt[i] in gt && gt[j] in gt;
    }
  }

  /** An unfaulted trace read in one window: the call counts are the recorded multiset of edges. */
  lemma CountsAreGroundTruth(plan: seq<SpanRow>, recorded: seq<Edge>, origin: seq<SpanRow>, rows: seq<SpanRow>, edges: seq<ServiceEdge>)
    requires UniqueSpans(plan) && EdgesOf(plan, plan, recorded, origin)
    requires multiset(rows) == multiset(plan) && Aggregates(rows, edges)
    ensures forall x :: x in edges ==> x.callCount == multiset(recorded)[x.Key()]
    ensures forall e :: e in recorded ==> exists x :: x in edges && x.Key() == e
  {
    SameMembers(rows, plan);
    forall e
      ensures CallsAlong(rows, e) == CallsAlong(plan, e)
      ensures multiset(recorded)[e] == |CallsAlong(plan, e)|
    {
      assert forall c :: HasCaller(rows, c, e) <==> HasCaller(plan, c, e);
      RecordedEdgeCount(plan, recorded, origin, e);
    }
    forall e | e in recorded
      ensures exists x :: x in edges && x.Key() == e
    {
      assert e in multiset(recorded);
    }
  }

  /** The edges that `toRows` records of a plan are its true edges. */
  lemma RecordedEdgesAreTrue(plan: seq<SpanRow>, recorded: seq<Edge>, origin: seq<SpanRow>, e: Edge)
    requires UniqueSpans(plan) && EdgesOf(plan, plan, recorded, origin)
    ensures e in recorded <==> e in TrueEdges(plan)
  {
    if e in recorded {
      var i :| 0 <= i < |recorded| && recorded[i] == e;
      assert HasCaller(plan, origin[i], e);
      var p :| p in plan && CallsAs(p, origin[i], e);
    }
    if e in TrueEdges(plan) {
      var p, c :| p in plan && c in plan && Calls(p, c) && (p.service, c.service) == e;
      assert CallsAs(p, c, e) && HasCaller(plan, c, e);
      var i :| 0 <= i < |origin| && origin[i] == c;
      var q :| q in plan && CallsAs(q, origin[i], recorded[i]);
      CallerIsUnique(plan, p, q, c);
    }
  }

  /** The true edges of two runs together are those of each. */
  lemma TrueEdgesConcatenate(gt: seq<SpanRow>, more: seq<SpanRow>)
    requires forall r, s :: r in gt && s in more ==> r.traceId != s.traceId
    ensures TrueEdges(gt + more) == TrueEdges(gt) + TrueEdges(more)
  {
    forall e
      ensures e in TrueEdges(gt + more) <==> e in TrueEdges(gt) || e in TrueEdges(more)
    {
      if e in TrueEdges(gt + more) {
        var p, c :| p in gt + more && c in gt + more && Calls(p, c) && (p.service, c.service) == e;
        assert (p in gt && c in gt) || (p in more && c in more);
      }
    }
  }
}
