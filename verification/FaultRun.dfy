/**
  Traces on their whole way: generated, recorded, thinned out, skewed, sent, reassembled and scored
  against what was recorded (`loadgen/cmd/loadgen/main.go` on the sending side).
 */
module FaultRun {
  import opened Collections
  import opened Spans
  import opened TraceGroups
  import opened CallGraph
  import opened Reassembly
  import opened Evaluation
  import opened TracePlan
  import opened CallBook
  import opened Growth
  import opened Generator
  import opened Faults
  import opened EndToEnd
  import opened Scoring

  /** `dispatch` never sends a dropped span. */
  function Sent(plan: seq<PlannedSpan>): seq<SpanRow> {
    if plan == [] then []
    else
      var last := plan[|plan| - 1];
      Sent(plan[..|plan| - 1]) + if last.drop then [] else [last.row]
  }

  lemma {:induction false} OnlyTrace(rows: seq<SpanRow>, trace: string)
    requires forall r :: r in rows ==> r.traceId == trace
    ensures TraceRows(rows, trace) == rows
  {
    if rows == [] {
    } else {
      var init, last := rows[..|rows| - 1], rows[|rows| - 1];
      assert rows == init + [last] && last in rows;
      OnlyTrace(init, trace);
    }
  }

  lemma OneTraceOneRoot(plan: seq<PlannedSpan>, shape: Shape, trace: string)
    requires IsTrace(plan, shape)
    ensures OneRoot(Rows(plan), trace)
  {
    PlanIsGroundTruth(plan, shape);
  }

  /** The random choices behind one trace, and the moment it starts. */
  datatype Draws = Draws(
    now: int, traceId: string, makesCall: nat -> bool, newId: nat -> string, latency: nat -> int, status: nat -> int,
    loses: nat -> real)
  {
    function Choices(cfg: Config): World {
      World(cfg, traceId, makesCall, newId, latency, status)
    }

    /** Ids are fresh and latencies have their minimum. */
    ghost predicate Valid() {
      && (forall i: nat, j: nat :: newId(i) != "" && (i < j ==> newId(i) != newId(j)))
      && forall n :: latency(n) >= MIN_LATENCY
    }
  }

  // ----- What a trace is made of -----

  /** A plan that these draws can lead to. */
  ghost predicate Plans(cfg: Config, draws: Draws, plan: seq<PlannedSpan>, shape: Shape) {
    && IsTrace(plan, shape) && DrawnFrom(draws.Choices(cfg), plan, shape)
    && plan[0].row.service == cfg.root && plan[0].row.start == draws.now
  }

  /** The ground truth of one trace. */
  ghost predicate Generated(cfg: Config, draws: Draws, gt: seq<SpanRow>) {
    exists plan, shape :: Plans(cfg, draws, plan, shape) && gt == Rows(plan)
  }

  /** One tree below one root, which is the first span, with its calls along configured edges. */
  lemma GeneratedIs(cfg: Config, draws: Draws, gt: seq<SpanRow>)
    requires Generated(cfg, draws, gt)
    ensures GroundTruth(gt) && gt != [] && gt[0].service == cfg.root && gt[0].start == draws.now
    ensures forall j :: 0 <= j < |gt| ==> (gt[j].parent == "" <==> j == 0)
    ensures forall j :: 0 <= j < |gt| ==> gt[j].traceId == draws.traceId && gt[j].spanId == draws.newId(j)
    ensures forall e :: e in TrueEdges(gt) ==> cfg.Allows(e.0, e.1)
  {
    var plan: seq<PlannedSpan>, shape: Shape :| Plans(cfg, draws, plan, shape) && gt == Rows(plan);
    PlanIsGroundTruth(plan, shape);
    RootOfPlan(plan, shape);
    forall e | e in TrueEdges(gt)
      ensures cfg.Allows(e.0, e.1)
    {
      EdgeIsConfigured(cfg, plan, shape, e);
    }
  }

  lemma RootOfPlan(plan: seq<PlannedSpan>, shape: Shape)
    requires IsTrace(plan, shape)
    ensures forall j :: 0 <= j < |plan| ==> (plan[j].row.parent == "" <==> j == 0)
  {
    forall j | 0 < j < |plan|
      ensures plan[j].row.parent != ""
    {
      assert Hangs(plan, shape, j);
    }
  }

  lemma EdgeIsConfigured(cfg: Config, plan: seq<PlannedSpan>, shape: Shape, e: Edge)
    requires IsTrace(plan, shape) && Configured(cfg, plan, shape) && e in TrueEdges(Rows(plan))
    ensures cfg.Allows(e.0, e.1)
  {
    var gt := Rows(plan);
    var p, c :| p in gt && c in gt && Calls(p, c) && (p.service, c.service) == e;
    var i :| 0 <= i < |gt| && gt[i] == p;
    var j :| 0 <= j < |gt| && gt[j] == c;
    ParentIsUp(plan, shape, i, j);
  }

  // ----- What becomes of it -----

  predicate Lost(dropRate: real, loses: nat -> real, i: nat) {
    dropRate > 0.0 && loses(i) < dropRate
  }

  /** The spans that are not dropped. */
  function Thinned(gt: seq<SpanRow>, dropRate: real, loses: nat -> real): seq<SpanRow> {
    if gt == [] then []
    else
      var n := |gt| - 1;
      Thinned(gt[..n], dropRate, loses) + if Lost(dropRate, loses, n) then [] else [gt[n]]
  }

  ghost predicate Survives(gt: seq<SpanRow>, dropRate: real, loses: nat -> real, r: SpanRow) {
    exists i: nat :: i < |gt| && !Lost(dropRate, loses, i) && gt[i] == r
  }

  lemma {:induction false} ThinnedIs(gt: seq<SpanRow>, dropRate: real, loses: nat -> real, r: SpanRow)
    ensures r in Thinned(gt, dropRate, loses) <==> Survives(gt, dropRate, loses, r)
  {
    if gt == [] {
    } else {
      var n := |gt| - 1;
      ThinnedIs(gt[..n], dropRate, loses, r);
      SurvivesOneMore(gt, dropRate, loses, r, n);
    }
  }

  lemma SurvivesOneMore(gt: seq<SpanRow>, dropRate: real, loses: nat -> real, r: SpanRow, n: nat)
    requires n + 1 == |gt|
    ensures Survives(gt, dropRate, loses, r) <==>
              Survives(gt[..n], dropRate, loses, r) || (!Lost(dropRate, loses, n) && gt[n] == r)
  {
    if Survives(gt, dropRate, loses, r) {
      var i: nat :| i < |gt| && !Lost(dropRate, loses, i) && gt[i] == r;
      assert i == n || gt[..n][i] == r;
    }
    if Survives(gt[..n], dropRate, loses, r) {
      var i: nat :| i < n && !Lost(dropRate, loses, i) && gt[..n][i] == r;
      assert gt[i] == r;
    }
  }

  /** Without drops nothing is lost. */
  lemma {:induction false} NothingThinned(gt: seq<SpanRow>, dropRate: real, loses: nat -> real)
    requires dropRate <= 0.0
    ensures Thinned(gt, dropRate, loses) == gt
  {
    if gt == [] {
    } else {
      NothingThinned(gt[..|gt| - 1], dropRate, loses);
    }
  }

  /** Exactly the surviving spans land, each moved by its service's clock. */
  lemma LandedIff(gt: seq<SpanRow>, dropRate: real, loses: nat -> real, o: Skew, r: SpanRow)
    ensures r in SkewRows(Thinned(gt, dropRate, loses), o) <==>
              exists i: nat :: i < |gt| && !Lost(dropRate, loses, i) && r == SkewRow(gt[i], o)
  {
    var thinned := Thinned(gt, dropRate, loses);
    if r in SkewRows(thinned, o) {
      var k :| 0 <= k < |thinned| && SkewRow(thinned[k], o) == r;
      ThinnedIs(gt, dropRate, loses, thinned[k]);
      var i: nat :| i < |gt| && !Lost(dropRate, loses, i) && gt[i] == thinned[k];
      assert r == SkewRow(gt[i], o);
    }
    if i: nat :| i < |gt| && !Lost(dropRate, loses, i) && r == SkewRow(gt[i], o) {
      ThinnedIs(gt, dropRate, loses, gt[i]);
      assert Survives(gt, dropRate, loses, gt[i]);
      var k :| 0 <= k < |thinned| && thinned[k] == gt[i];
      assert SkewRows(thinned, o)[k] == r;
    }
  }

  lemma {:induction false} ThinnedLands(gt: seq<SpanRow>, dropRate: real, loses: nat -> real, o: Skew)
    requires UniqueSpans(gt)
    ensures Landing(gt, SkewRows(Thinned(gt, dropRate, loses), o))
  {
    var thinned := Thinned(gt, dropRate, loses);
    ThinnedAreUnique(gt, dropRate, loses);
    forall k | 0 <= k < |thinned|
      ensures EchoesSome(gt, SkewRow(thinned[k], o))
    {
      ThinnedIs(gt, dropRate, loses, thinned[k]);
      var i: nat :| i < |gt| && !Lost(dropRate, loses, i) && gt[i] == thinned[k];
      assert Echo(gt[i], SkewRow(thinned[k], o));
    }
  }

  lemma {:induction false} ThinnedAreUnique(gt: seq<SpanRow>, dropRate: real, loses: nat -> real)
    requires UniqueSpans(gt)
    ensures UniqueSpans(Thinned(gt, dropRate, loses))
  {
    if gt == [] {
    } else {
      var n := |gt| - 1;
      var init := Thinned(gt[..n], dropRate, loses);
      ThinnedAreUnique(gt[..n], dropRate, loses);
      forall k | 0 <= k < |init|
        ensures init[k].traceId != gt[n].traceId || init[k].spanId != gt[n].spanId
      {
        ThinnedIs(gt[..n], dropRate, loses, init[k]);
        var i: nat :| i < n && !Lost(dropRate, loses, i) && gt[..n][i] == init[k];
        assert gt[i] == init[k];
      }
    }
  }

  lemma SkewRowsOneMore(rows: seq<SpanRow>, r: SpanRow, o: Skew)
    ensures SkewRows(rows + [r], o) == SkewRows(rows, o) + [SkewRow(r, o)]
  {
  }

  lemma {:induction false} SentAreThinned(faulted: seq<PlannedSpan>, gt: seq<SpanRow>, dropRate: real, loses: nat -> real, o: Skew)
    requires |faulted| == |gt| && Rows(faulted) == SkewRows(gt, o)
    requires forall i :: 0 <= i < |gt| ==> (faulted[i].drop <==> Lost(dropRate, loses, i))
    ensures Sent(faulted) == SkewRows(Thinned(gt, dropRate, loses), o)
  {
    if gt == [] {
    } else {
      var n := |gt| - 1;
      assert Rows(faulted)[..n] == Rows(faulted[..n]) && SkewRows(gt, o)[..n] == SkewRows(gt[..n], o);
      SentAreThinned(faulted[..n], gt[..n], dropRate, loses, o);
      SkewRowsOneMore(Thinned(gt[..n], dropRate, loses), gt[n], o);
      assert faulted[n].row == Rows(faulted)[n] == SkewRow(gt[n], o);
    }
  }

  /** One trace: generated, recorded, faulted and sent. */
  method SendTrace(cfg: Config, draws: Draws, dropRate: real, injector: ClockSkewInjector)
    returns (gt: seq<SpanRow>, landed: seq<SpanRow>, recorded: seq<Edge>)
    requires cfg.Valid() && injector.Valid() && draws.Valid()
    modifies injector
    ensures injector.Valid() && injector.Keeps(old(injector.offsets)) && injector.Decides(gt)
    ensures Generated(cfg, draws, gt) && landed == SkewRows(Thinned(gt, dropRate, draws.loses), injector.Clocks())
    ensures gt != [] && gt[0].service == cfg.root && gt[0].start == draws.now
    ensures GroundTruth(gt) && Landing(gt, landed) && Records(gt, recorded)
    ensures forall r :: r in gt ==> r.traceId == draws.traceId
    ensures OneRoot(gt, draws.traceId)
    ensures Summarize(landed).reason == Complete <==> landed != [] && AncestorClosed(landed)
    ensures dropRate <= 0.0 ==> |landed| == |gt| && landed != [] && AncestorClosed(landed)
  {
    var plan;
    ghost var shape;
    plan, gt, recorded, shape := PlanTrace(cfg, draws);
    var faulted := InjectFaults(plan, dropRate, draws.loses, injector);
    landed := Sent(faulted);
    SentAreThinned(faulted, gt, dropRate, draws.loses, injector.Clocks());
    LandedTrace(plan, shape, dropRate, draws.loses, injector.Clocks());
  }

  /** The recorded edges, as often as there are calls along them. */
  ghost predicate Records(gt: seq<SpanRow>, recorded: seq<Edge>) {
    && (forall e :: e in recorded <==> e in TrueEdges(gt))
    && (forall e :: multiset(recorded)[e] == |CallsAlong(gt, e)|)
  }

  method PlanTrace(cfg: Config, draws: Draws)
    returns (plan: seq<PlannedSpan>, gt: seq<SpanRow>, recorded: seq<Edge>, ghost shape: Shape)
    requires cfg.Valid() && draws.Valid()
    ensures Plans(cfg, draws, plan, shape) && gt == Rows(plan) && Generated(cfg, draws, gt)
    ensures gt != [] && gt[0].service == cfg.root && gt[0].start == draws.now
    ensures forall r :: r in gt ==> r.traceId == draws.traceId
    ensures OneRoot(gt, draws.traceId) && Records(gt, recorded)
  {
    plan, shape := Generate(draws.Choices(cfg), draws.now);
    PlanIsGroundTruth(plan, shape);
    OneTraceOneRoot(plan, shape, draws.traceId);
    SameTrace(plan, shape);
    recorded, gt := Record(plan);
    assert Plans(cfg, draws, plan, shape);
  }

  lemma SameTrace(plan: seq<PlannedSpan>, shape: Shape)
    requires IsTrace(plan, shape)
    ensures forall r :: r in Rows(plan) ==> r.traceId == plan[0].row.traceId
  {
  }

  /** Ground truth is recorded before any fault. */
  method Record(plan: seq<PlannedSpan>) returns (recorded: seq<Edge>, spans: seq<SpanRow>)
    requires GroundTruth(Rows(plan)) && forall r, s :: r in Rows(plan) && s in Rows(plan) ==> r.traceId == s.traceId
    ensures spans == Rows(plan) && Records(spans, recorded)
  {
    ghost var origin;
    spans, recorded, origin := ToRows(Rows(plan));
    forall e
      ensures e in recorded <==> e in TrueEdges(Rows(plan))
      ensures multiset(recorded)[e] == |CallsAlong(Rows(plan), e)|
    {
      RecordedEdgesAreTrue(Rows(plan), recorded, origin, e);
      RecordedEdgeCount(Rows(plan), recorded, origin, e);
    }
  }

  /**
    For every topology, random choice, drop rate and skew: what lands of a trace is what was not
    dropped, each span moved by its service's clock.  If it is read in one window, it is scored as
    perfectly reconstructed, no edge is invented, and the trace counts as complete exactly when what
    landed is not empty and closed under ancestors.
   */
  method RunOneTrace(cfg: Config, draws: Draws, dropRate: real, injector: ClockSkewInjector)
    returns (gt: seq<SpanRow>, landed: seq<SpanRow>, m: Metrics, verdicts: Verdicts, edges: seq<ServiceEdge>)
    requires cfg.Valid() && injector.Valid() && draws.Valid()
    modifies injector
    ensures Generated(cfg, draws, gt) && landed == SkewRows(Thinned(gt, dropRate, draws.loses), injector.Clocks())
    ensures Scores(m, TrueSpans(gt), LandedIds(landed), verdicts) && m.edges == ScoreEdges(TrueEdges(gt), EdgeKeys(edges))
    ensures m.attachmentCorrect == m.attachmentTotal && m.orphanCorrect == m.orphanTotal
    ensures forall r :: r in landed ==> SpanKey(r) in verdicts && verdicts[SpanKey(r)] == Deserved(landed, r)
    ensures forall x :: x in edges ==> x.Key() in TrueEdges(gt)
    ensures Summarize(landed).reason == Complete <==> landed != [] && AncestorClosed(landed)
    ensures dropRate <= 0.0 ==> |landed| == |gt| && Summarize(landed).reason == Complete
  {
    var recorded;
    gt, landed, recorded := SendTrace(cfg, draws, dropRate, injector);
    m, verdicts, edges := ScoreTrace(gt, landed, recorded);
  }

  /** One trace, scored against what was recorded of it. */
  method ScoreTrace(gt: seq<SpanRow>, landed: seq<SpanRow>, recorded: seq<Edge>)
    returns (m: Metrics, verdicts: Verdicts, edges: seq<ServiceEdge>)
    requires GroundTruth(gt) && Landing(gt, landed) && Records(gt, recorded)
    ensures Scores(m, TrueSpans(gt), LandedIds(landed), verdicts) && m.edges == ScoreEdges(TrueEdges(gt), EdgeKeys(edges))
    ensures m.attachmentCorrect == m.attachmentTotal && m.orphanCorrect == m.orphanTotal
    ensures forall r :: r in landed ==> SpanKey(r) in verdicts && verdicts[SpanKey(r)] == Deserved(landed, r)
    ensures forall x :: x in edges ==> x.Key() in recorded
  {
    var trueEdges := set e | e in recorded;
    assert trueEdges == TrueEdges(gt);
    m, verdicts, edges := Evaluate(gt, landed, trueEdges);
  }

  // ----- A run of many traces -----

  lemma LandingsConcatenate(gt: seq<SpanRow>, landed: seq<SpanRow>, more: seq<SpanRow>, moreLanded: seq<SpanRow>)
    requires Landing(gt, landed) && Landing(more, moreLanded)
    requires forall r, s :: r in gt && s in more ==> r.traceId != s.traceId
    ensures Landing(gt + more, landed + moreLanded)
  {
    forall r | r in landed + moreLanded
      ensures EchoesSome(gt + more, r)
    {
      if r in landed {
        assert EchoesSome(gt, r);
        var j :| 0 <= j < |gt| && Echo(gt[j], r);
        assert Echo((gt + more)[j], r);
      } else {
        assert EchoesSome(more, r);
        var j :| 0 <= j < |more| && Echo(more[j], r);
        assert Echo((gt + more)[|gt| + j], r);
      }
    }
    forall i, j | 0 <= i < |landed| && 0 <= j < |moreLanded|
      ensures landed[i].traceId != moreLanded[j].traceId
    {
      assert EchoesSome(gt, landed[i]) && EchoesSome(more, moreLanded[j]);
    }
  }

  lemma OneRootEach(gt: seq<SpanRow>, more: seq<SpanRow>, trace: string)
    requires forall r, s :: r in gt && s in more ==> r.traceId != s.traceId
    requires OneRoot(gt, trace) && OneRoot(more, trace)
    ensures OneRoot(gt + more, trace)
  {
  }

  /** Calls of different traces do not mix. */
  lemma CallsConcatenate(gt: seq<SpanRow>, more: seq<SpanRow>, e: Edge)
    requires forall r, s :: r in gt && s in more ==> r.traceId != s.traceId
    ensures |CallsAlong(gt + more, e)| == |CallsAlong(gt, e)| + |CallsAlong(more, e)|
  {
    forall c
      ensures c in CallsAlong(gt + more, e) <==> c in CallsAlong(gt, e) || c in CallsAlong(more, e)
    {
      if c in CallsAlong(gt + more, e) {
        var p :| p in gt + more && CallsAs(p, c, e);
        assert (p in gt && c in gt) || (p in more && c in more);
      }
    }
    assert CallsAlong(gt + more, e) == CallsAlong(gt, e) + CallsAlong(more, e);
    assert CallsAlong(gt, e) !! CallsAlong(more, e);
  }

  lemma RecordsConcatenate(gt: seq<SpanRow>, recorded: seq<Edge>, more: seq<SpanRow>, moreRecorded: seq<Edge>)
    requires Records(gt, recorded) && Records(more, moreRecorded)
    requires forall r, s :: r in gt && s in more ==> r.traceId != s.traceId
    ensures Records(gt + more, recorded + moreRecorded)
  {
    TrueEdgesConcatenate(gt, more);
    forall e
      ensures |CallsAlong(gt + more, e)| == |CallsAlong(gt, e)| + |CallsAlong(more, e)|
    {
      CallsConcatenate(gt, more, e);
    }
  }

  /** Ground truth with one root per trace, what landed of it, and its edges as recorded. */
  ghost predicate IsRun(gt: seq<SpanRow>, landed: seq<SpanRow>, recorded: seq<Edge>) {
    GroundTruth(gt) && Landing(gt, landed) && (forall t :: OneRoot(gt, t)) && Records(gt, recorded)
  }

  /** What is not dropped of many traces, each thinned out by its own draws. */
  function ThinnedAll(traces: seq<seq<SpanRow>>, draws: seq<Draws>, dropRate: real): seq<SpanRow>
    requires |traces| == |draws|
  {
    if traces == [] then []
    else
      var n := |traces| - 1;
      ThinnedAll(traces[..n], draws[..n], dropRate) + Thinned(traces[n], dropRate, draws[n].loses)
  }

  ghost predicate DistinctTraces(draws: seq<Draws>) {
    forall i, j :: 0 <= i < j < |draws| ==> draws[i].traceId != draws[j].traceId
  }

  /** One generated trace for each element of `draws`, and what lands of them by these clocks. */
  ghost predicate ComesFrom(
    cfg: Config, draws: seq<Draws>, dropRate: real, o: Skew, traces: seq<seq<SpanRow>>, gt: seq<SpanRow>, landed: seq<SpanRow>)
  {
    && |traces| == |draws| && (forall i :: 0 <= i < |draws| ==> Generated(cfg, draws[i], traces[i]))
    && gt == Flatten(traces) && landed == SkewRows(ThinnedAll(traces, draws, dropRate), o)
  }

  lemma {:induction false} ThinnedAllAreTrue(traces: seq<seq<SpanRow>>, draws: seq<Draws>, dropRate: real, r: SpanRow)
    requires |traces| == |draws|
    ensures r in ThinnedAll(traces, draws, dropRate) ==> r in Flatten(traces)
  {
    if traces == [] {
    } else {
      var n := |traces| - 1;
      ThinnedAllAreTrue(traces[..n], draws[..n], dropRate, r);
      ThinnedIs(traces[n], dropRate, draws[n].loses, r);
    }
  }

  lemma SkewRowsConcat(rows: seq<SpanRow>, more: seq<SpanRow>, o: Skew)
    ensures SkewRows(rows + more, o) == SkewRows(rows, o) + SkewRows(more, o)
  {
  }

  /** One more trace; the clocks that the earlier ones showed have not changed. */
  lemma ComesFromOneMore(
    cfg: Config, draws: seq<Draws>, dropRate: real, o: Skew, traces: seq<seq<SpanRow>>, gt: seq<SpanRow>, landed: seq<SpanRow>,
    o': Skew, d: Draws, more: seq<SpanRow>, moreLanded: seq<SpanRow>)
    requires ComesFrom(cfg, draws, dropRate, o, traces, gt, landed) && Generated(cfg, d, more)
    requires forall r :: r in gt ==> o'(r.service) == o(r.service)
    requires moreLanded == SkewRows(Thinned(more, dropRate, d.loses), o')
    ensures ComesFrom(cfg, draws + [d], dropRate, o', traces + [more], gt + more, landed + moreLanded)
  {
    var thinned := ThinnedAll(traces, draws, dropRate);
    forall r | r in thinned
      ensures o(r.service) == o'(r.service)
    {
      ThinnedAllAreTrue(traces, draws, dropRate, r);
    }
    SameSkew(thinned, o, o');
    SkewRowsConcat(thinned, Thinned(more, dropRate, d.loses), o');
    FlattenOneMore(traces, more);
    assert (traces + [more])[..|traces|] == traces && (draws + [d])[..|draws|] == draws;
  }

  /** What is decided about these spans' services stays decided. */
  lemma ClocksStay(rows: seq<SpanRow>, rate: real, offsets: map<string, int>, offsets': map<string, int>, root: string)
    requires forall s :: s in offsets ==> s in offsets' && offsets'[s] == offsets[s]
    requires root !in offsets && root !in offsets'
    requires rate > 0.0 ==> forall r :: r in rows ==> r.service == root || r.service in offsets
    ensures forall r :: r in rows ==> SkewOf(rate, offsets')(r.service) == SkewOf(rate, offsets)(r.service)
  {
  }

  lemma {:induction false} TracesAreOfDraws(cfg: Config, draws: seq<Draws>, traces: seq<seq<SpanRow>>, r: SpanRow)
    requires |traces| == |draws| && forall i :: 0 <= i < |draws| ==> Generated(cfg, draws[i], traces[i])
    requires r in Flatten(traces)
    ensures OfSome(draws, r)
  {
    if traces == [] {
    } else {
      var n := |traces| - 1;
      if r in traces[n] {
        GeneratedIs(cfg, draws[n], traces[n]);
      } else {
        TracesAreOfDraws(cfg, draws[..n], traces[..n], r);
      }
      OfSomeOneMore(draws, n, r);
    }
  }

  /** The spans of one more trace are of no earlier one. */
  lemma TracesAreApart(cfg: Config, draws: seq<Draws>, traces: seq<seq<SpanRow>>, d: Draws, more: seq<SpanRow>)
    requires |traces| == |draws| && forall i :: 0 <= i < |draws| ==> Generated(cfg, draws[i], traces[i])
    requires Generated(cfg, d, more) && forall i :: 0 <= i < |draws| ==> draws[i].traceId != d.traceId
    ensures forall r, s :: r in Flatten(traces) && s in more ==> r.traceId != s.traceId
  {
    GeneratedIs(cfg, d, more);
    forall r, s | r in Flatten(traces) && s in more
      ensures r.traceId != s.traceId
    {
      TracesAreOfDraws(cfg, draws, traces, r);
    }
  }

  /** A run without its last trace is a run. */
  lemma ComesFromInit(
    cfg: Config, draws: seq<Draws>, dropRate: real, o: Skew, traces: seq<seq<SpanRow>>, gt: seq<SpanRow>, landed: seq<SpanRow>,
    n: nat)
    returns (init: seq<SpanRow>, initLanded: seq<SpanRow>)
    requires ComesFrom(cfg, draws, dropRate, o, traces, gt, landed) && n + 1 == |draws|
    ensures ComesFrom(cfg, draws[..n], dropRate, o, traces[..n], init, initLanded)
    ensures Generated(cfg, draws[n], traces[n])
    ensures gt == init + traces[n] && landed == initLanded + SkewRows(Thinned(traces[n], dropRate, draws[n].loses), o)
  {
    var thinned := ThinnedAll(traces[..n], draws[..n], dropRate);
    init, initLanded := Flatten(traces[..n]), SkewRows(thinned, o);
    SkewRowsConcat(thinned, Thinned(traces[n], dropRate, draws[n].loses), o);
  }

  lemma {:induction false} RunIsTrue(
    cfg: Config, draws: seq<Draws>, dropRate: real, o: Skew, traces: seq<seq<SpanRow>>, gt: seq<SpanRow>, landed: seq<SpanRow>)
    requires ComesFrom(cfg, draws, dropRate, o, traces, gt, landed) && DistinctTraces(draws)
    ensures GroundTruth(gt) && Landing(gt, landed) && forall t :: OneRoot(gt, t)
    decreases |draws|
  {
    if draws == [] {
    } else {
      var n := |draws| - 1;
      var more, d := traces[n], draws[n];
      var init, initLanded := ComesFromInit(cfg, draws, dropRate, o, traces, gt, landed, n);
      RunIsTrue(cfg, draws[..n], dropRate, o, traces[..n], init, initLanded);
      TraceIsTrue(cfg, d, dropRate, o, more);
      TracesAreApart(cfg, draws[..n], traces[..n], d, more);
      RunExtends(init, initLanded, more, SkewRows(Thinned(more, dropRate, d.loses), o));
    }
  }

  /** r is of one of the traces that these draws make. */
  ghost predicate OfSome(draws: seq<Draws>, r: SpanRow) {
    exists j :: 0 <= j < |draws| && draws[j].traceId == r.traceId
  }

  lemma OfSomeOneMore(draws: seq<Draws>, n: nat, r: SpanRow)
    requires n < |draws| && (OfSome(draws[..n], r) || draws[n].traceId == r.traceId)
    ensures OfSome(draws, r)
  {
    if OfSome(draws[..n], r) {
      var j :| 0 <= j < n && draws[..n][j].traceId == r.traceId;
      assert draws[j].traceId == r.traceId;
    }
  }

  lemma TraceIsTrue(cfg: Config, d: Draws, dropRate: real, o: Skew, gt: seq<SpanRow>)
    requires Generated(cfg, d, gt)
    ensures GroundTruth(gt) && Landing(gt, SkewRows(Thinned(gt, dropRate, d.loses), o)) && forall t :: OneRoot(gt, t)
    ensures forall r :: r in gt ==> r.traceId == d.traceId
  {
    GeneratedIs(cfg, d, gt);
    ThinnedLands(gt, dropRate, d.loses, o);
  }

  lemma RunExtends(gt: seq<SpanRow>, landed: seq<SpanRow>, more: seq<SpanRow>, moreLanded: seq<SpanRow>)
    requires GroundTruth(gt) && Landing(gt, landed) && GroundTruth(more) && Landing(more, moreLanded)
    requires (forall t :: OneRoot(gt, t)) && (forall t :: OneRoot(more, t))
    requires forall r, s :: r in gt && s in more ==> r.traceId != s.traceId
    ensures GroundTruth(gt + more) && Landing(gt + more, landed + moreLanded) && forall t :: OneRoot(gt + more, t)
  {
    RunsConcatenate(gt, more);
    LandingsConcatenate(gt, landed, more, moreLanded);
    forall t
      ensures OneRoot(gt + more, t)
    {
      OneRootEach(gt, more, t);
    }
  }

  lemma RunOneMore(
    cfg: Config, draws: seq<Draws>, dropRate: real, o: Skew, traces: seq<seq<SpanRow>>, gt: seq<SpanRow>, landed: seq<SpanRow>,
    recorded: seq<Edge>, o': Skew, d: Draws, more: seq<SpanRow>, moreLanded: seq<SpanRow>, moreRecorded: seq<Edge>)
    requires ComesFrom(cfg, draws, dropRate, o, traces, gt, landed) && Records(gt, recorded)
    requires DistinctTraces(draws + [d])
    requires forall r :: r in gt ==> o'(r.service) == o(r.service)
    requires Generated(cfg, d, more) && moreLanded == SkewRows(Thinned(more, dropRate, d.loses), o') && Records(more, moreRecorded)
    ensures ComesFrom(cfg, draws + [d], dropRate, o', traces + [more], gt + more, landed + moreLanded)
    ensures Records(gt + more, recorded + moreRecorded)
  {
    ComesFromOneMore(cfg, draws, dropRate, o, traces, gt, landed, o', d, more, moreLanded);
    assert forall i :: 0 <= i < |draws| ==> (draws + [d])[i] == draws[i];
    TracesAreApart(cfg, draws, traces, d, more);
    RecordsConcatenate(gt, recorded, more, moreRecorded);
  }

  datatype Run = Run(traces: seq<seq<SpanRow>>, gt: seq<SpanRow>, landed: seq<SpanRow>, recorded: seq<Edge>)

  /** The runs that these draws can lead to, by these clocks. */
  ghost function Runs(cfg: Config, draws: seq<Draws>, dropRate: real, o: Skew): iset<Run> {
    iset r: Run | ComesFrom(cfg, draws, dropRate, o, r.traces, r.gt, r.landed) && Records(r.gt, r.recorded)
  }

  function Extended(r: Run, more: seq<SpanRow>, moreLanded: seq<SpanRow>, moreRecorded: seq<Edge>): Run {
    Run(r.traces + [more], r.gt + more, r.landed + moreLanded, r.recorded + moreRecorded)
  }

  /** One turn of the generation loop. */
  method SendOneMore(
    cfg: Config, ghost done: seq<Draws>, d: Draws, dropRate: real, injector: ClockSkewInjector, ghost r: Run)
    returns (more: seq<SpanRow>, moreLanded: seq<SpanRow>, moreRecorded: seq<Edge>)
    requires cfg.Valid() && injector.Valid() && d.Valid() && injector.Decides(r.gt)
    requires r in Runs(cfg, done, dropRate, injector.Clocks()) && DistinctTraces(done + [d])
    modifies injector
    ensures injector.Valid() && injector.Keeps(old(injector.offsets)) && injector.Decides(r.gt + more)
    ensures Extended(r, more, moreLanded, moreRecorded) in Runs(cfg, done + [d], dropRate, injector.Clocks())
  {
    ghost var offsets, o := injector.offsets, injector.Clocks();
    more, moreLanded, moreRecorded := SendTrace(cfg, d, dropRate, injector);
    ClocksStay(r.gt, injector.rate, offsets, injector.offsets, injector.rootService);
    RunOneMore(
      cfg, done, dropRate, o, r.traces, r.gt, r.landed, r.recorded, injector.Clocks(), d, more, moreLanded, moreRecorded);
  }

  lemma OneMoreDraw(draws: seq<Draws>, done: seq<Draws>, i: nat)
    requires i < |draws| && done == draws[..i] && DistinctTraces(draws)
    ensures done + [draws[i]] == draws[..i + 1] && DistinctTraces(done + [draws[i]])
  {
  }

  /** The generation loop: every trace goes through the same injector, whose offsets stay. */
  method SendTraces(cfg: Config, draws: seq<Draws>, dropRate: real, injector: ClockSkewInjector)
    returns (ghost traces: seq<seq<SpanRow>>, gt: seq<SpanRow>, landed: seq<SpanRow>, recorded: seq<Edge>)
    requires cfg.Valid() && injector.Valid() && DistinctTraces(draws)
    requires forall i :: 0 <= i < |draws| ==> draws[i].Valid()
    modifies injector
    ensures injector.Valid() && injector.Keeps(old(injector.offsets)) && injector.Decides(gt)
    ensures Run(traces, gt, landed, recorded) in Runs(cfg, draws, dropRate, injector.Clocks())
  {
    traces, gt, landed, recorded := [], [], [], [];
    ghost var done: seq<Draws> := [];
    for i := 0 to |draws|
      invariant injector.Valid() && injector.Keeps(old(injector.offsets)) && injector.Decides(gt)
      invariant done == draws[..i] && Run(traces, gt, landed, recorded) in Runs(cfg, done, dropRate, injector.Clocks())
    {
      ghost var r := Run(traces, gt, landed, recorded);
      OneMoreDraw(draws, done, i);
      var more, moreLanded, moreRecorded := SendOneMore(cfg, done, draws[i], dropRate, injector, r);
      done := done + [draws[i]];
      traces, gt, landed, recorded := traces + [more], gt + more, landed + moreLanded, recorded + moreRecorded;
    }
    assert done == draws;
  }

  /** A run of many traces: ground truth, what landed of it, and what was recorded. */
  method RunTraces(cfg: Config, draws: seq<Draws>, dropRate: real, injector: ClockSkewInjector)
    returns (ghost traces: seq<seq<SpanRow>>, gt: seq<SpanRow>, landed: seq<SpanRow>, recorded: seq<Edge>)
    requires cfg.Valid() && injector.Valid() && DistinctTraces(draws)
    requires forall i :: 0 <= i < |draws| ==> draws[i].Valid()
    modifies injector
    ensures injector.Valid() && injector.Keeps(old(injector.offsets)) && injector.Decides(gt)
    ensures ComesFrom(cfg, draws, dropRate, injector.Clocks(), traces, gt, landed)
    ensures IsRun(gt, landed, recorded)
  {
    traces, gt, landed, recorded := SendTraces(cfg, draws, dropRate, injector);
    RunIsTrue(cfg, draws, dropRate, injector.Clocks(), traces, gt, landed);
  }

  /** `Chain.Apply` over the two faults. */
  method InjectFaults(plan: seq<PlannedSpan>, dropRate: real, draw: nat -> real, injector: ClockSkewInjector)
    returns (faulted: seq<PlannedSpan>)
    requires injector.Valid()
    modifies injector
    ensures injector.Valid() && |faulted| == |plan| && injector.Keeps(old(injector.offsets)) && injector.Decides(Rows(plan))
    ensures Rows(faulted) == SkewRows(Rows(plan), injector.Clocks())
    ensures forall i :: 0 <= i < |plan| ==> (faulted[i].drop <==> plan[i].drop || Lost(dropRate, draw, i))
  {
    var dropped := Drop(plan, dropRate, draw);
    faulted := injector.Apply(dropped);
  }

  lemma LandedTrace(plan: seq<PlannedSpan>, shape: Shape, dropRate: real, loses: nat -> real, o: Skew)
    requires IsTrace(plan, shape)
    ensures GroundTruth(Rows(plan)) && Landing(Rows(plan), SkewRows(Thinned(Rows(plan), dropRate, loses), o))
    ensures var landed := SkewRows(Thinned(Rows(plan), dropRate, loses), o);
            && (Summarize(landed).reason == Complete <==> landed != [] && AncestorClosed(landed))
            && (dropRate <= 0.0 ==> |landed| == |plan| && landed != [] && AncestorClosed(landed))
  {
    var trace := plan[0].row.traceId;
    var gt, landed := Rows(plan), SkewRows(Thinned(Rows(plan), dropRate, loses), o);
    PlanIsGroundTruth(plan, shape);
    ThinnedLands(gt, dropRate, loses, o);
    LandedIsOfTrace(plan, shape, landed);
    OneTraceOneRoot(plan, shape, trace);
    OnlyTrace(landed, trace);
    CompleteIffAncestorClosed(gt, landed, trace);
    if dropRate <= 0.0 {
      NothingThinned(gt, dropRate, loses);
      SkewedIsClosed(plan, shape, o);
    }
  }

  lemma LandedIsOfTrace(plan: seq<PlannedSpan>, shape: Shape, landed: seq<SpanRow>)
    requires IsTrace(plan, shape) && Landing(Rows(plan), landed)
    ensures forall r :: r in landed ==> r.traceId == plan[0].row.traceId
  {
    forall r | r in landed
      ensures r.traceId == plan[0].row.traceId
    {
      assert EchoesSome(Rows(plan), r);
    }
  }

  lemma SkewedIsClosed(plan: seq<PlannedSpan>, shape: Shape, o: Skew)
    requires IsTrace(plan, shape)
    ensures SkewRows(Rows(plan), o) != [] && AncestorClosed(SkewRows(Rows(plan), o))
  {
    var rows := SkewRows(Rows(plan), o);
    forall r | r in rows && r.parent != ""
      ensures r.parent in Ids(rows)
    {
      var j :| 0 <= j < |rows| && rows[j] == r;
      assert Hangs(plan, shape, j);
      assert rows[shape.up[j]] in rows;
    }
  }
}
