/**
  A whole run through the analyzer's windows: every window reads what starts in it and has landed by
  the time it is processed (`analyzer/main.py`, `analyzer/reader.py`), and the run is scored over all
  that landed.
 */
module WindowedRun {
  import opened Collections
  import opened Spans
  import opened TraceGroups
  import opened CallGraph
  import opened Evaluation
  import opened TracePlan
  import opened Generator
  import opened Faults
  import opened EndToEnd
  import opened Scoring
  import opened FaultRun
  import opened Windowing

  /** When each span reaches the table. */
  type Landings = SpanRow -> real

  function Seconds(ns: int): real {
    ns as real / 1_000_000_000.0
  }

  function WindowOf(s: Schedule, r: SpanRow): int
    requires s.Valid()
  {
    s.Index(Seconds(r.start))
  }

  predicate Fetches(w: Processed, landedAt: Landings, r: SpanRow) {
    w.window.start <= Seconds(r.start) < w.window.end && landedAt(r) <= w.at
  }

  function FetchWindow(landed: seq<SpanRow>, landedAt: Landings, w: Processed): seq<SpanRow> {
    if landed == [] then []
    else
      var last := landed[|landed| - 1];
      FetchWindow(landed[..|landed| - 1], landedAt, w) + if Fetches(w, landedAt, last) then [last] else []
  }

  lemma {:induction false} FetchWindowIs(landed: seq<SpanRow>, landedAt: Landings, w: Processed, r: SpanRow)
    ensures r in FetchWindow(landed, landedAt, w) <==> r in landed && Fetches(w, landedAt, r)
  {
    if landed == [] {
    } else {
      var init, last := landed[..|landed| - 1], landed[|landed| - 1];
      FetchWindowIs(init, landedAt, w, r);
      assert landed == init + [last];
    }
  }

  lemma {:induction false} FetchedAreUnique(landed: seq<SpanRow>, landedAt: Landings, w: Processed)
    requires UniqueSpans(landed)
    ensures UniqueSpans(FetchWindow(landed, landedAt, w))
  {
    if landed == [] {
    } else {
      var init, last := landed[..|landed| - 1], landed[|landed| - 1];
      FetchedAreUnique(init, landedAt, w);
      forall i | 0 <= i < |FetchWindow(init, landedAt, w)|
        ensures SpanKey(FetchWindow(init, landedAt, w)[i]) != SpanKey(last)
      {
        FetchWindowIs(init, landedAt, w, FetchWindow(init, landedAt, w)[i]);
      }
    }
  }

  function ReadBatches(landed: seq<SpanRow>, landedAt: Landings, processed: seq<Processed>): (batches: seq<seq<SpanRow>>)
    ensures |batches| == |processed|
  {
    seq(|processed|, k requires 0 <= k < |processed| => FetchWindow(landed, landedAt, processed[k]))
  }

  /** What the poll loop has processed after these clock readings. */
  ghost predicate IsLog(s: Schedule, clock: seq<real>, processed: seq<Processed>)
    requires s.Valid()
  {
    if clock == [] then processed == [] else ProcessedAre(s, clock, processed)
  }

  /** The number of the processed window that r starts in. */
  function Slot(s: Schedule, clock: seq<real>, r: SpanRow): int
    requires s.Valid()
  {
    if clock == [] then -1 else WindowOf(s, r) - s.Index(clock[0])
  }

  /** r's window has been processed, and not before r landed. */
  predicate InTime(s: Schedule, clock: seq<real>, processed: seq<Processed>, landedAt: Landings, r: SpanRow)
    requires s.Valid()
  {
    var k := Slot(s, clock, r);
    0 <= k < |processed| && landedAt(r) <= processed[k].at
  }

  lemma ReadIff(
    s: Schedule, clock: seq<real>, processed: seq<Processed>, landed: seq<SpanRow>, landedAt: Landings, k: int, r: SpanRow)
    requires s.Valid() && IsLog(s, clock, processed)
    ensures InBatch(ReadBatches(landed, landedAt, processed), k, r) <==>
            r in landed && InTime(s, clock, processed, landedAt, r) && k == Slot(s, clock, r)
  {
    if 0 <= k < |processed| {
      FetchWindowIs(landed, landedAt, processed[k], r);
      s.WindowsPartitionTime(Seconds(r.start), s.Index(clock[0]) + k);
    }
  }

  lemma ReadAreBatches(s: Schedule, clock: seq<real>, processed: seq<Processed>, landed: seq<SpanRow>, landedAt: Landings)
    requires s.Valid() && IsLog(s, clock, processed) && UniqueSpans(landed)
    ensures Batches(landed, ReadBatches(landed, landedAt, processed))
  {
    var batches := ReadBatches(landed, landedAt, processed);
    forall k | 0 <= k < |batches|
      ensures UniqueSpans(batches[k])
    {
      FetchedAreUnique(landed, landedAt, processed[k]);
    }
    forall k, r
      ensures InBatch(batches, k, r) ==> r in landed && k == Slot(s, clock, r)
    {
      ReadIff(s, clock, processed, landed, landedAt, k, r);
    }
  }

  /** Two landed spans are read together exactly if both are in time and they start in the same window. */
  lemma TogetherIff(
    s: Schedule, clock: seq<real>, processed: seq<Processed>, landed: seq<SpanRow>, landedAt: Landings, p: SpanRow, c: SpanRow)
    requires s.Valid() && IsLog(s, clock, processed) && p in landed && c in landed
    ensures Together(ReadBatches(landed, landedAt, processed), p, c) <==>
            InTime(s, clock, processed, landedAt, p) && InTime(s, clock, processed, landedAt, c) && WindowOf(s, p) == WindowOf(s, c)
  {
    var batches := ReadBatches(landed, landedAt, processed);
    forall k
      ensures InBatch(batches, k, p) <==> InTime(s, clock, processed, landedAt, p) && k == Slot(s, clock, p)
      ensures InBatch(batches, k, c) <==> InTime(s, clock, processed, landedAt, c) && k == Slot(s, clock, c)
    {
      ReadIff(s, clock, processed, landed, landedAt, k, p);
      ReadIff(s, clock, processed, landed, landedAt, k, c);
    }
    var k := Slot(s, clock, p);
    assert InBatch(batches, k, p) <==> InTime(s, clock, processed, landedAt, p);
    assert InBatch(batches, k, c) <==> InTime(s, clock, processed, landedAt, c) && k == Slot(s, clock, c);
  }

  ghost predicate AllInTime(s: Schedule, clock: seq<real>, processed: seq<Processed>, landed: seq<SpanRow>, landedAt: Landings)
    requires s.Valid()
  {
    forall r :: r in landed ==> InTime(s, clock, processed, landedAt, r)
  }

  ghost predicate Crosses(s: Schedule, landed: seq<SpanRow>, c: SpanRow)
    requires s.Valid()
  {
    exists p :: p in landed && Calls(p, c) && WindowOf(s, p) != WindowOf(s, c)
  }

  /** The calls that landed whole and whose ends start in different windows, each named by its callee. */
  ghost function CrossingCalls(s: Schedule, landed: seq<SpanRow>): set<SpanRow>
    requires s.Valid()
  {
    set c | c in landed && Crosses(s, landed, c)
  }

  /** If nothing is late, exactly the calls that cross a window boundary are split, and no orphan goes unread. */
  lemma InTimeSplits(s: Schedule, clock: seq<real>, processed: seq<Processed>, landed: seq<SpanRow>, landedAt: Landings)
    requires s.Valid() && IsLog(s, clock, processed) && AllInTime(s, clock, processed, landed, landedAt)
    ensures var batches := ReadBatches(landed, landedAt, processed);
            SplitCalls(landed, batches) == CrossingCalls(s, landed) && UnreadOrphans(landed, batches) == {}
  {
    var batches := ReadBatches(landed, landedAt, processed);
    forall c | c in landed
      ensures IsSplit(landed, batches, c) <==> Crosses(s, landed, c)
      ensures IsRead(batches, c)
    {
      forall p | p in landed
        ensures Together(batches, p, c) <==> WindowOf(s, p) == WindowOf(s, c)
      {
        TogetherIff(s, clock, processed, landed, landedAt, p, c);
      }
      ReadIff(s, clock, processed, landed, landedAt, Slot(s, clock, c), c);
    }
  }

  /** What the analyzer reports of a run, and how that is scored. */
  ghost predicate Scored(
    gt: seq<SpanRow>, landed: seq<SpanRow>, recorded: seq<Edge>, batches: seq<seq<SpanRow>>, m: Metrics, verdicts: Verdicts,
    edges: seq<ServiceEdge>)
  {
    && Scores(m, TrueSpans(gt), LandedIds(landed), verdicts) && VerdictsSoFar(batches, verdicts)
    && m.edges == ScoreEdges(TrueEdges(gt), EdgeKeys(edges))
    && (forall e :: e in EdgeKeys(edges) <==> EdgeIsRead(batches, e))
    && (forall e :: multiset(recorded)[e] == CallTotal(edges, e) + |MissedCalls(gt, landed, batches, e)|)
  }

  /**
    The poll loop reads a run window by window, and the run is scored.  If every span landed in
    time, attachment falls short by exactly the calls whose ends start in different windows, so it
    is full if and only if there is none; orphans are all recognised.
   */
  method EvaluateRun(
    s: Schedule, clock: seq<real>, gt: seq<SpanRow>, landed: seq<SpanRow>, landedAt: Landings, recorded: seq<Edge>)
    returns (m: Metrics, verdicts: Verdicts, edges: seq<ServiceEdge>, processed: seq<Processed>)
    requires s.Valid() && IsRun(gt, landed, recorded)
    ensures IsLog(s, clock, processed)
    ensures Scored(gt, landed, recorded, ReadBatches(landed, landedAt, processed), m, verdicts, edges)
    ensures var batches := ReadBatches(landed, landedAt, processed);
            && m.attachmentTotal == m.attachmentCorrect + |SplitCalls(landed, batches)|
            && m.orphanTotal == m.orphanCorrect + |UnreadOrphans(landed, batches)|
    ensures AllInTime(s, clock, processed, landed, landedAt) ==>
              && m.attachmentTotal == m.attachmentCorrect + |CrossingCalls(s, landed)|
              && m.orphanTotal == m.orphanCorrect
    ensures forall x :: x in edges ==> x.Key() in recorded
    ensures edges != [] ==> m.edges.precision == Some(1.0)
  {
    var boundaries;
    processed, boundaries := Windowing.Run(s, clock);
    ReadAreBatches(s, clock, processed, landed, landedAt);
    var trueEdges := set e | e in recorded;
    m, verdicts, edges := EvaluateBatches(gt, landed, ReadBatches(landed, landedAt, processed), trueEdges);
    KeysAreListed(edges, trueEdges);
    if AllInTime(s, clock, processed, landed, landedAt) {
      InTimeSplits(s, clock, processed, landed, landedAt);
    }
  }

  /**
    From random choices to scores: any number of traces, one injector, any clock.  What lands is
    what the draws keep of the generated traces, each span moved by its service's one offset.
   */
  method ScoreRun(
    cfg: Config, draws: seq<Draws>, dropRate: real, injector: ClockSkewInjector, s: Schedule, clock: seq<real>, landedAt: Landings)
    returns (
      ghost traces: seq<seq<SpanRow>>, gt: seq<SpanRow>, landed: seq<SpanRow>, recorded: seq<Edge>,
      m: Metrics, verdicts: Verdicts, edges: seq<ServiceEdge>, processed: seq<Processed>)
    requires cfg.Valid() && injector.Valid() && s.Valid() && DistinctTraces(draws)
    requires forall i :: 0 <= i < |draws| ==> draws[i].Valid()
    modifies injector
    ensures ComesFrom(cfg, draws, dropRate, injector.Clocks(), traces, gt, landed) && IsRun(gt, landed, recorded)
    ensures IsLog(s, clock, processed)
    ensures Scored(gt, landed, recorded, ReadBatches(landed, landedAt, processed), m, verdicts, edges)
    ensures AllInTime(s, clock, processed, landed, landedAt) ==>
              && (m.attachmentCorrect == m.attachmentTotal <==> CrossingCalls(s, landed) == {})
              && m.orphanCorrect == m.orphanTotal
    ensures forall x :: x in edges ==> x.Key() in recorded
    ensures edges != [] ==> m.edges.precision == Some(1.0)
  {
    traces, gt, landed, recorded := RunTraces(cfg, draws, dropRate, injector);
    m, verdicts, edges, processed := EvaluateRun(s, clock, gt, landed, landedAt, recorded);
    NoneIfNoCardinality(CrossingCalls(s, landed));
  }

  lemma NoneIfNoCardinality<T>(s: set<T>)
    ensures |s| == 0 <==> s == {}
  {
  }

  // ----- A call torn apart -----

  /** Parent and child of a trace that starts at `start`, the child's clock off by `skew`. */
  function ParentRow(start: int): SpanRow {
    SpanRow("t", "p", "", "frontend", start, start + 10_000_000, 1)
  }

  function ChildRow(start: int, skew: int): SpanRow {
    SpanRow("t", "c", "p", "checkout", start + 2_000_000 + skew, start + 4_000_000 + skew, 1)
  }

  function TwoSpans(start: int): seq<PlannedSpan> {
    [PlannedSpan(ParentRow(start), false), PlannedSpan(ChildRow(start, 0), false)]
  }

  lemma TwoSpansAreATrace(start: int)
    ensures IsTrace(TwoSpans(start), Shape([-1, 0], [{}, {"frontend"}]))
    ensures Landing(Rows(TwoSpans(start)), [ParentRow(start), ChildRow(start, 0)])
  {
    var plan, shape := TwoSpans(start), Shape([-1, 0], [{}, {"frontend"}]);
    assert Hangs(plan, shape, 1);
    assert Rows(plan) == [ParentRow(start), ChildRow(start, 0)];
    assert Echo(Rows(plan)[0], ParentRow(start)) && Echo(Rows(plan)[1], ChildRow(start, 0));
  }

  /** With windows of a minute. */
  const MINUTES := Schedule(60, 30)

  lemma WindowIs(r: SpanRow, k: int)
    requires 60 * k * 1_000_000_000 <= r.start < 60 * (k + 1) * 1_000_000_000
    ensures WindowOf(MINUTES, r) == k
  {
    MINUTES.WindowsPartitionTime(Seconds(r.start), k);
  }

  /** A second into any minute: two seconds of skew move the callee into the minute before. */
  lemma SkewTearsACall(k: int, start: int)
    requires k >= 1 && start == 60_000_000_000 * k + 1_000_000_000
    ensures IsTrace(TwoSpans(start), Shape([-1, 0], [{}, {"frontend"}]))
    ensures CrossingCalls(MINUTES, [ParentRow(start), ChildRow(start, 0)]) == {}
    ensures CrossingCalls(MINUTES, [ParentRow(start), ChildRow(start, -2_000_000_000)]) == {ChildRow(start, -2_000_000_000)}
    ensures Landing(Rows(TwoSpans(start)), [ParentRow(start), ChildRow(start, -2_000_000_000)])
  {
    var p, c, skewed := ParentRow(start), ChildRow(start, 0), ChildRow(start, -2_000_000_000);
    TwoSpansAreATrace(start);
    WindowIs(p, k);
    WindowIs(c, k);
    WindowIs(skewed, k - 1);
    assert Calls(p, skewed) && p in [p, skewed];
    assert Echo(Rows(TwoSpans(start))[0], p) && Echo(Rows(TwoSpans(start))[1], skewed);
  }

  /** Without any fault, a trace that starts a millisecond before a minute is torn just as well. */
  lemma AWindowBoundaryTearsACall(k: int, start: int)
    requires k >= 1 && start == 60_000_000_000 * k - 1_000_000
    ensures IsTrace(TwoSpans(start), Shape([-1, 0], [{}, {"frontend"}]))
    ensures CrossingCalls(MINUTES, [ParentRow(start), ChildRow(start, 0)]) == {ChildRow(start, 0)}
  {
    var p, c := ParentRow(start), ChildRow(start, 0);
    TwoSpansAreATrace(start);
    WindowIs(p, k - 1);
    WindowIs(c, k);
    assert Calls(p, c) && p in [p, c];
  }
}
