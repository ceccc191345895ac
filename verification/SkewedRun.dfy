/**
  The analyzer's view of a run's clocks: whatever part of a generated and faulted run it reads, it
  sees true spans moved by the injector's offsets (`analyzer/clockskew.py` on what `loadgen` sent).
 */
module SkewedRun {
  import opened Collections
  import opened Spans
  import opened TraceGroups
  import opened CallGraph
  import opened TracePlan
  import opened Generator
  import opened Faults
  import opened EndToEnd
  import opened FaultRun
  import opened ClockSkew
  import opened ClockSkewLaws

  /** Some of the landed spans of a run, and the planned spans they were before their clocks moved them. */
  ghost predicate ReadsOf(gt: seq<SpanRow>, o: Skew, rows: seq<SpanRow>, planned: seq<SpanRow>) {
    rows == SkewRows(planned, o) && forall r :: r in planned ==> r in gt
  }

  lemma RowsReadAreSkewed(
    cfg: Config, draws: seq<Draws>, dropRate: real, o: Skew, traces: seq<seq<SpanRow>>, gt: seq<SpanRow>, landed: seq<SpanRow>,
    rows: seq<SpanRow>)
    returns (planned: seq<SpanRow>)
    requires ComesFrom(cfg, draws, dropRate, o, traces, gt, landed) && forall r :: r in rows ==> r in landed
    ensures ReadsOf(gt, o, rows, planned)
  {
    planned := SkewRows(rows, Undo(o));
    forall i | 0 <= i < |rows|
      ensures planned[i] in gt && SkewRow(planned[i], o) == rows[i]
    {
      var thinned := ThinnedAll(traces, draws, dropRate);
      assert rows[i] in rows;
      var k :| 0 <= k < |landed| && landed[k] == rows[i];
      SkewedBack(thinned[k], o);
      ThinnedAllAreTrue(traces, draws, dropRate, thinned[k]);
    }
    assert SkewRows(planned, o) == rows;
  }

  // ----- Offsets -----

  /**
    The offsets estimated from any part of a run: each is the injector's own offset of that service
    against the root's, plus the excess of the planned delays on its chain of callers.
   */
  lemma EstimatesOfARun(
    cfg: Config, draws: seq<Draws>, dropRate: real, o: Skew, traces: seq<seq<SpanRow>>, gt: seq<SpanRow>, landed: seq<SpanRow>,
    rows: seq<SpanRow>, root: string, offsets: map<string, ServiceOffset>)
    returns (planned: seq<SpanRow>, pairs: seq<Pair>, typical: real, tree: Tree, excess: string -> real)
    requires ComesFrom(cfg, draws, dropRate, o, traces, gt, landed) && forall r :: r in rows ==> r in landed
    requires EstimatesFrom(rows, root, offsets) && offsets != map[]
    ensures ReadsOf(gt, o, rows, planned) && EstimatedBy(planned, o, root, offsets, pairs, typical, tree)
    ensures excess == ExcessOf(pairs, typical) && TrueUpToExcess(offsets, tree, o, excess, root)
  {
    planned := RowsReadAreSkewed(cfg, draws, dropRate, o, traces, gt, landed, rows);
    pairs, typical, tree, excess := EstimatesOfSkewedRows(planned, o, root, offsets);
  }

  /** The injector never skews its root service, so against that root the offsets themselves come out. */
  ghost predicate Reveals(offsets: map<string, ServiceOffset>, o: Skew) {
    forall s :: s in offsets ==> offsets[s].offset == o(s)
  }

  /** Exactly when they do, for planned calls that all typically take the same time. */
  lemma ARunRevealsItsOffsetsIff(
    cfg: Config, draws: seq<Draws>, dropRate: real, o: Skew, traces: seq<seq<SpanRow>>, gt: seq<SpanRow>, landed: seq<SpanRow>,
    rows: seq<SpanRow>, delay: real, root: string, offsets: map<string, ServiceOffset>)
    returns (planned: seq<SpanRow>)
    requires ComesFrom(cfg, draws, dropRate, o, traces, gt, landed) && forall r :: r in rows ==> r in landed
    requires EstimatesFrom(rows, root, offsets) && o(root) == 0
    ensures ReadsOf(gt, o, rows, planned)
    ensures delay >= 0.0 && MediansWithin(planned, delay, delay) && NoCallMirrors(planned, o, delay) ==>
              (Reveals(offsets, o) <==>
                 (SomeCallIsClean(planned, o) && !SomeCallIsInBetween(planned, o, delay)) || offsets.Keys <= {root})
  {
    planned := RowsReadAreSkewed(cfg, draws, dropRate, o, traces, gt, landed, rows);
    assert Reveals(offsets, o) <==> Recovers(offsets, o, root);
    if delay >= 0.0 && MediansWithin(planned, delay, delay) && NoCallMirrors(planned, o, delay) {
      SkewIsRecoveredIff(planned, o, delay, root, offsets);
    }
  }

  lemma InjectorSparesItsRoot(injector: ClockSkewInjector)
    requires injector.Valid()
    ensures injector.Clocks()(injector.rootService) == 0
    ensures forall s :: -injector.maxOffset <= injector.Clocks()(s) <= injector.maxOffset
  {
  }

  // ----- Violations -----

  /** Every planned call starts at least the overhead after its caller and ends with it or before. */
  ghost predicate LeavesOverhead(rows: seq<SpanRow>) {
    forall p, c :: p in rows && c in rows && Calls(p, c) ==> p.start + CALL_OVERHEAD <= c.start && c.end <= p.end
  }

  lemma PlanLeavesOverhead(plan: seq<PlannedSpan>, shape: Shape, gt: seq<SpanRow>)
    requires IsTrace(plan, shape) && gt == Rows(plan)
    ensures LeavesOverhead(gt)
  {
    forall p, c | p in gt && c in gt && Calls(p, c)
      ensures p.start + CALL_OVERHEAD <= c.start && c.end <= p.end
    {
      var i :| 0 <= i < |gt| && gt[i] == p;
      var j :| 0 <= j < |gt| && gt[j] == c;
      ParentIsUp(plan, shape, i, j);
    }
  }

  lemma TraceLeavesOverhead(cfg: Config, d: Draws, gt: seq<SpanRow>)
    requires Generated(cfg, d, gt)
    ensures LeavesOverhead(gt)
  {
    var plan: seq<PlannedSpan>, shape: Shape :| Plans(cfg, d, plan, shape) && gt == Rows(plan);
    PlanLeavesOverhead(plan, shape, gt);
  }

  lemma {:induction false} TracesLeaveOverhead(cfg: Config, draws: seq<Draws>, traces: seq<seq<SpanRow>>)
    requires |traces| == |draws| && DistinctTraces(draws)
    requires forall i :: 0 <= i < |draws| ==> Generated(cfg, draws[i], traces[i])
    ensures LeavesOverhead(Flatten(traces))
  {
    if traces == [] {
    } else {
      var n := |traces| - 1;
      TracesLeaveOverhead(cfg, draws[..n], traces[..n]);
      TraceLeavesOverhead(cfg, draws[n], traces[n]);
      TracesAreApart(cfg, draws[..n], traces[..n], draws[n], traces[n]);
    }
  }

  /** How far the callee's clock is behind its caller's. */
  function Behind(o: Skew, p: SpanRow, c: SpanRow): int {
    o(p.service) - o(c.service)
  }

  /**
    The violations that any part of a run shows: none if and only if every planned call tolerates
    the skew between its ends; and a callee whose clock is neither ahead nor behind by more than the
    call overhead never gives one.
   */
  lemma ARunShowsNoViolationIff(
    cfg: Config, draws: seq<Draws>, dropRate: real, o: Skew, traces: seq<seq<SpanRow>>, gt: seq<SpanRow>, landed: seq<SpanRow>,
    rows: seq<SpanRow>, violations: seq<Violation>)
    returns (planned: seq<SpanRow>)
    requires ComesFrom(cfg, draws, dropRate, o, traces, gt, landed) && DistinctTraces(draws)
    requires (forall r :: r in rows ==> r in landed) && Violations(rows, violations)
    ensures ReadsOf(gt, o, rows, planned)
    ensures violations == [] <==>
              forall p, c :: p in planned && c in planned && Calls(p, c) ==> Tolerates(o, p, c)
    ensures (forall p, c :: p in planned && c in planned && Calls(p, c) ==> 0 <= Behind(o, p, c) <= CALL_OVERHEAD) ==>
              violations == []
  {
    planned := RowsReadAreSkewed(cfg, draws, dropRate, o, traces, gt, landed, rows);
    NoViolationsIff(planned, o, violations);
    TracesLeaveOverhead(cfg, draws, traces);
    forall p, c | p in planned && c in planned && Calls(p, c) && 0 <= Behind(o, p, c) <= CALL_OVERHEAD
      ensures Tolerates(o, p, c)
    {
      assert p in gt && c in gt;
    }
  }
}
