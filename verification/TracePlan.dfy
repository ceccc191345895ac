/**
  `loadgen/internal/topology`: the plan of one trace as it grows, and how its spans hang together.
 */
module TracePlan {
  import opened Spans

  const CALL_OVERHEAD := 2_000_000
  const CALL_GAP := 1_000_000
  const MIN_LATENCY := 1_000_000

  datatype Config = Config(root: string, services: set<string>, outgoing: map<string, seq<string>>) {
    /** What `validate` has checked. */
    predicate Valid() {
      && root in services
      && forall s :: s in outgoing ==> s in services && forall c :: c in outgoing[s] ==> c in services
    }

    function CalleesOf(caller: string): seq<string> {
      if caller in outgoing then outgoing[caller] else []
    }

    predicate Allows(caller: string, callee: string) {
      caller in outgoing && callee in outgoing[caller]
    }
  }

  datatype PlannedSpan = PlannedSpan(row: SpanRow, drop: bool)

  datatype Result = Success(id: string, end: int) | UnknownService(service: string)

  /**
    Where the plan's spans hang: `up[j]` is the index of j's parent, -1 for the root, and
    `above[j]` the services on the path from the root down to that parent.
   */
  datatype Shape = Shape(up: seq<int>, above: seq<set<string>>)

  /** Span j hangs below an earlier span, runs inside it, and is of a service not yet on its path. */
  ghost predicate Hangs(plan: seq<PlannedSpan>, shape: Shape, j: int)
    requires |shape.up| == |shape.above| == |plan| && 0 <= j < |plan|
  {
    var i, row := shape.up[j], plan[j].row;
    && 0 <= i < j
    && row.parent == plan[i].row.spanId
    && plan[i].row.start + CALL_OVERHEAD <= row.start && row.end <= plan[i].row.end
    && shape.above[j] == shape.above[i] + {plan[i].row.service}
    && row.service !in shape.above[j]
  }

  /** The spans from k on form one subtree, rooted at k. */
  ghost predicate Subtree(plan: seq<PlannedSpan>, shape: Shape, k: int) {
    && |shape.up| == |shape.above| == |plan| && 0 <= k < |plan|
    && plan[k].row.start + MIN_LATENCY <= plan[k].row.end
    && plan[k].row.service !in shape.above[k]
    && (forall j :: k < j < |plan| ==> k <= shape.up[j] && Hangs(plan, shape, j))
    && (forall i, j :: k < i < j < |plan| && shape.up[i] == shape.up[j] ==> plan[i].row.end + CALL_GAP <= plan[j].row.start)
  }

  /** The same, while the span at k still waits for its end time; `free` is when its next call may start. */
  ghost predicate Growing(plan: seq<PlannedSpan>, shape: Shape, k: int, start: int, lastEnd: int, free: int) {
    && |shape.up| == |shape.above| == |plan| && 0 <= k < |plan|
    && plan[k].row.service !in shape.above[k]
    && (forall j :: k < j < |plan| ==> k <= shape.up[j] && if shape.up[j] == k then Called(plan, shape, k, j, start, lastEnd, free) else Hangs(plan, shape, j))
    && (forall i, j :: k < i < j < |plan| && shape.up[i] == shape.up[j] ==> plan[i].row.end + CALL_GAP <= plan[j].row.start)
  }

  ghost predicate Called(plan: seq<PlannedSpan>, shape: Shape, k: int, j: int, start: int, lastEnd: int, free: int)
    requires |shape.up| == |shape.above| == |plan| && 0 <= k < j < |plan|
  {
    var row := plan[j].row;
    && row.parent == plan[k].row.spanId
    && start + CALL_OVERHEAD <= row.start && row.end <= lastEnd && row.end + CALL_GAP <= free
    && shape.above[j] == shape.above[k] + {plan[k].row.service}
    && row.service !in shape.above[j]
  }

  /** Every span with a caller is called along a configured edge. */
  ghost predicate Configured(cfg: Config, plan: seq<PlannedSpan>, shape: Shape) {
    && |shape.up| == |plan|
    && forall j :: 0 <= j < |plan| ==>
         shape.up[j] < j && (shape.up[j] >= 0 ==> cfg.Allows(plan[shape.up[j]].row.service, plan[j].row.service))
  }

  lemma ConfiguredOneMore(cfg: Config, plan: seq<PlannedSpan>, shape: Shape, span: PlannedSpan, shape': Shape)
    requires Configured(cfg, plan, shape) && |shape'.up| == |plan| + 1 && shape.up <= shape'.up && shape'.up[|plan|] < |plan|
    requires var up := shape'.up[|plan|]; up >= 0 ==> cfg.Allows(plan[up].row.service, span.row.service)
    ensures Configured(cfg, plan + [span], shape')
  {
    var plan', k := plan + [span], |plan|;
    forall j | 0 <= j < |plan'|
      ensures shape'.up[j] < j
      ensures shape'.up[j] >= 0 ==> cfg.Allows(plan'[shape'.up[j]].row.service, plan'[j].row.service)
    {
      if j < k {
        assert shape'.up[j] == shape.up[j] && plan'[j] == plan[j];
      }
    }
  }

  lemma ConfiguredStays(cfg: Config, plan: seq<PlannedSpan>, shape: Shape, k: nat, span: PlannedSpan)
    requires Configured(cfg, plan, shape) && k < |plan| && span.row.service == plan[k].row.service
    ensures Configured(cfg, plan[k := span], shape)
  {
    var plan' := plan[k := span];
    assert forall j :: 0 <= j < |plan| ==> plan'[j].row.service == plan[j].row.service;
  }

  /** A child's finished subtree, appended below k, at the time its call was due. */
  ghost predicate Appended(
    plan: seq<PlannedSpan>, shape: Shape, k: int, start: int, free: int, plan': seq<PlannedSpan>, shape': Shape)
  {
    var c := |plan|;
    && |shape.up| == |shape.above| == c && 0 <= k < c
    && plan <= plan' && shape.up <= shape'.up && shape.above <= shape'.above
    && Subtree(plan', shape', c)
    && shape'.up[c] == k && plan'[c].row.parent == plan[k].row.spanId
    && plan'[c].row.start == free && start + CALL_OVERHEAD <= free
    && shape'.above[c] == shape.above[k] + {plan[k].row.service}
  }

  /** Appending it keeps the rest in order. */
  lemma GrowthContinues(
    plan: seq<PlannedSpan>, shape: Shape, k: int, start: int, lastEnd: int, free: int,
    plan': seq<PlannedSpan>, shape': Shape)
    requires Growing(plan, shape, k, start, lastEnd, free) && Appended(plan, shape, k, start, free, plan', shape')
    ensures var end := plan'[|plan|].row.end; Growing(plan', shape', k, start, end, end + CALL_GAP)
  {
    var end := plan'[|plan|].row.end;
    forall j | k < j < |plan'|
      ensures k <= shape'.up[j]
      ensures if shape'.up[j] == k then Called(plan', shape', k, j, start, end, end + CALL_GAP) else Hangs(plan', shape', j)
    {
      CallsContinue(plan, shape, k, start, lastEnd, free, plan', shape', j);
    }
    forall i, j | k < i < j < |plan'| && shape'.up[i] == shape'.up[j]
      ensures plan'[i].row.end + CALL_GAP <= plan'[j].row.start
    {
      SiblingsContinue(plan, shape, k, start, lastEnd, free, plan', shape', i, j);
    }
  }

  lemma CallsContinue(
    plan: seq<PlannedSpan>, shape: Shape, k: int, start: int, lastEnd: int, free: int,
    plan': seq<PlannedSpan>, shape': Shape, j: int)
    requires Growing(plan, shape, k, start, lastEnd, free) && Appended(plan, shape, k, start, free, plan', shape')
    requires k < j < |plan'|
    ensures k <= shape'.up[j]
    ensures var end := plan'[|plan|].row.end;
            if shape'.up[j] == k then Called(plan', shape', k, j, start, end, end + CALL_GAP) else Hangs(plan', shape', j)
  {
    var c := |plan|;
    if j < c {
      assert shape'.up[j] == shape.up[j] && plan'[j] == plan[j] && plan'[k] == plan[k];
      if shape.up[j] == k {
        assert Called(plan, shape, k, j, start, lastEnd, free);
      } else {
        assert Hangs(plan, shape, j);
        assert plan'[shape.up[j]] == plan[shape.up[j]];
      }
    } else if j > c {
      assert c <= shape'.up[j] && Hangs(plan', shape', j);
    }
  }

  lemma SiblingsContinue(
    plan: seq<PlannedSpan>, shape: Shape, k: int, start: int, lastEnd: int, free: int,
    plan': seq<PlannedSpan>, shape': Shape, i: int, j: int)
    requires Growing(plan, shape, k, start, lastEnd, free) && Appended(plan, shape, k, start, free, plan', shape')
    requires k < i < j < |plan'| && shape'.up[i] == shape'.up[j]
    ensures plan'[i].row.end + CALL_GAP <= plan'[j].row.start
  {
    var c := |plan|;
    if j < c {
      assert shape'.up[i] == shape.up[i] && shape'.up[j] == shape.up[j];
      assert plan'[i] == plan[i] && plan'[j] == plan[j];
    } else if j == c {
      assert shape'.up[i] == shape.up[i] == k && plan'[i] == plan[i];
      assert Called(plan, shape, k, i, start, lastEnd, free);
    } else {
      assert c <= shape'.up[j];
    }
  }

  /** Setting the root's end once all its calls are back completes the subtree. */
  lemma GrowthEnds(plan: seq<PlannedSpan>, shape: Shape, k: int, start: int, lastEnd: int, free: int, row: SpanRow)
    requires Growing(plan, shape, k, start, lastEnd, free)
    requires row == plan[k].row.(start := start, end := row.end)
    requires start + MIN_LATENCY <= row.end && (|plan| > k + 1 ==> lastEnd <= row.end)
    ensures Subtree(plan[k := plan[k].(row := row)], shape, k)
  {
    var plan' := plan[k := plan[k].(row := row)];
    forall j | k < j < |plan'|
      ensures k <= shape.up[j] && Hangs(plan', shape, j)
    {
      assert plan'[j] == plan[j];
    }
  }
}
