/** A window holds many traces: grouping by trace id, reassembling each, and pairing callers with callees. */
module TraceGroups {
  import opened Collections
  import opened Spans
  import opened Reassembly

  /** The table's key: one row per (trace, span). */
  predicate UniqueSpans(rows: seq<SpanRow>) {
    forall i, j :: 0 <= i < j < |rows| ==> rows[i].traceId != rows[j].traceId || rows[i].spanId != rows[j].spanId
  }

  function TraceRows(rows: seq<SpanRow>, trace: string): seq<SpanRow> {
    if rows == [] then []
    else
      var last := rows[|rows| - 1];
      TraceRows(rows[..|rows| - 1], trace) + if last.traceId == trace then [last] else []
  }

  lemma {:induction false} TraceRowsAre(rows: seq<SpanRow>, trace: string, r: SpanRow)
    ensures r in TraceRows(rows, trace) <==> r in rows && r.traceId == trace
  {
    if rows == [] {
    } else {
      var init, last := rows[..|rows| - 1], rows[|rows| - 1];
      assert rows == init + [last];
      TraceRowsAre(init, trace, r);
    }
  }

  lemma {:induction false} TraceRowsUnique(rows: seq<SpanRow>, trace: string)
    requires UniqueSpans(rows)
    ensures UniqueIds(TraceRows(rows, trace))
  {
    if rows == [] {
    } else {
      var init, last := rows[..|rows| - 1], rows[|rows| - 1];
      TraceRowsUnique(init, trace);
      forall r | r in TraceRows(init, trace) && last.traceId == trace
        ensures r.spanId != last.spanId
      {
        TraceRowsAre(init, trace, r);
        var k :| 0 <= k < |init| && init[k] == r;
        assert rows[k] == r;
      }
    }
  }

  /** `order` lists the trace ids once each, and `byTrace` the rows of each in row order. */
  ghost predicate Groups(rows: seq<SpanRow>, order: seq<string>, byTrace: map<string, seq<SpanRow>>) {
    && (forall t :: t in order <==> t in byTrace)
    && (forall i, j :: 0 <= i < j < |order| ==> order[i] != order[j])
    && (forall t :: t in byTrace ==> byTrace[t] == TraceRows(rows, t) && byTrace[t] != [])
    && (forall r :: r in rows ==> r.traceId in byTrace)
  }

  lemma TraceRowsOneMore(rows: seq<SpanRow>, r: SpanRow, trace: string)
    ensures TraceRows(rows + [r], trace) == TraceRows(rows, trace) + if r.traceId == trace then [r] else []
  {
    assert (rows + [r])[..|rows|] == rows;
  }

  lemma GroupsOneMore(rows: seq<SpanRow>, order: seq<string>, byTrace: map<string, seq<SpanRow>>, r: SpanRow)
    requires Groups(rows, order, byTrace)
    ensures Groups(rows + [r],
                   if r.traceId in byTrace then order else order + [r.traceId],
                   byTrace[r.traceId := (if r.traceId in byTrace then byTrace[r.traceId] else []) + [r]])
  {
    forall t
      ensures TraceRows(rows + [r], t) == TraceRows(rows, t) + if r.traceId == t then [r] else []
      ensures t !in byTrace ==> TraceRows(rows, t) == []
    {
      TraceRowsOneMore(rows, r, t);
      if TraceRows(rows, t) != [] {
        TraceRowsAre(rows, t, TraceRows(rows, t)[0]);
      }
    }
  }

  method GroupByTrace(rows: seq<SpanRow>) returns (order: seq<string>, byTrace: map<string, seq<SpanRow>>)
    ensures Groups(rows, order, byTrace)
  {
    order, byTrace := [], map[];
    for i := 0 to |rows|
      invariant Groups(rows[..i], order, byTrace)
    {
      var r := rows[i];
      GroupsOneMore(rows[..i], order, byTrace, r);
      assert rows[..i + 1] == rows[..i] + [r];
      if r.traceId !in byTrace {
        order := order + [r.traceId];
      }
      byTrace := byTrace[r.traceId := (if r.traceId in byTrace then byTrace[r.traceId] else []) + [r]];
    }
    assert rows[..|rows|] == rows;
  }

  // ----- reassemble -----

  datatype TraceLabel = TraceLabel(traceId: string, classification: Classification)

  function LabelsIn(labels: seq<TraceLabel>, trace: string): seq<Classification> {
    if labels == [] then []
    else
      var last := labels[|labels| - 1];
      LabelsIn(labels[..|labels| - 1], trace) + if last.traceId == trace then [last.classification] else []
  }

  function Tagged(trace: string, labels: seq<Classification>): seq<TraceLabel> {
    seq(|labels|, i requires 0 <= i < |labels| => TraceLabel(trace, labels[i]))
  }

  lemma LabelsInOneMore(labels: seq<TraceLabel>, l: TraceLabel, t: string)
    ensures LabelsIn(labels + [l], t) == if l.traceId == t then LabelsIn(labels, t) + [l.classification] else LabelsIn(labels, t)
  {
    assert (labels + [l])[..|labels|] == labels;
  }

  lemma {:induction false} LabelsInTagged(labels: seq<TraceLabel>, trace: string, more: seq<Classification>, t: string)
    ensures LabelsIn(labels + Tagged(trace, more), t) == if t == trace then LabelsIn(labels, t) + more else LabelsIn(labels, t)
    decreases |more|
  {
    if more == [] {
      assert labels + Tagged(trace, more) == labels;
    } else {
      var first := TraceLabel(trace, more[0]);
      LabelsInOneMore(labels, first, t);
      LabelsInTagged(labels + [first], trace, more[1..], t);
      assert labels + Tagged(trace, more) == labels + [first] + Tagged(trace, more[1..]);
      assert [more[0]] + more[1..] == more;
    }
  }

  type TraceClaim = (string, TraceSummary, seq<Classification>) -> bool

  /** Each of these traces, and no other, has a summary and labels, and they are `good`. */
  ghost predicate ForEachTrace(good: TraceClaim, traces: set<string>, summaries: map<string, TraceSummary>, labels: seq<TraceLabel>) {
    && summaries.Keys == traces
    && (forall t :: t in traces ==> good(t, summaries[t], LabelsIn(labels, t)))
    && (forall t :: t !in traces ==> LabelsIn(labels, t) == [])
  }

  lemma ForOneMoreTrace(
    good: TraceClaim, traces: set<string>, summaries: map<string, TraceSummary>, labels: seq<TraceLabel>,
    trace: string, summary: TraceSummary, more: seq<Classification>)
    requires ForEachTrace(good, traces, summaries, labels) && trace !in traces
    requires good(trace, summary, more)
    ensures ForEachTrace(good, traces + {trace}, summaries[trace := summary], labels + Tagged(trace, more))
  {
    forall t
      ensures LabelsIn(labels + Tagged(trace, more), t) == if t == trace then more else LabelsIn(labels, t)
    {
      LabelsInTagged(labels, trace, more, t);
      assert [] + more == more;
    }
  }

  /** What reassembling the trace on its own would have given. */
  ghost function AsIfAlone(rows: seq<SpanRow>): TraceClaim {
    (t, summary, labels) => summary == Summarize(TraceRows(rows, t)) && OneLabelEach(TraceRows(rows, t), labels)
  }

  function TraceIds(rows: seq<SpanRow>): set<string> {
    set r | r in rows :: r.traceId
  }

  method ReassembleOne(ghost rows: seq<SpanRow>, ghost trace: string, traceRows: seq<SpanRow>)
    returns (summary: TraceSummary, labels: seq<Classification>)
    requires UniqueSpans(rows) && traceRows == TraceRows(rows, trace)
    ensures AsIfAlone(rows)(trace, summary, labels)
  {
    TraceRowsUnique(rows, trace);
    summary, labels := ReassembleTrace(traceRows);
  }

  lemma OrderedTracesAre(rows: seq<SpanRow>, order: seq<string>, byTrace: map<string, seq<SpanRow>>)
    requires Groups(rows, order, byTrace)
    ensures Elements(order) == TraceIds(rows)
  {
    forall t | t in order
      ensures t in TraceIds(rows)
    {
      TraceRowsAre(rows, t, byTrace[t][0]);
    }
  }

  /** Every trace of the window is reassembled as if it were alone. */
  method Reassemble(rows: seq<SpanRow>) returns (summaries: map<string, TraceSummary>, labels: seq<TraceLabel>)
    requires UniqueSpans(rows)
    ensures ForEachTrace(AsIfAlone(rows), TraceIds(rows), summaries, labels)
  {
    var order, byTrace := GroupByTrace(rows);
    OrderedTracesAre(rows, order, byTrace);
    summaries, labels := ReassembleGroups(rows, order, byTrace, AsIfAlone(rows));
  }

  method ReassembleGroups(rows: seq<SpanRow>, order: seq<string>, byTrace: map<string, seq<SpanRow>>, ghost good: TraceClaim)
    returns (summaries: map<string, TraceSummary>, labels: seq<TraceLabel>)
    requires UniqueSpans(rows) && Groups(rows, order, byTrace)
    requires forall t, summary, labels :: AsIfAlone(rows)(t, summary, labels) ==> good(t, summary, labels)
    ensures ForEachTrace(good, Elements(order), summaries, labels)
  {
    summaries, labels := map[], [];
    for i := 0 to |order|
      invariant ForEachTrace(good, Elements(order[..i]), summaries, labels)
    {
      var trace := order[i];
      assert order[..i + 1] == order[..i] + [trace];
      assert Elements(order[..i + 1]) == Elements(order[..i]) + {trace};
      var summary, traceLabels := ReassembleOne(rows, trace, byTrace[trace]);
      ForOneMoreTrace(good, Elements(order[..i]), summaries, labels, trace, summary, traceLabels);
      labels := labels + Tagged(trace, traceLabels);
      summaries := summaries[trace := summary];
    }
    assert order[..|order|] == order;
  }

  // ----- resolved_parent_child_pairs -----

  type Pair = (SpanRow, SpanRow)

  /** The child's recorded parent is this row, in the same trace. */
  predicate Calls(parent: SpanRow, child: SpanRow) {
    child.traceId == parent.traceId && child.parent != "" && child.parent == parent.spanId
  }

  /** Exactly the calls whose two ends are both present, each child once. */
  ghost predicate PairsUp(rows: seq<SpanRow>, pairs: seq<Pair>) {
    && (forall p, c :: (p, c) in pairs <==> p in rows && c in rows && Calls(p, c))
    && (forall i, j :: 0 <= i < j < |pairs| ==> pairs[i].1 != pairs[j].1)
  }

  method PairTrace(rows: seq<SpanRow>) returns (pairs: seq<Pair>)
    requires UniqueIds(rows) && forall r, s :: r in rows && s in rows ==> r.traceId == s.traceId
    ensures PairsUp(rows, pairs)
  {
    var byId := map r | r in rows :: r.spanId := r;
    pairs := [];
    for i := 0 to |rows|
      invariant PairsOfPrefix(rows, i, pairs)
    {
      var r := rows[i];
      if r.parent != "" && r.parent in byId {
        OneMorePair(rows, i, pairs, byId[r.parent]);
        pairs := pairs + [(byId[r.parent], r)];
      } else {
        assert rows[..i + 1] == rows[..i] + [r];
        assert forall p :: p in rows && Calls(p, r) ==> r.parent in byId;
      }
    }
    assert rows[..|rows|] == rows;
  }

  ghost predicate PairsOfPrefix(rows: seq<SpanRow>, i: nat, pairs: seq<Pair>)
    requires i <= |rows|
  {
    && (forall p, c :: (p, c) in pairs <==> p in rows && c in rows[..i] && Calls(p, c))
    && (forall k, l :: 0 <= k < l < |pairs| ==> pairs[k].1 != pairs[l].1)
  }

  lemma OneMorePair(rows: seq<SpanRow>, i: nat, pairs: seq<Pair>, parent: SpanRow)
    requires i < |rows| && UniqueIds(rows) && PairsOfPrefix(rows, i, pairs)
    requires forall r, s :: r in rows && s in rows ==> r.traceId == s.traceId
    requires parent in rows && Calls(parent, rows[i])
    ensures PairsOfPrefix(rows, i + 1, pairs + [(parent, rows[i])])
  {
    var r := rows[i];
    assert rows[..i + 1] == rows[..i] + [r];
    assert r !in rows[..i];
    forall p | p in rows && Calls(p, r)
      ensures p == parent
    {
      RowsById(rows, p, parent);
    }
    assert forall k :: 0 <= k < |pairs| ==> (pairs[k].0, pairs[k].1) in pairs;
  }

  method ResolvedPairs(rows: seq<SpanRow>) returns (pairs: seq<Pair>)
    requires UniqueSpans(rows)
    ensures PairsUp(rows, pairs)
  {
    var order, byTrace := GroupByTrace(rows);
    pairs := [];
    for i := 0 to |order|
      invariant forall p, c :: (p, c) in pairs <==> p in rows && c in rows && c.traceId in order[..i] && Calls(p, c)
      invariant forall k, l :: 0 <= k < l < |pairs| ==> pairs[k].1 != pairs[l].1
    {
      var trace := order[i];
      assert order[..i + 1] == order[..i] + [trace];
      TraceRowsUnique(rows, trace);
      forall r
        ensures r in byTrace[trace] <==> r in rows && r.traceId == trace
      {
        TraceRowsAre(rows, trace, r);
      }
      var more := PairTrace(byTrace[trace]);
      assert forall k :: 0 <= k < |pairs| ==> (pairs[k].0, pairs[k].1) in pairs;
      assert forall k :: 0 <= k < |more| ==> (more[k].0, more[k].1) in more;
      pairs := pairs + more;
    }
    assert order[..|order|] == order;
  }
}
