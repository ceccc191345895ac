/**
  `analyzer/eval.py`: `evaluate`, the score of a run whose spans were reassembled window by window.
  What counts is which of a call's two ends were read together.
 */
module Scoring {
  import opened Collections
  import opened Spans
  import opened ParentChain
  import opened Reassembly
  import opened TraceGroups
  import opened CallGraph
  import opened Evaluation
  import opened EndToEnd

  // ----- Batches -----

  function SpanKey(r: SpanRow): (string, string) {
    (r.traceId, r.spanId)
  }

  function LandedIds(landed: seq<SpanRow>): Landed {
    set r | r in landed :: SpanKey(r)
  }

  ghost predicate InBatch(batches: seq<seq<SpanRow>>, k: int, r: SpanRow) {
    0 <= k < |batches| && r in batches[k]
  }

  /** What the windows have read: parts of what landed, no span in two of them. */
  ghost predicate Batches(landed: seq<SpanRow>, batches: seq<seq<SpanRow>>) {
    && UniqueSpans(landed)
    && (forall k :: 0 <= k < |batches| ==> UniqueSpans(batches[k]))
    && (forall k, r :: InBatch(batches, k, r) ==> r in landed)
    && (forall k, l, r :: InBatch(batches, k, r) && InBatch(batches, l, r) ==> k == l)
  }

  ghost predicate IsRead(batches: seq<seq<SpanRow>>, r: SpanRow) {
    exists k :: InBatch(batches, k, r)
  }

  ghost predicate Together(batches: seq<seq<SpanRow>>, p: SpanRow, c: SpanRow) {
    exists k :: InBatch(batches, k, p) && InBatch(batches, k, c)
  }

  ghost predicate HasCallerIn(rows: seq<SpanRow>, c: SpanRow) {
    exists p :: p in rows && Calls(p, c)
  }

  /** A call that landed whole, but whose two ends were not read together. */
  ghost predicate IsSplit(landed: seq<SpanRow>, batches: seq<seq<SpanRow>>, c: SpanRow) {
    exists p :: p in landed && Calls(p, c) && !Together(batches, p, c)
  }

  /** The split calls, each named by its callee. */
  ghost function SplitCalls(landed: seq<SpanRow>, batches: seq<seq<SpanRow>>): set<SpanRow> {
    set c | c in landed && IsSplit(landed, batches, c)
  }

  /** The spans that landed without their caller and that no window has read. */
  ghost function UnreadOrphans(landed: seq<SpanRow>, batches: seq<seq<SpanRow>>): set<SpanRow> {
    set c | c in landed && c.parent != "" && !HasCallerIn(landed, c) && !IsRead(batches, c)
  }

  lemma SameKeySameRow(landed: seq<SpanRow>, r: SpanRow, s: SpanRow)
    requires UniqueSpans(landed) && r in landed && s in landed && SpanKey(r) == SpanKey(s)
    ensures r == s
  {
  }

  // ----- Verdicts -----

  /** What a span's label says: whether its caller was read with it. */
  ghost function Deserved(rows: seq<SpanRow>, r: SpanRow): Label {
    if r.parent == "" || HasCallerIn(rows, r) then Ok else OrphanMissingParent
  }

  /** A verdict for each row of one batch, the deserved one, and for nothing else. */
  ghost predicate VerdictsOf(rows: seq<SpanRow>, verdicts: Verdicts) {
    && (forall r :: r in rows ==> SpanKey(r) in verdicts && verdicts[SpanKey(r)] == Deserved(rows, r))
    && (forall key :: key in verdicts ==> key in LandedIds(rows))
  }

  ghost predicate VerdictsSoFar(batches: seq<seq<SpanRow>>, verdicts: Verdicts) {
    && (forall k, r :: InBatch(batches, k, r) ==>
          SpanKey(r) in verdicts && verdicts[SpanKey(r)] == Deserved(batches[k], r))
    && (forall key :: key in verdicts ==> KeyIsRead(batches, key))
  }

  ghost predicate KeyIsRead(batches: seq<seq<SpanRow>>, key: (string, string)) {
    exists k, r :: InBatch(batches, k, r) && SpanKey(r) == key
  }

  lemma {:induction false} LabelsInAre(labels: seq<TraceLabel>, trace: string, c: Classification)
    ensures c in LabelsIn(labels, trace) <==> TraceLabel(trace, c) in labels
  {
    if labels == [] {
    } else {
      var init, last := labels[..|labels| - 1], labels[|labels| - 1];
      assert labels == init + [last];
      LabelsInAre(init, trace, c);
    }
  }

  /** The verdict stored for each span is that of its label. */
  ghost predicate Stored(labels: seq<TraceLabel>, verdicts: Verdicts) {
    && (forall l :: l in labels ==> (l.traceId, l.classification.spanId) in verdicts)
    && (forall t, id :: (t, id) in verdicts ==> TraceLabel(t, Classification(id, verdicts[(t, id)])) in labels)
  }

  method Store(labels: seq<TraceLabel>) returns (verdicts: Verdicts)
    ensures Stored(labels, verdicts)
  {
    verdicts := map[];
    for i := 0 to |labels|
      invariant Stored(labels[..i], verdicts)
    {
      var l := labels[i];
      assert labels[..i + 1] == labels[..i] + [l];
      assert l == TraceLabel(l.traceId, Classification(l.classification.spanId, l.classification.verdict));
      verdicts := verdicts[(l.traceId, l.classification.spanId) := l.classification.verdict];
    }
    assert labels[..|labels|] == labels;
  }

  /** A landed span's stored verdict is the label its landed trace gives it. */
  lemma StoredVerdict(landed: seq<SpanRow>, summaries: map<string, TraceSummary>, labels: seq<TraceLabel>, verdicts: Verdicts, r: SpanRow)
    requires UniqueSpans(landed) && ForEachTrace(AsIfAlone(landed), TraceIds(landed), summaries, labels) && Stored(labels, verdicts)
    requires r in landed
    ensures r.spanId in Parents(TraceRows(landed, r.traceId))
    ensures (r.traceId, r.spanId) in verdicts
    ensures verdicts[(r.traceId, r.spanId)] == LabelOf(Parents(TraceRows(landed, r.traceId)), r.spanId)
  {
    var t := r.traceId;
    var rows := TraceRows(landed, t);
    TraceRowsAre(landed, t, r);
    assert AsIfAlone(landed)(t, summaries[t], LabelsIn(labels, t));
    var verdict := LabelOf(Parents(rows), r.spanId);
    LabelsInAre(labels, t, Classification(r.spanId, verdict));
    LabelsInAre(labels, t, Classification(r.spanId, verdicts[(t, r.spanId)]));
  }

  lemma CallerReadTogether(rows: seq<SpanRow>, r: SpanRow)
    requires UniqueSpans(rows) && r in rows && r.parent != ""
    ensures r.parent in Parents(TraceRows(rows, r.traceId)) <==> HasCallerIn(rows, r)
  {
    LandedId(rows, r.traceId, r.parent);
    if (r.traceId, r.parent) in LandedIds(rows) {
      var p :| p in rows && SpanKey(p) == (r.traceId, r.parent);
      assert Calls(p, r);
    }
    if HasCallerIn(rows, r) {
      var p :| p in rows && Calls(p, r);
      assert SpanKey(p) in LandedIds(rows);
    }
  }

  lemma DeservedVerdict(
    gt: seq<SpanRow>, rows: seq<SpanRow>, summaries: map<string, TraceSummary>, labels: seq<TraceLabel>, verdicts: Verdicts,
    r: SpanRow)
    requires GroundTruth(gt) && Landing(gt, rows) && r in rows
    requires ForEachTrace(AsIfAlone(rows), TraceIds(rows), summaries, labels) && Stored(labels, verdicts)
    ensures SpanKey(r) in verdicts && verdicts[SpanKey(r)] == Deserved(rows, r)
  {
    StoredVerdict(rows, summaries, labels, verdicts, r);
    assert EchoesSome(gt, r);
    var j :| 0 <= j < |gt| && Echo(gt[j], r);
    LandedLabel(gt, rows, j);
    if r.parent != "" {
      CallerReadTogether(rows, r);
    }
  }

  lemma StoredKeyIsRow(
    rows: seq<SpanRow>, summaries: map<string, TraceSummary>, labels: seq<TraceLabel>, verdicts: Verdicts,
    key: (string, string))
    requires UniqueSpans(rows) && Stored(labels, verdicts) && key in verdicts
    requires ForEachTrace(AsIfAlone(rows), TraceIds(rows), summaries, labels)
    ensures key in LandedIds(rows)
  {
    var (t, id) := key;
    var c := Classification(id, verdicts[key]);
    LabelsInAre(labels, t, c);
    assert c in LabelsIn(labels, t) && t in TraceIds(rows);
    assert AsIfAlone(rows)(t, summaries[t], LabelsIn(labels, t));
    LandedId(rows, t, id);
  }

  /** One window: reassembled on its own, its labels stored. */
  method ClassifyBatch(ghost gt: seq<SpanRow>, rows: seq<SpanRow>) returns (verdicts: Verdicts)
    requires GroundTruth(gt) && Landing(gt, rows)
    ensures VerdictsOf(rows, verdicts)
  {
    var summaries, labels := Reassemble(rows);
    verdicts := Store(labels);
    forall r | r in rows
      ensures SpanKey(r) in verdicts && verdicts[SpanKey(r)] == Deserved(rows, r)
    {
      DeservedVerdict(gt, rows, summaries, labels, verdicts, r);
    }
    forall key | key in verdicts
      ensures key in LandedIds(rows)
    {
      StoredKeyIsRow(rows, summaries, labels, verdicts, key);
    }
  }

  lemma OneMoreBatch(
    landed: seq<SpanRow>, batches: seq<seq<SpanRow>>, verdicts: Verdicts, batch: seq<SpanRow>, more: Verdicts)
    requires Batches(landed, batches + [batch]) && VerdictsSoFar(batches, verdicts) && VerdictsOf(batch, more)
    ensures VerdictsSoFar(batches + [batch], verdicts + more)
  {
    var all := batches + [batch];
    forall k, r | InBatch(all, k, r)
      ensures SpanKey(r) in verdicts + more && (verdicts + more)[SpanKey(r)] == Deserved(all[k], r)
    {
      if k < |batches| {
        assert InBatch(batches, k, r);
        if SpanKey(r) in more {
          var q :| q in batch && SpanKey(q) == SpanKey(r);
          assert InBatch(all, |batches|, q);
          SameKeySameRow(landed, q, r);
        }
      }
    }
    forall key | key in verdicts + more
      ensures KeyIsRead(all, key)
    {
      if key in more {
        var r :| r in batch && SpanKey(r) == key;
        assert InBatch(all, |batches|, r);
      } else {
        var k, r :| InBatch(batches, k, r) && SpanKey(r) == key;
        assert InBatch(all, k, r);
      }
    }
  }

  function TrueSpans(gt: seq<SpanRow>): seq<TrueSpan> {
    seq(|gt|, i requires 0 <= i < |gt| => TrueSpan(gt[i].traceId, gt[i].spanId, gt[i].parent))
  }

  // ----- Counting the verdicts that are wrong -----

  function AsTrue(r: SpanRow): TrueSpan {
    TrueSpan(r.traceId, r.spanId, r.parent)
  }

  function AllAsTrue(rows: set<SpanRow>): set<TrueSpan> {
    set r | r in rows :: AsTrue(r)
  }

  lemma {:induction false} AsTrueIsInjective(landed: seq<SpanRow>, rows: set<SpanRow>)
    requires UniqueSpans(landed) && forall r :: r in rows ==> r in landed
    ensures |AllAsTrue(rows)| == |rows|
  {
    if rows == {} {
    } else {
      var r :| r in rows;
      AsTrueIsInjective(landed, rows - {r});
      forall q | q in rows - {r}
        ensures AsTrue(q) != AsTrue(r)
      {
        if AsTrue(q) == AsTrue(r) {
          SameKeySameRow(landed, q, r);
        }
      }
      assert AllAsTrue(rows) == AllAsTrue(rows - {r}) + {AsTrue(r)};
    }
  }

  lemma TrueSpansAreDistinct(gt: seq<SpanRow>)
    requires UniqueSpans(gt)
    ensures Distinct(TrueSpans(gt))
  {
  }

  /** Where a true span and a landed row have the same key, the row is that span's echo. */
  lemma LandedIsEcho(gt: seq<SpanRow>, landed: seq<SpanRow>, g: TrueSpan, c: SpanRow)
    requires GroundTruth(gt) && Landing(gt, landed) && g in TrueSpans(gt) && c in landed && SpanKey(c) == (g.traceId, g.spanId)
    ensures g == AsTrue(c)
  {
    assert EchoesSome(gt, c);
    var i :| 0 <= i < |gt| && Echo(gt[i], c);
    var j :| 0 <= j < |gt| && TrueSpans(gt)[j] == g;
    assert g == AsTrue(gt[j]);
    SameKeySameRow(gt, gt[i], gt[j]);
  }

  lemma LandedIsTrueSpan(gt: seq<SpanRow>, landed: seq<SpanRow>, c: SpanRow)
    requires Landing(gt, landed) && c in landed
    ensures AsTrue(c) in TrueSpans(gt)
  {
    assert EchoesSome(gt, c);
    var i :| 0 <= i < |gt| && Echo(gt[i], c);
    assert TrueSpans(gt)[i] == AsTrue(c);
  }

  /** The verdict on a span whose caller landed is right exactly if both were read together. */
  lemma AttachedVerdict(landed: seq<SpanRow>, batches: seq<seq<SpanRow>>, verdicts: Verdicts, p: SpanRow, c: SpanRow)
    requires Batches(landed, batches) && VerdictsSoFar(batches, verdicts)
    requires p in landed && c in landed && Calls(p, c)
    ensures (SpanKey(c) in verdicts && verdicts[SpanKey(c)] == Ok) <==> Together(batches, p, c)
  {
    if k :| InBatch(batches, k, p) && InBatch(batches, k, c) {
      assert HasCallerIn(batches[k], c);
    }
    if SpanKey(c) in verdicts && verdicts[SpanKey(c)] == Ok {
      assert KeyIsRead(batches, SpanKey(c));
      var k, r :| InBatch(batches, k, r) && SpanKey(r) == SpanKey(c);
      SameKeySameRow(landed, r, c);
      var q :| q in batches[k] && Calls(q, c);
      assert InBatch(batches, k, q);
      SameKeySameRow(landed, p, q);
    }
  }

  /** The verdict on a span whose caller did not land is right exactly if the span was read at all. */
  lemma OrphanVerdict(landed: seq<SpanRow>, batches: seq<seq<SpanRow>>, verdicts: Verdicts, c: SpanRow)
    requires Batches(landed, batches) && VerdictsSoFar(batches, verdicts)
    requires c in landed && c.parent != "" && !HasCallerIn(landed, c)
    ensures (SpanKey(c) in verdicts && verdicts[SpanKey(c)] == OrphanMissingParent) <==> IsRead(batches, c)
  {
    if k :| InBatch(batches, k, c) {
      if HasCallerIn(batches[k], c) {
        var q :| q in batches[k] && Calls(q, c);
        assert InBatch(batches, k, q);
      }
    }
    if SpanKey(c) in verdicts {
      assert KeyIsRead(batches, SpanKey(c));
      var k, r :| InBatch(batches, k, r) && SpanKey(r) == SpanKey(c);
      SameKeySameRow(landed, r, c);
    }
  }

  /** Counted as attached, and the callee's caller that landed. */
  lemma CallerLanded(gt: seq<SpanRow>, landed: seq<SpanRow>, c: SpanRow)
    requires Landing(gt, landed) && c in landed && c.parent != ""
    ensures HasCallerIn(landed, c) <==> (c.traceId, c.parent) in LandedIds(landed)
  {
    if (c.traceId, c.parent) in LandedIds(landed) {
      var p :| p in landed && SpanKey(p) == (c.traceId, c.parent);
      assert Calls(p, c);
    }
    if p :| p in landed && Calls(p, c) {
      assert SpanKey(p) in LandedIds(landed);
    }
  }

  function WronglyAttached(landed: seq<SpanRow>, verdicts: Verdicts): TrueSpan -> bool {
    Without(Attached(LandedIds(landed)), Judged(LandedIds(landed), verdicts, Attached(LandedIds(landed)), Ok))
  }

  function WronglyCut(landed: seq<SpanRow>, verdicts: Verdicts): TrueSpan -> bool {
    Without(Cut(LandedIds(landed)), Judged(LandedIds(landed), verdicts, Cut(LandedIds(landed)), OrphanMissingParent))
  }

  lemma WronglyAttachedIff(gt: seq<SpanRow>, landed: seq<SpanRow>, batches: seq<seq<SpanRow>>, verdicts: Verdicts, c: SpanRow)
    requires Landing(gt, landed) && Batches(landed, batches) && VerdictsSoFar(batches, verdicts) && c in landed
    ensures WronglyAttached(landed, verdicts)(AsTrue(c)) <==> IsSplit(landed, batches, c)
  {
    assert SpanKey(c) in LandedIds(landed);
    if c.parent != "" {
      CallerLanded(gt, landed, c);
    }
    if p :| p in landed && Calls(p, c) {
      AttachedVerdict(landed, batches, verdicts, p, c);
      forall q | q in landed && Calls(q, c)
        ensures q == p
      {
        SameKeySameRow(landed, p, q);
      }
    }
  }

  lemma WronglyCutIff(gt: seq<SpanRow>, landed: seq<SpanRow>, batches: seq<seq<SpanRow>>, verdicts: Verdicts, c: SpanRow)
    requires Landing(gt, landed) && Batches(landed, batches) && VerdictsSoFar(batches, verdicts) && c in landed
    ensures WronglyCut(landed, verdicts)(AsTrue(c)) <==> c in UnreadOrphans(landed, batches)
  {
    assert SpanKey(c) in LandedIds(landed);
    if c.parent != "" {
      CallerLanded(gt, landed, c);
      if !HasCallerIn(landed, c) {
        OrphanVerdict(landed, batches, verdicts, c);
      }
    }
  }

  /** True spans that satisfy p, all of them landed, are as many as their landed rows. */
  lemma CountsRows(gt: seq<SpanRow>, landed: seq<SpanRow>, p: TrueSpan -> bool, rows: set<SpanRow>)
    requires GroundTruth(gt) && Landing(gt, landed) && forall c :: c in rows ==> c in landed
    requires forall c :: c in landed ==> (p(AsTrue(c)) <==> c in rows)
    requires forall g :: p(g) ==> (g.traceId, g.spanId) in LandedIds(landed)
    ensures Count(TrueSpans(gt), p) == |rows|
  {
    TrueSpansAreDistinct(gt);
    CountIsCardinality(TrueSpans(gt), p);
    AsTrueIsInjective(landed, rows);
    forall g
      ensures g in Satisfying(TrueSpans(gt), p) <==> g in AllAsTrue(rows)
    {
      if g in TrueSpans(gt) && p(g) {
        var c :| c in landed && SpanKey(c) == (g.traceId, g.spanId);
        LandedIsEcho(gt, landed, g, c);
      }
      if g in AllAsTrue(rows) {
        var c :| c in rows && AsTrue(c) == g;
        LandedIsTrueSpan(gt, landed, c);
      }
    }
    assert Satisfying(TrueSpans(gt), p) == AllAsTrue(rows);
  }

  /** The shortfall of either score, as sets of spans. */
  lemma Shortfalls(gt: seq<SpanRow>, landed: seq<SpanRow>, batches: seq<seq<SpanRow>>, verdicts: Verdicts, m: Metrics)
    requires GroundTruth(gt) && Landing(gt, landed) && Batches(landed, batches) && VerdictsSoFar(batches, verdicts)
    requires Scores(m, TrueSpans(gt), LandedIds(landed), verdicts)
    ensures m.attachmentTotal == m.attachmentCorrect + |SplitCalls(landed, batches)|
    ensures m.orphanTotal == m.orphanCorrect + |UnreadOrphans(landed, batches)|
  {
    var ids := LandedIds(landed);
    forall c | c in landed
      ensures WronglyAttached(landed, verdicts)(AsTrue(c)) <==> c in SplitCalls(landed, batches)
      ensures WronglyCut(landed, verdicts)(AsTrue(c)) <==> c in UnreadOrphans(landed, batches)
    {
      WronglyAttachedIff(gt, landed, batches, verdicts, c);
      WronglyCutIff(gt, landed, batches, verdicts, c);
    }
    CountsRows(gt, landed, WronglyAttached(landed, verdicts), SplitCalls(landed, batches));
    CountsRows(gt, landed, WronglyCut(landed, verdicts), UnreadOrphans(landed, batches));
    CountShortfall(TrueSpans(gt), Attached(ids), Judged(ids, verdicts, Attached(ids), Ok));
    CountShortfall(TrueSpans(gt), Cut(ids), Judged(ids, verdicts, Cut(ids), OrphanMissingParent));
  }

  /** The landed calls whose caller landed, too, and the landed spans whose caller did not. */
  ghost function AttachedSpans(landed: seq<SpanRow>): set<SpanRow> {
    set c | c in landed && HasCallerIn(landed, c)
  }

  ghost function CutSpans(landed: seq<SpanRow>): set<SpanRow> {
    set c | c in landed && c.parent != "" && !HasCallerIn(landed, c)
  }

  /** What the scores are shares of. */
  lemma TotalsAre(gt: seq<SpanRow>, landed: seq<SpanRow>, verdicts: Verdicts, m: Metrics)
    requires GroundTruth(gt) && Landing(gt, landed) && Scores(m, TrueSpans(gt), LandedIds(landed), verdicts)
    ensures m.attachmentTotal == |AttachedSpans(landed)| && m.orphanTotal == |CutSpans(landed)|
  {
    var ids := LandedIds(landed);
    forall c | c in landed
      ensures Attached(ids)(AsTrue(c)) <==> c in AttachedSpans(landed)
      ensures Cut(ids)(AsTrue(c)) <==> c in CutSpans(landed)
    {
      assert SpanKey(c) in ids;
      if c.parent != "" {
        CallerLanded(gt, landed, c);
      }
    }
    CountsRows(gt, landed, Attached(ids), AttachedSpans(landed));
    CountsRows(gt, landed, Cut(ids), CutSpans(landed));
  }

  // ----- Counting calls -----

  function CallTotal(edges: seq<ServiceEdge>, e: Edge): nat {
    if edges == [] then 0
    else
      var last := edges[|edges| - 1];
      CallTotal(edges[..|edges| - 1], e) + if last.Key() == e then last.callCount else 0
  }

  lemma {:induction false} CallTotalConcat(edges: seq<ServiceEdge>, more: seq<ServiceEdge>, e: Edge)
    ensures CallTotal(edges + more, e) == CallTotal(edges, e) + CallTotal(more, e)
  {
    if more == [] {
      assert edges + more == edges;
    } else {
      CallTotalConcat(edges, more[..|more| - 1], e);
      assert (edges + more)[..|edges + more| - 1] == edges + more[..|more| - 1];
    }
  }

  lemma {:induction false} CallTotalOfOne(edges: seq<ServiceEdge>, e: Edge, n: nat)
    requires forall i, j :: 0 <= i < j < |edges| ==> edges[i].Key() != edges[j].Key()
    requires forall x :: x in edges && x.Key() == e ==> x.callCount == n
    ensures CallTotal(edges, e) == if exists x :: x in edges && x.Key() == e then n else 0
  {
    if edges == [] {
    } else {
      var init, last := edges[..|edges| - 1], edges[|edges| - 1];
      assert edges == init + [last];
      CallTotalOfOne(init, e, n);
    }
  }

  lemma AggregatedTotal(rows: seq<SpanRow>, edges: seq<ServiceEdge>, e: Edge)
    requires Aggregates(rows, edges)
    ensures CallTotal(edges, e) == |CallsAlong(rows, e)|
  {
    CallTotalOfOne(edges, e, |CallsAlong(rows, e)|);
  }

  /** The calls along an edge that some window read whole. */
  ghost function ReadCalls(batches: seq<seq<SpanRow>>, e: Edge): set<SpanRow> {
    if batches == [] then {} else ReadCalls(batches[..|batches| - 1], e) + CallsAlong(batches[|batches| - 1], e)
  }

  lemma {:induction false} ReadCallsAre(batches: seq<seq<SpanRow>>, e: Edge, c: SpanRow)
    ensures c in ReadCalls(batches, e) <==> exists k :: 0 <= k < |batches| && c in CallsAlong(batches[k], e)
  {
    if batches == [] {
    } else {
      var n := |batches| - 1;
      ReadCallsAre(batches[..n], e, c);
      if k :| 0 <= k < |batches| && c in CallsAlong(batches[k], e) {
        assert k == n || batches[..n][k] == batches[k];
      }
    }
  }

  /** No call is read twice, so totals add up window by window. */
  lemma ReadCallsOneMore(landed: seq<SpanRow>, batches: seq<seq<SpanRow>>, batch: seq<SpanRow>, e: Edge)
    requires Batches(landed, batches + [batch])
    ensures |ReadCalls(batches + [batch], e)| == |ReadCalls(batches, e)| + |CallsAlong(batch, e)|
  {
    var all := batches + [batch];
    assert all[..|batches|] == batches;
    forall c
      ensures c !in ReadCalls(batches, e) || c !in CallsAlong(batch, e)
    {
      ReadCallsAre(batches, e, c);
      if c in ReadCalls(batches, e) && c in CallsAlong(batch, e) {
        var k :| 0 <= k < |batches| && c in CallsAlong(batches[k], e);
        assert InBatch(all, k, c) && InBatch(all, |batches|, c);
      }
    }
    assert ReadCalls(batches, e) !! CallsAlong(batch, e);
  }

  ghost function Keys(rows: set<SpanRow>): set<(string, string)> {
    set r | r in rows :: SpanKey(r)
  }

  lemma {:induction false} KeysAreInjective(landed: seq<SpanRow>, rows: set<SpanRow>)
    requires UniqueSpans(landed) && forall r :: r in rows ==> r in landed
    ensures |Keys(rows)| == |rows|
  {
    if rows == {} {
    } else {
      var r :| r in rows;
      KeysAreInjective(landed, rows - {r});
      forall q | q in rows - {r}
        ensures SpanKey(q) != SpanKey(r)
      {
        if SpanKey(q) == SpanKey(r) {
          SameKeySameRow(landed, q, r);
        }
      }
      assert Keys(rows) == Keys(rows - {r}) + {SpanKey(r)};
    }
  }

  /** Some window read g's landed echo together with its caller. */
  ghost predicate IsReadWhole(landed: seq<SpanRow>, batches: seq<seq<SpanRow>>, g: SpanRow) {
    exists p, c :: p in landed && c in landed && SpanKey(c) == SpanKey(g) && Calls(p, c) && Together(batches, p, c)
  }

  /** The calls of the run along an edge whose two ends did not both land, or were not read together. */
  ghost function MissedCalls(gt: seq<SpanRow>, landed: seq<SpanRow>, batches: seq<seq<SpanRow>>, e: Edge): set<SpanRow> {
    set g | g in CallsAlong(gt, e) && !IsReadWhole(landed, batches, g)
  }

  lemma EchoOf(gt: seq<SpanRow>, landed: seq<SpanRow>, c: SpanRow) returns (g: SpanRow)
    requires Landing(gt, landed) && c in landed
    ensures g in gt && Echo(g, c)
  {
    assert EchoesSome(gt, c);
    var j :| 0 <= j < |gt| && Echo(gt[j], c);
    g := gt[j];
  }

  lemma ReadCallIsTrueCall(gt: seq<SpanRow>, landed: seq<SpanRow>, batches: seq<seq<SpanRow>>, e: Edge, c: SpanRow) returns (g: SpanRow)
    requires UniqueSpans(gt) && Landing(gt, landed) && Batches(landed, batches) && c in ReadCalls(batches, e)
    ensures c in landed && g in CallsAlong(gt, e) && Echo(g, c) && IsReadWhole(landed, batches, g)
  {
    ReadCallsAre(batches, e, c);
    var k :| 0 <= k < |batches| && c in CallsAlong(batches[k], e);
    var p :| p in batches[k] && CallsAs(p, c, e);
    assert InBatch(batches, k, p) && InBatch(batches, k, c);
    g := EchoOf(gt, landed, c);
    var q := EchoOf(gt, landed, p);
    assert CallsAs(q, g, e);
  }

  lemma TrueCallIsReadCall(gt: seq<SpanRow>, landed: seq<SpanRow>, batches: seq<seq<SpanRow>>, e: Edge, g: SpanRow) returns (c: SpanRow)
    requires UniqueSpans(gt) && Landing(gt, landed) && g in CallsAlong(gt, e) && IsReadWhole(landed, batches, g)
    ensures c in ReadCalls(batches, e) && SpanKey(c) == SpanKey(g)
  {
    var p;
    p, c :| p in landed && c in landed && SpanKey(c) == SpanKey(g) && Calls(p, c) && Together(batches, p, c);
    var g' := EchoOf(gt, landed, c);
    SameKeySameRow(gt, g, g');
    var q := EchoOf(gt, landed, p);
    var q' :| q' in gt && CallsAs(q', g, e);
    SameKeySameRow(gt, q, q');
    var k :| InBatch(batches, k, p) && InBatch(batches, k, c);
    assert CallsAs(p, c, e);
    ReadCallsAre(batches, e, c);
  }

  /** Every call along an edge is either read whole or missed. */
  lemma CallsReadAndMissed(gt: seq<SpanRow>, landed: seq<SpanRow>, batches: seq<seq<SpanRow>>, e: Edge)
    requires UniqueSpans(gt) && Landing(gt, landed) && Batches(landed, batches)
    ensures |CallsAlong(gt, e)| == |ReadCalls(batches, e)| + |MissedCalls(gt, landed, batches, e)|
  {
    var calls, missed, read := CallsAlong(gt, e), MissedCalls(gt, landed, batches, e), ReadCalls(batches, e);
    var kept := calls - missed;
    assert |calls| == |kept| + |missed|;
    forall key
      ensures key in Keys(read) <==> key in Keys(kept)
    {
      if c :| c in read && SpanKey(c) == key {
        var g := ReadCallIsTrueCall(gt, landed, batches, e, c);
      }
      if g :| g in kept && SpanKey(g) == key {
        var c := TrueCallIsReadCall(gt, landed, batches, e, g);
      }
    }
    assert Keys(read) == Keys(kept);
    forall c | c in read
      ensures c in landed
    {
      var g := ReadCallIsTrueCall(gt, landed, batches, e, c);
    }
    KeysAreInjective(landed, read);
    KeysAreInjective(gt, kept);
  }

  // ----- The whole evaluation -----

  /** Some call along this edge was read whole. */
  ghost predicate EdgeIsRead(batches: seq<seq<SpanRow>>, e: Edge) {
    exists k :: 0 <= k < |batches| && CallsAlong(batches[k], e) != {}
  }

  function EdgeKeys(edges: seq<ServiceEdge>): set<Edge> {
    set x | x in edges :: x.Key()
  }

  lemma AggregatedKeys(rows: seq<SpanRow>, edges: seq<ServiceEdge>, e: Edge)
    requires Aggregates(rows, edges)
    ensures e in EdgeKeys(edges) <==> CallsAlong(rows, e) != {}
  {
    if x :| x in edges && x.Key() == e {
      assert |CallsAlong(rows, e)| > 0;
    }
  }

  lemma EdgesOneMore(batches: seq<seq<SpanRow>>, batch: seq<SpanRow>, edges: seq<ServiceEdge>, more: seq<ServiceEdge>)
    requires forall e :: e in EdgeKeys(edges) <==> EdgeIsRead(batches, e)
    requires Aggregates(batch, more)
    ensures forall e :: e in EdgeKeys(edges + more) <==> EdgeIsRead(batches + [batch], e)
  {
    var all := batches + [batch];
    forall e
      ensures EdgeIsRead(all, e) <==> EdgeIsRead(batches, e) || CallsAlong(batch, e) != {}
      ensures e in EdgeKeys(edges + more) <==> e in EdgeKeys(edges) || e in EdgeKeys(more)
      ensures e in EdgeKeys(more) <==> CallsAlong(batch, e) != {}
    {
      AggregatedKeys(batch, more, e);
      if k :| 0 <= k < |batches| && CallsAlong(batches[k], e) != {} {
        assert all[k] == batches[k];
      }
      if CallsAlong(batch, e) != {} {
        assert all[|batches|] == batch;
      }
    }
  }

  lemma BatchLands(gt: seq<SpanRow>, landed: seq<SpanRow>, batches: seq<seq<SpanRow>>, k: nat)
    requires Landing(gt, landed) && Batches(landed, batches) && k < |batches|
    ensures Landing(gt, batches[k])
  {
    forall r | r in batches[k]
      ensures EchoesSome(gt, r)
    {
      assert InBatch(batches, k, r);
    }
  }

  lemma FirstBatches(landed: seq<SpanRow>, batches: seq<seq<SpanRow>>, n: nat)
    requires Batches(landed, batches) && n <= |batches|
    ensures Batches(landed, batches[..n])
  {
    forall k, r
      ensures InBatch(batches[..n], k, r) ==> InBatch(batches, k, r)
    {
    }
  }

  lemma FoundKeysAreTrue(gt: seq<SpanRow>, batch: seq<SpanRow>, edges: seq<ServiceEdge>, more: seq<ServiceEdge>)
    requires Landing(gt, batch) && Aggregates(batch, more) && EdgeKeys(edges) <= TrueEdges(gt)
    ensures EdgeKeys(edges + more) <= TrueEdges(gt)
  {
    FoundEdgesAreTrue(gt, batch, more);
  }

  lemma TotalsOneMore(
    landed: seq<SpanRow>, batches: seq<seq<SpanRow>>, batch: seq<SpanRow>, edges: seq<ServiceEdge>, more: seq<ServiceEdge>)
    requires Batches(landed, batches + [batch]) && Aggregates(batch, more)
    requires forall e :: CallTotal(edges, e) == |ReadCalls(batches, e)|
    ensures forall e :: CallTotal(edges + more, e) == |ReadCalls(batches + [batch], e)|
  {
    forall e
      ensures CallTotal(edges + more, e) == |ReadCalls(batches + [batch], e)|
    {
      CallTotalConcat(edges, more, e);
      AggregatedTotal(batch, more, e);
      ReadCallsOneMore(landed, batches, batch, e);
    }
  }

  /** Window by window: reassemble, store the labels, and aggregate the edges. */
  method ProcessBatches(ghost gt: seq<SpanRow>, ghost landed: seq<SpanRow>, batches: seq<seq<SpanRow>>)
    returns (verdicts: Verdicts, edges: seq<ServiceEdge>)
    requires GroundTruth(gt) && Landing(gt, landed) && Batches(landed, batches)
    ensures VerdictsSoFar(batches, verdicts)
    ensures EdgeKeys(edges) <= TrueEdges(gt) && forall e :: e in EdgeKeys(edges) <==> EdgeIsRead(batches, e)
    ensures forall e :: CallTotal(edges, e) == |ReadCalls(batches, e)|
  {
    verdicts, edges := map[], [];
    ghost var seen: seq<seq<SpanRow>> := [];
    for k := 0 to |batches|
      invariant seen == batches[..k] && VerdictsSoFar(seen, verdicts)
      invariant EdgeKeys(edges) <= TrueEdges(gt) && forall e :: e in EdgeKeys(edges) <==> EdgeIsRead(seen, e)
      invariant forall e :: CallTotal(edges, e) == |ReadCalls(seen, e)|
    {
      BatchLands(gt, landed, batches, k);
      FirstBatches(landed, batches, k + 1);
      assert batches[..k + 1] == seen + [batches[k]];
      var more := ClassifyBatch(gt, batches[k]);
      var found := AggregateEdges(batches[k]);
      OneMoreBatch(landed, seen, verdicts, batches[k], more);
      EdgesOneMore(seen, batches[k], edges, found);
      FoundKeysAreTrue(gt, batches[k], edges, found);
      TotalsOneMore(landed, seen, batches[k], edges, found);
      seen := seen + [batches[k]];
      verdicts, edges := verdicts + more, edges + found;
    }
    assert seen == batches;
  }

  /**
    The score of a run.  The counters are those of the landed spans.  Attachment falls short by
    exactly the calls that landed whole but whose ends were not read together, the orphan score by
    exactly the orphans never read; no edge is invented, the edges missed are those of which no call
    was read whole, and an edge's call counts fall short by exactly its calls that were missed.
   */
  method EvaluateBatches(gt: seq<SpanRow>, landed: seq<SpanRow>, batches: seq<seq<SpanRow>>, trueEdges: set<Edge>)
    returns (m: Metrics, verdicts: Verdicts, edges: seq<ServiceEdge>)
    requires GroundTruth(gt) && Landing(gt, landed) && Batches(landed, batches) && trueEdges == TrueEdges(gt)
    ensures Scores(m, TrueSpans(gt), LandedIds(landed), verdicts) && VerdictsSoFar(batches, verdicts)
    ensures m.attachmentTotal == m.attachmentCorrect + |SplitCalls(landed, batches)|
    ensures m.orphanTotal == m.orphanCorrect + |UnreadOrphans(landed, batches)|
    ensures EdgeKeys(edges) <= trueEdges && forall e :: e in EdgeKeys(edges) <==> EdgeIsRead(batches, e)
    ensures forall e :: |CallsAlong(gt, e)| == CallTotal(edges, e) + |MissedCalls(gt, landed, batches, e)|
    ensures m.edges == ScoreEdges(trueEdges, EdgeKeys(edges))
    ensures edges != [] ==> m.edges.precision == Some(1.0)
  {
    verdicts, edges := ProcessBatches(gt, landed, batches);
    m := ComputeMetrics(TrueSpans(gt), LandedIds(landed), verdicts, trueEdges, EdgeKeys(edges));
    Shortfalls(gt, landed, batches, verdicts, m);
    forall e
      ensures |CallsAlong(gt, e)| == CallTotal(edges, e) + |MissedCalls(gt, landed, batches, e)|
    {
      CallsReadAndMissed(gt, landed, batches, e);
    }
    if edges != [] {
      assert edges[0].Key() in EdgeKeys(edges);
      F1IsOneIffSameGraph(trueEdges, EdgeKeys(edges));
    }
  }

  // ----- One window -----

  lemma OneBatch(landed: seq<SpanRow>, batches: seq<seq<SpanRow>>)
    requires UniqueSpans(landed) && batches == [landed]
    ensures Batches(landed, batches) && |SplitCalls(landed, batches)| == |UnreadOrphans(landed, batches)| == 0
  {
    forall r | r in landed
      ensures InBatch(batches, 0, r)
    {
    }
    assert SplitCalls(landed, batches) == {} && UnreadOrphans(landed, batches) == {};
  }

  /** A run read in a single window scores in full. */
  method Evaluate(gt: seq<SpanRow>, landed: seq<SpanRow>, trueEdges: set<Edge>)
    returns (m: Metrics, verdicts: Verdicts, edges: seq<ServiceEdge>)
    requires GroundTruth(gt) && Landing(gt, landed) && trueEdges == TrueEdges(gt)
    ensures Scores(m, TrueSpans(gt), LandedIds(landed), verdicts) && m.edges == ScoreEdges(trueEdges, EdgeKeys(edges))
    ensures m.attachmentCorrect == m.attachmentTotal && m.orphanCorrect == m.orphanTotal
    ensures forall r :: r in landed ==> SpanKey(r) in verdicts && verdicts[SpanKey(r)] == Deserved(landed, r)
    ensures forall x :: x in edges ==> x.Key() in trueEdges
    ensures edges != [] ==> m.edges.precision == Some(1.0)
  {
    var batches := [landed];
    OneBatch(landed, batches);
    m, verdicts, edges := EvaluateBatches(gt, landed, batches, trueEdges);
    OneBatchVerdicts(landed, batches, verdicts);
    KeysAreListed(edges, trueEdges);
  }

  lemma KeysAreListed(edges: seq<ServiceEdge>, trueEdges: set<Edge>)
    requires EdgeKeys(edges) <= trueEdges
    ensures forall x :: x in edges ==> x.Key() in trueEdges
  {
    forall x | x in edges
      ensures x.Key() in trueEdges
    {
      assert x.Key() in EdgeKeys(edges);
    }
  }

  lemma OneBatchVerdicts(landed: seq<SpanRow>, batches: seq<seq<SpanRow>>, verdicts: Verdicts)
    requires batches == [landed] && VerdictsSoFar(batches, verdicts)
    ensures forall r :: r in landed ==> SpanKey(r) in verdicts && verdicts[SpanKey(r)] == Deserved(landed, r)
  {
    forall r | r in landed
      ensures SpanKey(r) in verdicts && verdicts[SpanKey(r)] == Deserved(landed, r)
    {
      assert InBatch(batches, 0, r);
    }
  }
}
