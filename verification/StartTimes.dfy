/**
  The offset estimates of `analyzer/clockskew.py` in terms of the rows they are made from: nothing
  but when spans start, and how often each service calls which.
 */
module StartTimes {
  import opened Collections
  import opened Spans
  import opened TraceGroups
  import opened CallGraph
  import opened Statistics
  import opened Faults
  import opened ClockSkew
  import opened ClockSkewLaws

  // ----- Gaps are between starts -----

  /** The gap of some call along e. */
  ghost predicate IsGapOf(pairs: seq<Pair>, e: Edge, x: real) {
    exists i :: 0 <= i < |pairs| && EdgeOf(pairs[i]) == e && x == (pairs[i].1.start - pairs[i].0.start) as real
  }

  lemma {:induction false} GapsAre(pairs: seq<Pair>, e: Edge, x: real)
    ensures x in GapsAlong(pairs, e) <==> IsGapOf(pairs, e, x)
  {
    if pairs == [] {
    } else {
      var n := |pairs| - 1;
      GapsAre(pairs[..n], e, x);
      if IsGapOf(pairs[..n], e, x) {
        var i :| 0 <= i < n && EdgeOf(pairs[..n][i]) == e && x == (pairs[..n][i].1.start - pairs[..n][i].0.start) as real;
        assert pairs[i] == pairs[..n][i];
      }
      if IsGapOf(pairs, e, x) {
        var i :| 0 <= i < |pairs| && EdgeOf(pairs[i]) == e && x == (pairs[i].1.start - pairs[i].0.start) as real;
        assert i == n || pairs[..n][i] == pairs[i];
      }
    }
  }

  ghost predicate IsCallee(pairs: seq<Pair>, e: Edge, c: SpanRow) {
    exists i :: 0 <= i < |pairs| && EdgeOf(pairs[i]) == e && pairs[i].1 == c
  }

  lemma IsCalleeOneMore(pairs: seq<Pair>, pair: Pair, e: Edge, c: SpanRow)
    ensures IsCallee(pairs + [pair], e, c) <==> IsCallee(pairs, e, c) || (EdgeOf(pair) == e && pair.1 == c)
  {
    var all := pairs + [pair];
    if IsCallee(pairs, e, c) {
      var i :| 0 <= i < |pairs| && EdgeOf(pairs[i]) == e && pairs[i].1 == c;
      assert all[i] == pairs[i];
    }
    assert all[|pairs|] == pair;
  }

  /** There are as many gaps along an edge as calls. */
  lemma {:induction false} CallsOfPairs(pairs: seq<Pair>, e: Edge, calls: set<SpanRow>)
    requires forall i, j :: 0 <= i < j < |pairs| ==> pairs[i].1 != pairs[j].1
    requires forall c :: c in calls <==> IsCallee(pairs, e, c)
    ensures |GapsAlong(pairs, e)| == |calls|
  {
    if pairs == [] {
      assert calls == {};
    } else {
      var init, last := pairs[..|pairs| - 1], pairs[|pairs| - 1];
      assert pairs == init + [last];
      assert !IsCallee(init, e, last.1);
      forall c
        ensures c in calls <==> IsCallee(init, e, c) || (EdgeOf(last) == e && last.1 == c)
      {
        IsCalleeOneMore(init, last, e, c);
      }
      var before := if EdgeOf(last) == e then calls - {last.1} else calls;
      assert EdgeOf(last) == e ==> last.1 in calls;
      CallsOfPairs(init, e, before);
    }
  }

  lemma GapsAreCounted(rows: seq<SpanRow>, pairs: seq<Pair>, e: Edge)
    requires PairsUp(rows, pairs)
    ensures |GapsAlong(pairs, e)| == |CallsAlong(rows, e)|
  {
    forall c
      ensures c in CallsAlong(rows, e) <==> IsCallee(pairs, e, c)
    {
      if c in CallsAlong(rows, e) {
        var p :| p in rows && CallsAs(p, c, e);
        assert (p, c) in pairs;
        var i :| 0 <= i < |pairs| && pairs[i] == (p, c);
        assert EdgeOf(pairs[i]) == e;
      }
      if i :| 0 <= i < |pairs| && EdgeOf(pairs[i]) == e && pairs[i].1 == c {
        assert (pairs[i].0, pairs[i].1) in pairs;
        assert CallsAs(pairs[i].0, c, e);
      }
    }
    CallsOfPairs(pairs, e, CallsAlong(rows, e));
  }

  // ----- Calls that all start the same time after their callers -----

  ghost predicate StartsApart(rows: seq<SpanRow>, delay: int) {
    forall p, c :: p in rows && c in rows && Calls(p, c) ==> c.start - p.start == delay
  }

  lemma {:induction false} AllWithin(s: seq<real>, x: real)
    requires forall y :: y in s ==> y == x
    ensures Count(s, Within(x, x)) == |s|
  {
    if s == [] {
    } else {
      var init, last := s[..|s| - 1], s[|s| - 1];
      assert s == init + [last] && last in s && forall y :: y in init ==> y in s;
      AllWithin(init, x);
    }
  }

  lemma StartsGiveMedians(rows: seq<SpanRow>, pairs: seq<Pair>, delay: int)
    requires PairsUp(rows, pairs) && StartsApart(rows, delay)
    ensures DelaysWithin(pairs, delay as real, delay as real)
  {
    forall e | e in EdgeOrder(pairs)
      ensures Majority(GapsAlong(pairs, e), delay as real, delay as real)
    {
      var gaps := GapsAlong(pairs, e);
      EdgeOrderIs(pairs, e);
      forall x | x in gaps
        ensures x == delay as real
      {
        GapsAre(pairs, e, x);
        var i :| 0 <= i < |pairs| && EdgeOf(pairs[i]) == e && x == (pairs[i].1.start - pairs[i].0.start) as real;
        assert (pairs[i].0, pairs[i].1) in pairs;
      }
      AllWithin(gaps, delay as real);
    }
    MostDelaysWithin(pairs, delay as real, delay as real);
  }

  /**
    Where under the true clocks every call starts `delay` after its caller, and no skew mirrors
    that delay: the offsets come out of the skewed rows if and only if some call joins agreeing
    clocks and none is skewed in between, or nothing but the root is estimated.
   */
  lemma EqualStartsAreRecoveredIff(rows: seq<SpanRow>, o: Skew, delay: int, root: string, offsets: map<string, ServiceOffset>)
    requires EstimatesFrom(SkewRows(rows, o), root, offsets)
    requires delay >= 0 && StartsApart(rows, delay) && NoCallMirrors(rows, o, delay as real)
    ensures Recovers(offsets, o, root) <==>
              (SomeCallIsClean(rows, o) && !SomeCallIsInBetween(rows, o, delay as real)) || offsets.Keys <= {root}
  {
    var skewed :| PairsUp(SkewRows(rows, o), skewed) && EstimatesFromPairs(skewed, root, offsets);
    var pairs := PairsOfSkewedRows(rows, o, skewed);
    StartsGiveMedians(rows, pairs, delay);
    SkewIsRecoveredIff(rows, o, delay as real, root, offsets);
  }

  /** In particular, where the clocks agree no service is estimated to be off. */
  lemma AgreeingClocksShowNoOffset(rows: seq<SpanRow>, delay: int, root: string, offsets: map<string, ServiceOffset>)
    requires EstimatesFrom(rows, root, offsets) && delay >= 0 && StartsApart(rows, delay)
    ensures forall s :: s in offsets ==> offsets[s].offset == 0
  {
    var o: Skew := _ => 0;
    UnskewedRows(rows, o);
    if offsets != map[] {
      EstimatesShowACall(rows, root, offsets);
      var p, c :| p in rows && c in rows && Calls(p, c);
      assert o(p.service) == o(c.service);
      EqualStartsAreRecoveredIff(rows, o, delay, root, offsets);
    }
  }

  lemma PairsShowACall(rows: seq<SpanRow>, pairs: seq<Pair>)
    requires PairsUp(rows, pairs) && pairs != []
    ensures exists p, c :: p in rows && c in rows && Calls(p, c)
  {
    assert (pairs[0].0, pairs[0].1) in pairs;
  }

  lemma EstimatesShowACall(rows: seq<SpanRow>, root: string, offsets: map<string, ServiceOffset>)
    requires EstimatesFrom(rows, root, offsets) && offsets != map[]
    ensures exists p, c :: p in rows && c in rows && Calls(p, c)
  {
    var pairs: seq<Pair> :| PairsUp(rows, pairs) && EstimatesFromPairs(pairs, root, offsets);
    PairsShowACall(rows, pairs);
  }

  // ----- Ends do not matter -----

  type Ends = SpanRow -> int

  function WithEnd(r: SpanRow, ends: Ends): SpanRow {
    r.(end := ends(r))
  }

  function WithEnds(rows: seq<SpanRow>, ends: Ends): (r: seq<SpanRow>)
    ensures |r| == |rows|
  {
    seq(|rows|, i requires 0 <= i < |rows| => WithEnd(rows[i], ends))
  }

  function PairsWithEnds(pairs: seq<Pair>, ends: Ends): (r: seq<Pair>)
    ensures |r| == |pairs|
  {
    seq(|pairs|, i requires 0 <= i < |pairs| => (WithEnd(pairs[i].0, ends), WithEnd(pairs[i].1, ends)))
  }

  lemma {:induction false} EndsKeepGaps(pairs: seq<Pair>, ends: Ends, e: Edge)
    ensures GapsAlong(PairsWithEnds(pairs, ends), e) == GapsAlong(pairs, e)
    ensures EdgeOrder(PairsWithEnds(pairs, ends)) == EdgeOrder(pairs)
  {
    if pairs == [] {
    } else {
      var init := pairs[..|pairs| - 1];
      EndsKeepGaps(init, ends, e);
      assert PairsWithEnds(pairs, ends)[..|pairs| - 1] == PairsWithEnds(init, ends);
    }
  }

  lemma WithEndMember(rows: seq<SpanRow>, ends: Ends, r: SpanRow)
    ensures r in rows ==> WithEnd(r, ends) in WithEnds(rows, ends)
    ensures r in WithEnds(rows, ends) ==> exists q :: q in rows && WithEnd(q, ends) == r
  {
    if r in rows {
      var i :| 0 <= i < |rows| && rows[i] == r;
      assert WithEnds(rows, ends)[i] == WithEnd(r, ends);
    }
    if r in WithEnds(rows, ends) {
      var i :| 0 <= i < |rows| && WithEnd(rows[i], ends) == r;
      assert rows[i] in rows;
    }
  }

  lemma PairWithEnds(rows: seq<SpanRow>, pairs: seq<Pair>, ends: Ends, p: SpanRow, c: SpanRow)
    requires PairsUp(rows, pairs)
    ensures (p, c) in PairsWithEnds(pairs, ends) <==> p in WithEnds(rows, ends) && c in WithEnds(rows, ends) && Calls(p, c)
  {
    WithEndMember(rows, ends, p);
    WithEndMember(rows, ends, c);
    if (p, c) in PairsWithEnds(pairs, ends) {
      var i :| 0 <= i < |pairs| && PairsWithEnds(pairs, ends)[i] == (p, c);
      assert (pairs[i].0, pairs[i].1) in pairs;
      WithEndMember(rows, ends, pairs[i].0);
      WithEndMember(rows, ends, pairs[i].1);
    }
    if p in WithEnds(rows, ends) && c in WithEnds(rows, ends) && Calls(p, c) {
      var q :| q in rows && WithEnd(q, ends) == p;
      var d :| d in rows && WithEnd(d, ends) == c;
      assert (q, d) in pairs;
      var i :| 0 <= i < |pairs| && pairs[i] == (q, d);
      assert PairsWithEnds(pairs, ends)[i] == (p, c);
    }
  }

  lemma PairsUpWithEnds(rows: seq<SpanRow>, pairs: seq<Pair>, ends: Ends)
    requires UniqueSpans(rows) && PairsUp(rows, pairs)
    ensures PairsUp(WithEnds(rows, ends), PairsWithEnds(pairs, ends))
  {
    var others := PairsWithEnds(pairs, ends);
    forall p, c
      ensures (p, c) in others <==> p in WithEnds(rows, ends) && c in WithEnds(rows, ends) && Calls(p, c)
    {
      PairWithEnds(rows, pairs, ends, p, c);
    }
    forall i, j | 0 <= i < j < |others|
      ensures others[i].1 != others[j].1
    {
      assert (pairs[i].0, pairs[i].1) in pairs && (pairs[j].0, pairs[j].1) in pairs;
      assert pairs[i].1 != pairs[j].1;
    }
  }

  /** However the ends of the spans are changed, the estimates stay the same. */
  lemma EndsChangeNoEstimate(rows: seq<SpanRow>, ends: Ends, root: string, offsets: map<string, ServiceOffset>)
    requires UniqueSpans(rows) && EstimatesFrom(rows, root, offsets)
    ensures EstimatesFrom(WithEnds(rows, ends), root, offsets)
  {
    var pairs: seq<Pair> :| PairsUp(rows, pairs) && EstimatesFromPairs(pairs, root, offsets);
    PairsUpWithEnds(rows, pairs, ends);
    EndsKeepAllGaps(pairs, ends);
    SameGapsSameEstimates(pairs, PairsWithEnds(pairs, ends), root, offsets);
  }

  lemma EndsKeepAllGaps(pairs: seq<Pair>, ends: Ends)
    ensures SameGaps(pairs, PairsWithEnds(pairs, ends))
  {
    forall e
      ensures GapsAlong(PairsWithEnds(pairs, ends), e) == GapsAlong(pairs, e)
      ensures EdgeOrder(PairsWithEnds(pairs, ends)) == EdgeOrder(pairs)
    {
      EndsKeepGaps(pairs, ends, e);
    }
    EndsKeepGaps(pairs, ends, ("", ""));
  }

  // ----- Confidence -----

  /** p calls s, and nobody calls s more often. */
  ghost predicate CallsMost(rows: seq<SpanRow>, p: string, s: string) {
    CallsAlong(rows, (p, s)) != {} && forall q :: |CallsAlong(rows, (q, s))| <= |CallsAlong(rows, (p, s))|
  }

  lemma PrimaryCallsMost(rows: seq<SpanRow>, pairs: seq<Pair>, s: string)
    requires PairsUp(rows, pairs) && Primary(pairs, s).Some?
    ensures CallsMost(rows, Primary(pairs, s).value, s)
    ensures CallCount(pairs, s) == |CallsAlong(rows, (Primary(pairs, s).value, s))|
  {
    var p := Primary(pairs, s).value;
    PrimaryIs(pairs, s);
    EdgeOrderIs(pairs, (p, s));
    forall q
      ensures |GapsAlong(pairs, (q, s))| == |CallsAlong(rows, (q, s))|
    {
      GapsAreCounted(rows, pairs, (q, s));
    }
  }

  lemma ConfidenceOfTree(tree: Tree, root: string, offsets: map<string, ServiceOffset>, s: string)
    requires Estimates(tree, root, offsets) && s in offsets
    ensures offsets[s].service == s
    ensures s == root ==> offsets[s].confidence == 0 && offsets[s].offset == 0
    ensures s != root ==> tree.primary(s).Some? && offsets[s].confidence == tree.calls(s)
  {
    var d: nat :| Chain(tree, root, s, d);
    assert offsets[s] == OffsetOf(tree, s, d);
  }

  /** A service's confidence is how often the caller that calls it most does so; the root's is zero. */
  lemma ConfidenceIs(rows: seq<SpanRow>, root: string, offsets: map<string, ServiceOffset>, s: string)
    requires EstimatesFrom(rows, root, offsets) && s in offsets
    ensures offsets[s].service == s
    ensures s == root ==> offsets[s].confidence == 0 && offsets[s].offset == 0
    ensures s != root ==> exists p :: CallsMost(rows, p, s) && offsets[s].confidence == |CallsAlong(rows, (p, s))|
  {
    var pairs: seq<Pair> :| PairsUp(rows, pairs) && EstimatesFromPairs(pairs, root, offsets);
    var tree := TreeOf(pairs, TypicalGap(pairs));
    ConfidenceOfTree(tree, root, offsets, s);
    if s != root {
      PrimaryCallsMost(rows, pairs, s);
    }
  }
}
