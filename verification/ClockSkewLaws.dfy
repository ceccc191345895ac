/**
  What the clock-offset estimates mean: every service's clock is off by an unknown constant, and
  the estimator sees only the skewed spans.
 */
module ClockSkewLaws {
  import opened Collections
  import opened Spans
  import opened TraceGroups
  import opened CallGraph
  import opened Statistics
  import opened TracePlan
  import opened Generator
  import opened Faults
  import opened ClockSkew

  // ----- Skewed spans -----

  function SkewPairs(pairs: seq<Pair>, o: Skew): (r: seq<Pair>)
    ensures |r| == |pairs|
  {
    seq(|pairs|, i requires 0 <= i < |pairs| => (SkewRow(pairs[i].0, o), SkewRow(pairs[i].1, o)))
  }

  function Undo(o: Skew): Skew {
    s => -o(s)
  }

  lemma SkewedBack(r: SpanRow, o: Skew)
    ensures SkewRow(SkewRow(r, o), Undo(o)) == r && SkewRow(SkewRow(r, Undo(o)), o) == r
  {
  }

  /** The pairs of skewed rows are the skewed pairs of the rows. */
  lemma PairsOfSkewedRows(rows: seq<SpanRow>, o: Skew, skewed: seq<Pair>) returns (pairs: seq<Pair>)
    requires PairsUp(SkewRows(rows, o), skewed)
    ensures PairsUp(rows, pairs) && skewed == SkewPairs(pairs, o)
  {
    pairs := SkewPairs(skewed, Undo(o));
    forall i | 0 <= i < |skewed|
      ensures SkewPairs(pairs, o)[i] == skewed[i]
    {
      SkewedBack(skewed[i].0, o);
      SkewedBack(skewed[i].1, o);
    }
    forall p, c
      ensures (p, c) in pairs <==> p in rows && c in rows && Calls(p, c)
    {
      SkewedMember(rows, o, p);
      SkewedMember(rows, o, c);
      SkewedPairMember(pairs, skewed, o, p, c);
    }
  }

  lemma SkewedMember(rows: seq<SpanRow>, o: Skew, r: SpanRow)
    ensures r in rows <==> SkewRow(r, o) in SkewRows(rows, o)
  {
    if r in rows {
      var i :| 0 <= i < |rows| && rows[i] == r;
      assert SkewRows(rows, o)[i] == SkewRow(r, o);
    }
    if SkewRow(r, o) in SkewRows(rows, o) {
      var i :| 0 <= i < |rows| && SkewRow(rows[i], o) == SkewRow(r, o);
      SkewedBack(rows[i], o);
      SkewedBack(r, o);
    }
  }

  lemma SkewedPairMember(pairs: seq<Pair>, skewed: seq<Pair>, o: Skew, p: SpanRow, c: SpanRow)
    requires skewed == SkewPairs(pairs, o)
    ensures (p, c) in pairs <==> (SkewRow(p, o), SkewRow(c, o)) in skewed
  {
    if (p, c) in pairs {
      var i :| 0 <= i < |pairs| && pairs[i] == (p, c);
      assert skewed[i] == (SkewRow(p, o), SkewRow(c, o));
    }
    if (SkewRow(p, o), SkewRow(c, o)) in skewed {
      var i :| 0 <= i < |skewed| && skewed[i] == (SkewRow(p, o), SkewRow(c, o));
      SkewedBack(pairs[i].0, o);
      SkewedBack(pairs[i].1, o);
      SkewedBack(p, o);
      SkewedBack(c, o);
    }
  }

  function Relative(o: Skew, e: Edge): int {
    o(e.1) - o(e.0)
  }

  /** Skew moves every gap along an edge by the same amount, and nothing else the estimator reads. */
  lemma {:induction false} GapsOfSkewedPairs(pairs: seq<Pair>, o: Skew, e: Edge)
    ensures GapsAlong(SkewPairs(pairs, o), e) == Shift(GapsAlong(pairs, e), Relative(o, e) as real)
    ensures EdgeOrder(SkewPairs(pairs, o)) == EdgeOrder(pairs)
  {
    if pairs == [] {
    } else {
      var init := pairs[..|pairs| - 1];
      GapsOfSkewedPairs(init, o, e);
      assert SkewPairs(pairs, o)[..|pairs| - 1] == SkewPairs(init, o);
    }
  }

  lemma {:induction false} IncomingOfSkewedPairs(pairs: seq<Pair>, o: Skew, edges: seq<Edge>, s: string)
    ensures Incoming(SkewPairs(pairs, o), edges, s) == Incoming(pairs, edges, s)
  {
    if edges == [] {
    } else {
      IncomingOfSkewedPairs(pairs, o, edges[..|edges| - 1], s);
      GapsOfSkewedPairs(pairs, o, edges[|edges| - 1]);
    }
  }

  lemma PrimaryOfSkewedPairs(pairs: seq<Pair>, o: Skew, s: string)
    ensures Primary(SkewPairs(pairs, o), s) == Primary(pairs, s)
  {
    GapsOfSkewedPairs(pairs, o, ("", s));
    IncomingOfSkewedPairs(pairs, o, EdgeOrder(pairs), s);
  }

  lemma MedianOfSkewedPairs(pairs: seq<Pair>, o: Skew, e: Edge)
    requires e in EdgeOrder(pairs)
    ensures MedianGap(SkewPairs(pairs, o), e) == MedianGap(pairs, e) + Relative(o, e) as real
  {
    EdgeOrderIs(pairs, e);
    GapsOfSkewedPairs(pairs, o, e);
    MedianShifts(GapsAlong(pairs, e), Relative(o, e) as real);
  }

  // ----- What an estimate consists of -----

  /** The true delays along a chain, as far as they differ from what is taken as typical. */
  ghost function Excess(tree: Tree, excess: string -> real, s: string, d: nat): real
    decreases d
  {
    if d == 0 || tree.primary(s).None? then 0.0
    else Excess(tree, excess, tree.primary(s).value, d - 1) + excess(s)
  }

  /** Each hop shows the skew between its ends on top of a true excess. */
  ghost predicate ShowsSkew(tree: Tree, o: Skew, excess: string -> real) {
    forall s :: tree.primary(s).Some? ==> tree.delay(s) == excess(s) + (o(s) - o(tree.primary(s).value)) as real
  }

  predicate Near(x: real, y: real, tolerance: real) {
    -tolerance <= x - y <= tolerance
  }

  lemma {:induction false} EstimateIsNear(tree: Tree, o: Skew, excess: string -> real, root: string, s: string, d: nat)
    requires ShowsSkew(tree, o, excess) && Chain(tree, root, s, d)
    ensures Near(Estimate(tree, s, d) as real, (o(s) - o(root)) as real + Excess(tree, excess, s, d), 0.5 * d as real)
    decreases d
  {
    if d > 0 {
      EstimateIsNear(tree, o, excess, root, tree.primary(s).value, d - 1);
    }
  }

  lemma {:induction false} EstimateIsExact(tree: Tree, o: Skew, excess: string -> real, root: string, s: string, d: nat, bias: int)
    requires ShowsSkew(tree, o, excess) && Chain(tree, root, s, d)
    requires forall t :: tree.primary(t).Some? ==> excess(t) == bias as real
    ensures Estimate(tree, s, d) == o(s) - o(root) + d * bias
    decreases d
  {
    if d > 0 {
      var p := tree.primary(s).value;
      EstimateIsExact(tree, o, excess, root, p, d - 1, bias);
      RoundOfInt(o(p) - o(root) + (d - 1) * bias + bias + (o(s) - o(p)));
      assert (d - 1) * bias + bias == d * bias;
    }
  }

  lemma {:induction false} ExcessIsBounded(tree: Tree, excess: string -> real, s: string, d: nat, bound: real)
    requires forall t :: tree.primary(t).Some? ==> -bound <= excess(t) <= bound
    requires bound >= 0.0
    ensures -Times(bound, d as real) <= Excess(tree, excess, s, d) <= Times(bound, d as real)
    decreases d
  {
    if d > 0 && tree.primary(s).Some? {
      ExcessIsBounded(tree, excess, tree.primary(s).value, d - 1, bound);
      OneHopMore(bound, d - 1);
    } else {
      Mul(0.0, bound, d as real);
    }
  }

  lemma OneHopMore(bound: real, d: nat)
    ensures Times(bound, (d + 1) as real) == Times(bound, d as real) + bound
  {
  }

  function ExcessOf(pairs: seq<Pair>, typical: real): string -> real {
    s => Delay(pairs, s) - typical
  }

  lemma SkewedDelay(pairs: seq<Pair>, o: Skew, s: string)
    requires Primary(pairs, s).Some?
    ensures Primary(SkewPairs(pairs, o), s) == Primary(pairs, s)
    ensures Delay(SkewPairs(pairs, o), s) == Delay(pairs, s) + (o(s) - o(Primary(pairs, s).value)) as real
  {
    PrimaryOfSkewedPairs(pairs, o, s);
    PrimaryIs(pairs, s);
    MedianOfSkewedPairs(pairs, o, PrimaryEdge(pairs, s));
  }

  /** What the estimator makes of skewed pairs, beside what their true gaps are. */
  ghost predicate SkewedTree(pairs: seq<Pair>, o: Skew, typical: real, tree: Tree, excess: string -> real) {
    tree == TreeOf(SkewPairs(pairs, o), typical) && excess == ExcessOf(pairs, typical)
  }

  lemma TreeBySkew(pairs: seq<Pair>, skewed: seq<Pair>, typical: real, tree: Tree, excess: string -> real, s: string, shift: int)
    requires tree == TreeOf(skewed, typical) && excess == ExcessOf(pairs, typical)
    requires Primary(skewed, s) == Primary(pairs, s)
    requires Delay(skewed, s) == Delay(pairs, s) + shift as real
    ensures tree.primary(s) == Primary(pairs, s) && tree.delay(s) == excess(s) + shift as real
  {
  }

  lemma SkewedTreeAt(pairs: seq<Pair>, o: Skew, typical: real, tree: Tree, excess: string -> real, s: string)
    requires SkewedTree(pairs, o, typical, tree, excess)
    ensures tree.primary(s) == Primary(pairs, s)
    ensures tree.primary(s).Some? ==> tree.delay(s) == excess(s) + (o(s) - o(tree.primary(s).value)) as real
  {
    PrimaryOfSkewedPairs(pairs, o, s);
    if Primary(pairs, s).Some? {
      SkewedDelay(pairs, o, s);
      TreeBySkew(pairs, SkewPairs(pairs, o), typical, tree, excess, s, o(s) - o(Primary(pairs, s).value));
    }
  }

  lemma SkewedTreeShowsSkew(pairs: seq<Pair>, o: Skew, typical: real, tree: Tree, excess: string -> real)
    requires SkewedTree(pairs, o, typical, tree, excess)
    ensures ShowsSkew(tree, o, excess)
  {
    forall s | tree.primary(s).Some?
      ensures tree.delay(s) == excess(s) + (o(s) - o(tree.primary(s).value)) as real
    {
      SkewedTreeAt(pairs, o, typical, tree, excess, s);
    }
  }

  /**
    The estimate for a service is its offset from the root's, plus what the true median delays on
    its chain of primary callers exceed the gap taken as typical, within half a nanosecond per hop.
   */
  lemma EstimateCharacterised(
    pairs: seq<Pair>, o: Skew, typical: real, tree: Tree, excess: string -> real, root: string, s: string, d: nat)
    requires SkewedTree(pairs, o, typical, tree, excess) && Chain(tree, root, s, d)
    ensures Near(Estimate(tree, s, d) as real, (o(s) - o(root)) as real + Excess(tree, excess, s, d), 0.5 * d as real)
  {
    SkewedTreeShowsSkew(pairs, o, typical, tree, excess);
    EstimateIsNear(tree, o, excess, root, s, d);
  }

  // ----- Which gap is taken as typical -----

  /** The typical gap is that of some observed edge, and no edge's is smaller in magnitude. */
  lemma TypicalIsSomeMedian(pairs: seq<Pair>) returns (e: Edge)
    requires pairs != []
    ensures e in EdgeOrder(pairs) && TypicalGap(pairs) == MedianGap(pairs, e)
    ensures forall f :: f in EdgeOrder(pairs) ==> Abs(TypicalGap(pairs)) <= Abs(MedianGap(pairs, f))
  {
    var order := EdgeOrder(pairs);
    EdgeOrderIs(pairs, EdgeOf(pairs[0]));
    var values := Medians(pairs, order);
    LeastMagnitudeIs(values);
    var i :| 0 <= i < |values| && values[i] == LeastMagnitude(values);
    e := order[i];
    forall f | f in order
      ensures Abs(LeastMagnitude(values)) <= Abs(MedianGap(pairs, f))
    {
      var k :| 0 <= k < |order| && order[k] == f;
      assert values[k] in values;
    }
  }

  predicate Clean(o: Skew, e: Edge) {
    o(e.0) == o(e.1)
  }

  ghost predicate SomeEdgeIsClean(pairs: seq<Pair>, o: Skew) {
    exists e :: e in EdgeOrder(pairs) && Clean(o, e)
  }

  /** Skew, where there is any, is more than twice as large as any true delay. */
  ghost predicate Loud(pairs: seq<Pair>, o: Skew, longest: real) {
    forall e :: e in EdgeOrder(pairs) && !Clean(o, e) ==> Abs(Relative(o, e) as real) > 2.0 * longest
  }

  ghost predicate DelaysWithin(pairs: seq<Pair>, lo: real, hi: real) {
    forall e :: e in EdgeOrder(pairs) ==> lo <= MedianGap(pairs, e) <= hi
  }

  lemma LoudEdgeIsNotTypical(m: real, shift: real, hi: real)
    requires 0.0 <= m <= hi && Abs(shift) > 2.0 * hi
    ensures Abs(m + shift) > hi
  {
  }

  /** If skew is loud, the typical gap is a true delay as soon as a single edge is clean. */
  lemma TypicalIsTrueDelay(pairs: seq<Pair>, o: Skew, typical: real, lo: real, hi: real)
    requires pairs != [] && typical == TypicalGap(SkewPairs(pairs, o))
    requires 0.0 <= lo && DelaysWithin(pairs, lo, hi) && Loud(pairs, o, hi) && SomeEdgeIsClean(pairs, o)
    ensures lo <= typical <= hi
  {
    var e, m := TypicalUnskewed(pairs, o, typical);
    var f :| f in EdgeOrder(pairs) && Clean(o, f);
    assert m == MedianGap(pairs, e) + Relative(o, e) as real;
    if !Clean(o, e) {
      LoudEdgeIsNotTypical(MedianGap(pairs, e), Relative(o, e) as real, hi);
    }
  }

  /** The same, in terms of the true medians. */
  lemma TypicalUnskewed(pairs: seq<Pair>, o: Skew, typical: real) returns (e: Edge, m: real)
    requires pairs != [] && typical == TypicalGap(SkewPairs(pairs, o))
    ensures e in EdgeOrder(pairs) && typical == m == MedianGap(pairs, e) + Relative(o, e) as real
    ensures forall f :: f in EdgeOrder(pairs) ==> Abs(typical) <= Abs(MedianGap(pairs, f) + Relative(o, f) as real)
  {
    e := TypicalIsSomeMedian(SkewPairs(pairs, o));
    m := typical;
    GapsOfSkewedPairs(pairs, o, e);
    MedianOfSkewedPairs(pairs, o, e);
    forall f | f in EdgeOrder(pairs)
      ensures Abs(typical) <= Abs(MedianGap(pairs, f) + Relative(o, f) as real)
    {
      MedianOfSkewedPairs(pairs, o, f);
    }
  }

  /**
    Each edge's median survives up to half of its samples being off, so it is enough that most
    calls along every edge take between lo and hi.
   */
  lemma MostDelaysWithin(pairs: seq<Pair>, lo: real, hi: real)
    requires forall e :: e in EdgeOrder(pairs) ==> Majority(GapsAlong(pairs, e), lo, hi)
    ensures DelaysWithin(pairs, lo, hi)
  {
    forall e | e in EdgeOrder(pairs)
      ensures lo <= MedianGap(pairs, e) <= hi
    {
      MedianIsInMajority(GapsAlong(pairs, e), lo, hi);
    }
  }

  // ----- How far off the estimates are -----

  ghost predicate OffBy(offsets: map<string, ServiceOffset>, tree: Tree, o: Skew, root: string, perHop: real) {
    forall s, d: nat :: s in offsets && Chain(tree, root, s, d) ==>
      Near(offsets[s].offset as real, (o(s) - o(root)) as real, Times(perHop, d as real))
  }

  /** Every hop shows the skew between its ends, give or take a bounded excess. */
  ghost predicate ShowsSkewWithin(tree: Tree, o: Skew, bound: real) {
    exists excess :: ShowsSkew(tree, o, excess) && forall t :: tree.primary(t).Some? ==> -bound <= excess(t) <= bound
  }

  lemma ExcessWithin(pairs: seq<Pair>, o: Skew, typical: real, tree: Tree, lo: real, spread: real)
    requires tree == TreeOf(SkewPairs(pairs, o), typical) && DelaysWithin(pairs, lo, lo + spread) && lo <= typical <= lo + spread
    ensures ShowsSkewWithin(tree, o, spread)
  {
    var excess := ExcessOf(pairs, typical);
    SkewedTreeShowsSkew(pairs, o, typical, tree, excess);
    forall t | tree.primary(t).Some?
      ensures -spread <= excess(t) <= spread
    {
      PrimaryOfSkewedPairs(pairs, o, t);
      PrimaryIs(pairs, t);
      assert PrimaryEdge(pairs, t) in EdgeOrder(pairs);
    }
  }

  lemma NearPlusExcess(x: real, base: real, excess: real, bound: real, d: nat)
    requires Near(x, base + excess, 0.5 * d as real) && -Times(bound, d as real) <= excess <= Times(bound, d as real)
    ensures Near(x, base, Times(bound + 0.5, d as real))
  {
  }

  lemma BoundedExcessBoundsError(tree: Tree, o: Skew, bound: real, root: string, s: string, d: nat)
    requires ShowsSkewWithin(tree, o, bound) && bound >= 0.0 && Chain(tree, root, s, d)
    ensures Near(Estimate(tree, s, d) as real, (o(s) - o(root)) as real, Times(bound + 0.5, d as real))
  {
    var excess :| ShowsSkew(tree, o, excess) && forall t :: tree.primary(t).Some? ==> -bound <= excess(t) <= bound;
    EstimateIsNear(tree, o, excess, root, s, d);
    ExcessIsBounded(tree, excess, s, d, bound);
    NearPlusExcess(Estimate(tree, s, d) as real, (o(s) - o(root)) as real, Excess(tree, excess, s, d), bound, d);
  }

  lemma BoundedExcessBoundsErrors(tree: Tree, o: Skew, bound: real, root: string, offsets: map<string, ServiceOffset>)
    requires ShowsSkewWithin(tree, o, bound) && bound >= 0.0 && Estimates(tree, root, offsets)
    ensures OffBy(offsets, tree, o, root, bound + 0.5)
  {
    forall s, d: nat | s in offsets && Chain(tree, root, s, d)
      ensures Near(offsets[s].offset as real, (o(s) - o(root)) as real, Times(bound + 0.5, d as real))
    {
      BoundedExcessBoundsError(tree, o, bound, root, s, d);
    }
  }

  /**
    Under loud skew one clean edge bounds every estimate: per hop it is off by no more than the
    spread of the true delays and the rounding.
   */
  lemma OneCleanEdgeBoundsTheError(
    pairs: seq<Pair>, o: Skew, typical: real, tree: Tree, lo: real, spread: real, root: string, offsets: map<string, ServiceOffset>)
    requires pairs != [] && 0.0 <= lo && 0.0 <= spread && DelaysWithin(pairs, lo, lo + spread)
    requires Loud(pairs, o, lo + spread) && SomeEdgeIsClean(pairs, o)
    requires typical == TypicalGap(SkewPairs(pairs, o)) && tree == TreeOf(SkewPairs(pairs, o), typical)
    requires Estimates(tree, root, offsets)
    ensures OffBy(offsets, tree, o, root, spread + 0.5)
  {
    TypicalIsTrueDelay(pairs, o, typical, lo, lo + spread);
    ExcessWithin(pairs, o, typical, tree, lo, spread);
    BoundedExcessBoundsErrors(tree, o, spread, root, offsets);
  }

  // ----- Uniform delays -----

  ghost predicate Recovers(offsets: map<string, ServiceOffset>, o: Skew, root: string) {
    forall s :: s in offsets ==> offsets[s].offset == o(s) - o(root)
  }

  ghost predicate Uniform(pairs: seq<Pair>, delay: real) {
    forall e :: e in EdgeOrder(pairs) ==> MedianGap(pairs, e) == delay
  }

  /** With one true delay everywhere, each hop adds the same whole number to the error. */
  lemma UniformDelaysBias(pairs: seq<Pair>, o: Skew, typical: real, tree: Tree, delay: real, bias: int)
    requires Uniform(pairs, delay) && tree == TreeOf(SkewPairs(pairs, o), typical) && delay - typical == bias as real
    ensures Biased(tree, o, bias)
  {
    var excess := ExcessOf(pairs, typical);
    SkewedTreeShowsSkew(pairs, o, typical, tree, excess);
    forall t | tree.primary(t).Some?
      ensures excess(t) == bias as real
    {
      PrimaryOfSkewedPairs(pairs, o, t);
      PrimaryIs(pairs, t);
      assert PrimaryEdge(pairs, t) in EdgeOrder(pairs);
    }
  }

  ghost predicate Biased(tree: Tree, o: Skew, bias: int) {
    exists excess :: ShowsSkew(tree, o, excess) && forall t :: tree.primary(t).Some? ==> excess(t) == bias as real
  }

  lemma BiasedEstimate(tree: Tree, o: Skew, bias: int, root: string, s: string, d: nat)
    requires Biased(tree, o, bias) && Chain(tree, root, s, d)
    ensures Estimate(tree, s, d) == o(s) - o(root) + d * bias
  {
    var excess :| ShowsSkew(tree, o, excess) && forall t :: tree.primary(t).Some? ==> excess(t) == bias as real;
    EstimateIsExact(tree, o, excess, root, s, d, bias);
  }

  lemma BiasedRecoversIff(tree: Tree, o: Skew, bias: int, root: string, offsets: map<string, ServiceOffset>)
    requires Biased(tree, o, bias) && Estimates(tree, root, offsets)
    ensures Recovers(offsets, o, root) <==> bias == 0 || offsets.Keys == {root}
  {
    assert Chain(tree, root, root, 0);
    assert Chained(tree, root, root);
    forall s | s in offsets
      ensures offsets[s].offset == o(s) - o(root) <==> bias == 0 || s == root
    {
      var d: nat :| Chain(tree, root, s, d);
      BiasedEstimate(tree, o, bias, root, s, d);
      assert d * bias == 0 <==> d == 0 || bias == 0;
    }
    if offsets.Keys != {root} {
      var s :| s in offsets.Keys && s != root;
    }
  }

  /** Uniform delays are recovered exactly if and only if the typical gap is the true delay, or only the root is estimated. */
  lemma UniformDelaysRecoveredIff(
    pairs: seq<Pair>, o: Skew, typical: real, tree: Tree, delay: real, root: string, offsets: map<string, ServiceOffset>)
    requires pairs != [] && Uniform(pairs, delay)
    requires typical == TypicalGap(SkewPairs(pairs, o)) && tree == TreeOf(SkewPairs(pairs, o), typical)
    requires Estimates(tree, root, offsets)
    ensures Recovers(offsets, o, root) <==> typical == delay || offsets.Keys == {root}
  {
    var e, m := TypicalUnskewed(pairs, o, typical);
    UniformDelaysBias(pairs, o, typical, tree, delay, -Relative(o, e));
    BiasedRecoversIff(tree, o, -Relative(o, e), root, offsets);
  }

  /**
    The assumption the estimator documents, made exact: where skew is loud, offsets are recovered
    if and only if some edge joins two services whose clocks agree.
   */
  lemma RecoveredIffSomeEdgeIsClean(
    pairs: seq<Pair>, o: Skew, typical: real, tree: Tree, delay: real, root: string, offsets: map<string, ServiceOffset>)
    requires pairs != [] && Uniform(pairs, delay) && delay >= 0.0 && Loud(pairs, o, delay)
    requires typical == TypicalGap(SkewPairs(pairs, o)) && tree == TreeOf(SkewPairs(pairs, o), typical)
    requires Estimates(tree, root, offsets)
    requires offsets.Keys != {root}
    ensures Recovers(offsets, o, root) <==> SomeEdgeIsClean(pairs, o)
  {
    UniformDelaysRecoveredIff(pairs, o, typical, tree, delay, root, offsets);
    var e, m := TypicalUnskewed(pairs, o, typical);
    if SomeEdgeIsClean(pairs, o) {
      TypicalIsTrueDelay(pairs, o, typical, delay, delay);
    } else {
      assert !Clean(o, e);
    }
  }

  // ----- Uniform delays, whatever the skew -----

  /** With delay d, skewing an edge by this much brings its median closer to nothing than d is. */
  predicate InBetween(o: Skew, e: Edge, delay: real) {
    -2.0 * delay < Relative(o, e) as real < 0.0
  }

  /** Skewing an edge by this much turns its median from d into -d. */
  predicate Mirrors(o: Skew, e: Edge, delay: real) {
    Relative(o, e) as real == -2.0 * delay
  }

  /** Some edge is clean, none comes in between, and the first clean one is met before any that mirrors it. */
  ghost predicate CleanComesFirst(order: seq<Edge>, o: Skew, delay: real) {
    && (forall k :: 0 <= k < |order| ==> !InBetween(o, order[k], delay))
    && exists i :: 0 <= i < |order| && Clean(o, order[i]) && forall k :: 0 <= k < i ==> !Mirrors(o, order[k], delay)
  }

  lemma {:induction false} LeastMagnitudeComesFirst(values: seq<real>) returns (i: nat)
    requires values != []
    ensures i < |values| && values[i] == LeastMagnitude(values)
    ensures forall k :: 0 <= k < |values| ==> Abs(values[i]) <= Abs(values[k])
    ensures forall k :: 0 <= k < i ==> Abs(values[i]) < Abs(values[k])
  {
    var n := |values| - 1;
    if n == 0 {
      i := 0;
    } else {
      i := LeastMagnitudeComesFirst(values[..n]);
      assert forall k :: 0 <= k < n ==> values[..n][k] == values[k];
      if Abs(values[n]) < Abs(values[i]) {
        i := n;
      }
    }
  }

  lemma Magnitudes(delay: real, shift: real)
    requires delay >= 0.0
    ensures Abs(delay + shift) < delay <==> -2.0 * delay < shift < 0.0
    ensures Abs(delay + shift) == delay <==> shift == 0.0 || shift == -2.0 * delay
    ensures delay + shift == delay <==> shift == 0.0
  {
  }

  lemma FirstLeastIsTrueIff(order: seq<Edge>, values: seq<real>, o: Skew, delay: real)
    requires order != [] && |values| == |order| && delay >= 0.0
    requires forall k :: 0 <= k < |order| ==> values[k] == delay + Relative(o, order[k]) as real
    ensures LeastMagnitude(values) == delay <==> CleanComesFirst(order, o, delay)
  {
    var i := LeastMagnitudeComesFirst(values);
    forall k | 0 <= k < |order|
      ensures Abs(values[k]) < delay <==> InBetween(o, order[k], delay)
      ensures Abs(values[k]) == delay <==> Clean(o, order[k]) || Mirrors(o, order[k], delay)
      ensures values[k] == delay <==> Clean(o, order[k])
    {
      Magnitudes(delay, Relative(o, order[k]) as real);
    }
    if LeastMagnitude(values) == delay {
      assert Clean(o, order[i]) && forall k :: 0 <= k < i ==> !Mirrors(o, order[k], delay);
    }
    if CleanComesFirst(order, o, delay) {
      var c :| 0 <= c < |order| && Clean(o, order[c]) && forall k :: 0 <= k < c ==> !Mirrors(o, order[k], delay);
      assert Abs(values[i]) == delay;
    }
  }

  lemma TypicalIsTrueIff(pairs: seq<Pair>, o: Skew, typical: real, delay: real)
    requires pairs != [] && Uniform(pairs, delay) && delay >= 0.0 && typical == TypicalGap(SkewPairs(pairs, o))
    ensures typical == delay <==> CleanComesFirst(EdgeOrder(pairs), o, delay)
  {
    var order := EdgeOrder(pairs);
    EdgeOrderIs(pairs, EdgeOf(pairs[0]));
    GapsOfSkewedPairs(pairs, o, EdgeOf(pairs[0]));
    var values := Medians(SkewPairs(pairs, o), order);
    forall k | 0 <= k < |order|
      ensures values[k] == delay + Relative(o, order[k]) as real
    {
      MedianOfSkewedPairs(pairs, o, order[k]);
    }
    FirstLeastIsTrueIff(order, values, o, delay);
  }

  /** Uniform delays and any skew at all: exactly when the offsets are recovered. */
  lemma RecoveredIffCleanComesFirst(
    pairs: seq<Pair>, o: Skew, typical: real, tree: Tree, delay: real, root: string, offsets: map<string, ServiceOffset>)
    requires pairs != [] && Uniform(pairs, delay) && delay >= 0.0
    requires typical == TypicalGap(SkewPairs(pairs, o)) && tree == TreeOf(SkewPairs(pairs, o), typical)
    requires Estimates(tree, root, offsets)
    ensures Recovers(offsets, o, root) <==> CleanComesFirst(EdgeOrder(pairs), o, delay) || offsets.Keys == {root}
  {
    UniformDelaysRecoveredIff(pairs, o, typical, tree, delay, root, offsets);
    TypicalIsTrueIff(pairs, o, typical, delay);
  }

  // ----- The listing does not matter -----

  lemma {:induction false} GapsConcatenate(a: seq<Pair>, b: seq<Pair>, e: Edge)
    ensures GapsAlong(a + b, e) == GapsAlong(a, e) + GapsAlong(b, e)
  {
    if b == [] {
      assert a + b == a;
    } else {
      GapsConcatenate(a, b[..|b| - 1], e);
      assert (a + b)[..|a + b| - 1] == a + b[..|b| - 1];
    }
  }

  lemma GapsWithout(pairs: seq<Pair>, k: nat, e: Edge)
    requires k < |pairs|
    ensures multiset(GapsAlong(pairs, e)) == multiset(GapsAlong(pairs[..k] + pairs[k + 1..], e)) + multiset(GapsAlong([pairs[k]], e))
  {
    assert pairs == pairs[..k] + [pairs[k]] + pairs[k + 1..];
    GapsConcatenate(pairs[..k] + [pairs[k]], pairs[k + 1..], e);
    GapsConcatenate(pairs[..k], [pairs[k]], e);
    GapsConcatenate(pairs[..k], pairs[k + 1..], e);
  }

  lemma {:induction false} GapsIgnoreOrder(pairs: seq<Pair>, others: seq<Pair>, e: Edge)
    requires multiset(pairs) == multiset(others)
    ensures multiset(GapsAlong(pairs, e)) == multiset(GapsAlong(others, e))
  {
    if pairs == [] {
      assert |multiset(others)| == 0;
    } else {
      var n := |pairs| - 1;
      var k := LastIsSomewhere(pairs, others);
      assert pairs == pairs[..n] + [pairs[n]];
      GapsIgnoreOrder(pairs[..n], others[..k] + others[k + 1..], e);
      GapsConcatenate(pairs[..n], [pairs[n]], e);
      GapsWithout(others, k, e);
    }
  }

  /** Whichever way the calls of the rows are listed, the same edges are seen, with the same median gaps. */
  lemma MediansIgnoreListing(rows: seq<SpanRow>, pairs: seq<Pair>, others: seq<Pair>, e: Edge)
    requires PairsUp(rows, pairs) && PairsUp(rows, others)
    ensures e in EdgeOrder(pairs) <==> e in EdgeOrder(others)
    ensures MedianGap(pairs, e) == MedianGap(others, e)
  {
    assert Distinct(pairs) && Distinct(others);
    assert forall x: Pair :: x in pairs <==> x.0 in rows && x.1 in rows && Calls(x.0, x.1) by {
      assert forall x: Pair :: x == (x.0, x.1);
    }
    DistinctListingsAgree(pairs, others);
    GapsIgnoreOrder(pairs, others, e);
    MedianIgnoresOrder(GapsAlong(pairs, e), GapsAlong(others, e));
    EdgeOrderIs(pairs, e);
    EdgeOrderIs(others, e);
    assert |multiset(GapsAlong(pairs, e))| == |GapsAlong(pairs, e)|;
  }

  // ----- What the estimates of skewed rows are -----

  ghost predicate SomeCallIsClean(rows: seq<SpanRow>, o: Skew) {
    exists p, c :: p in rows && c in rows && Calls(p, c) && o(p.service) == o(c.service)
  }

  /** Clocks that differ across a call differ by more than twice the longest true delay. */
  ghost predicate LoudCalls(rows: seq<SpanRow>, o: Skew, longest: real) {
    forall p, c :: p in rows && c in rows && Calls(p, c) && o(p.service) != o(c.service) ==>
      Abs((o(c.service) - o(p.service)) as real) > 2.0 * longest
  }

  /** The median gap along every edge that the rows show lies between lo and hi. */
  ghost predicate MediansWithin(rows: seq<SpanRow>, lo: real, hi: real) {
    exists pairs :: PairsUp(rows, pairs) && DelaysWithin(pairs, lo, hi)
  }

  lemma {:induction false} EdgeIsOfSomeCall(pairs: seq<Pair>, e: Edge)
    ensures e in EdgeOrder(pairs) <==> exists i :: 0 <= i < |pairs| && EdgeOf(pairs[i]) == e
  {
    if pairs == [] {
    } else {
      var n := |pairs| - 1;
      EdgeIsOfSomeCall(pairs[..n], e);
      if i :| 0 <= i < |pairs| && EdgeOf(pairs[i]) == e {
        assert i == n || EdgeOf(pairs[..n][i]) == e;
      }
    }
  }

  lemma CallOfEdge(rows: seq<SpanRow>, pairs: seq<Pair>, e: Edge)
    requires PairsUp(rows, pairs) && e in EdgeOrder(pairs)
    ensures exists p, c :: p in rows && c in rows && Calls(p, c) && (p.service, c.service) == e
  {
    EdgeIsOfSomeCall(pairs, e);
    var i :| 0 <= i < |pairs| && EdgeOf(pairs[i]) == e;
    assert (pairs[i].0, pairs[i].1) in pairs;
  }

  lemma EdgeOfCall(rows: seq<SpanRow>, pairs: seq<Pair>, p: SpanRow, c: SpanRow)
    requires PairsUp(rows, pairs) && p in rows && c in rows && Calls(p, c)
    ensures (p.service, c.service) in EdgeOrder(pairs)
  {
    assert (p, c) in pairs;
    EdgeIsOfSomeCall(pairs, EdgeOf((p, c)));
  }

  lemma EdgesAreOfCalls(rows: seq<SpanRow>, pairs: seq<Pair>, o: Skew, longest: real)
    requires PairsUp(rows, pairs)
    ensures SomeEdgeIsClean(pairs, o) <==> SomeCallIsClean(rows, o)
    ensures LoudCalls(rows, o, longest) ==> Loud(pairs, o, longest)
  {
    forall e: Edge
      ensures e in EdgeOrder(pairs) ==> exists p, c :: p in rows && c in rows && Calls(p, c) && (p.service, c.service) == e
    {
      if e in EdgeOrder(pairs) {
        CallOfEdge(rows, pairs, e);
      }
    }
    if SomeCallIsClean(rows, o) {
      var p, c :| p in rows && c in rows && Calls(p, c) && o(p.service) == o(c.service);
      EdgeOfCall(rows, pairs, p, c);
      assert Clean(o, (p.service, c.service));
    }
  }

  lemma DelaysOfListing(rows: seq<SpanRow>, pairs: seq<Pair>, lo: real, hi: real)
    requires PairsUp(rows, pairs) && MediansWithin(rows, lo, hi)
    ensures DelaysWithin(pairs, lo, hi)
  {
    var others :| PairsUp(rows, others) && DelaysWithin(others, lo, hi);
    forall e | e in EdgeOrder(pairs)
      ensures lo <= MedianGap(pairs, e) <= hi
    {
      MediansIgnoreListing(rows, pairs, others, e);
    }
  }

  /** The listing, the typical gap and the tree that the estimates of skewed rows come from. */
  ghost predicate EstimatedBy(
    rows: seq<SpanRow>, o: Skew, root: string, offsets: map<string, ServiceOffset>, pairs: seq<Pair>, typical: real, tree: Tree)
  {
    && PairsUp(rows, pairs) && pairs != [] && typical == TypicalGap(SkewPairs(pairs, o))
    && tree == TreeOf(SkewPairs(pairs, o), typical) && Estimates(tree, root, offsets)
  }

  lemma EstimatesComeFromATree(rows: seq<SpanRow>, o: Skew, root: string, offsets: map<string, ServiceOffset>)
    returns (pairs: seq<Pair>, typical: real, tree: Tree)
    requires EstimatesFrom(SkewRows(rows, o), root, offsets) && offsets != map[]
    ensures EstimatedBy(rows, o, root, offsets, pairs, typical, tree)
  {
    var skewed :| PairsUp(SkewRows(rows, o), skewed) && EstimatesFromPairs(skewed, root, offsets);
    pairs := PairsOfSkewedRows(rows, o, skewed);
    typical := TypicalGap(skewed);
    tree := TreeOf(skewed, typical);
  }

  ghost predicate TrueUpToExcess(offsets: map<string, ServiceOffset>, tree: Tree, o: Skew, excess: string -> real, root: string) {
    forall s, d: nat :: s in offsets && Chain(tree, root, s, d) ==>
      Near(offsets[s].offset as real, (o(s) - o(root)) as real + Excess(tree, excess, s, d), 0.5 * d as real)
  }

  lemma EstimatesAreTrueUpToExcess(
    tree: Tree, o: Skew, excess: string -> real, root: string, offsets: map<string, ServiceOffset>)
    requires ShowsSkew(tree, o, excess) && Estimates(tree, root, offsets)
    ensures TrueUpToExcess(offsets, tree, o, excess, root)
  {
    forall s, d: nat | s in offsets && Chain(tree, root, s, d)
      ensures Near(offsets[s].offset as real, (o(s) - o(root)) as real + Excess(tree, excess, s, d), 0.5 * d as real)
    {
      EstimateIsNear(tree, o, excess, root, s, d);
    }
  }

  /** Each estimate made from skewed rows is the true offset plus the excess delays along the service's chain of callers. */
  lemma EstimatesOfSkewedRows(rows: seq<SpanRow>, o: Skew, root: string, offsets: map<string, ServiceOffset>)
    returns (pairs: seq<Pair>, typical: real, tree: Tree, excess: string -> real)
    requires EstimatesFrom(SkewRows(rows, o), root, offsets) && offsets != map[]
    ensures EstimatedBy(rows, o, root, offsets, pairs, typical, tree) && excess == ExcessOf(pairs, typical)
    ensures TrueUpToExcess(offsets, tree, o, excess, root)
  {
    pairs, typical, tree := EstimatesComeFromATree(rows, o, root, offsets);
    excess := ExcessOf(pairs, typical);
    SkewedTreeShowsSkew(pairs, o, typical, tree, excess);
    EstimatesAreTrueUpToExcess(tree, o, excess, root, offsets);
  }

  /** One clean call among loud ones bounds the error of every estimate, by how far the service is from the root. */
  lemma OneCleanCallBoundsTheError(
    rows: seq<SpanRow>, o: Skew, lo: real, spread: real, root: string, offsets: map<string, ServiceOffset>)
    returns (pairs: seq<Pair>, typical: real, tree: Tree)
    requires EstimatesFrom(SkewRows(rows, o), root, offsets) && offsets != map[]
    requires 0.0 <= lo && 0.0 <= spread && MediansWithin(rows, lo, lo + spread)
    requires LoudCalls(rows, o, lo + spread) && SomeCallIsClean(rows, o)
    ensures EstimatedBy(rows, o, root, offsets, pairs, typical, tree)
    ensures OffBy(offsets, tree, o, root, spread + 0.5)
  {
    pairs, typical, tree := EstimatesComeFromATree(rows, o, root, offsets);
    DelaysOfListing(rows, pairs, lo, lo + spread);
    EdgesAreOfCalls(rows, pairs, o, lo + spread);
    OneCleanEdgeBoundsTheError(pairs, o, typical, tree, lo, spread, root, offsets);
  }

  /**
    The estimator, on skewed rows whose calls all typically take the same time: the clocks' true
    offsets from the root's come out if and only if a clean edge comes first in the listing it made,
    or nothing but the root is estimated.
   */
  lemma SkewIsRecoveredIffCleanComesFirst(
    rows: seq<SpanRow>, o: Skew, delay: real, root: string, offsets: map<string, ServiceOffset>) returns (pairs: seq<Pair>)
    requires EstimatesFrom(SkewRows(rows, o), root, offsets) && offsets != map[]
    requires delay >= 0.0 && MediansWithin(rows, delay, delay)
    ensures PairsUp(rows, pairs) && pairs != []
    ensures Recovers(offsets, o, root) <==> CleanComesFirst(EdgeOrder(pairs), o, delay) || offsets.Keys == {root}
  {
    var typical, tree;
    pairs, typical, tree := EstimatesComeFromATree(rows, o, root, offsets);
    DelaysOfListing(rows, pairs, delay, delay);
    assert Uniform(pairs, delay);
    RecoveredIffCleanComesFirst(pairs, o, typical, tree, delay, root, offsets);
  }

  ghost predicate SomeCallIsInBetween(rows: seq<SpanRow>, o: Skew, delay: real) {
    exists p, c :: p in rows && c in rows && Calls(p, c) && InBetween(o, (p.service, c.service), delay)
  }

  /** No edge is exactly the mirror of a clean one, so that no order decides. */
  ghost predicate NoCallMirrors(rows: seq<SpanRow>, o: Skew, delay: real) {
    forall p, c :: p in rows && c in rows && Calls(p, c) && Mirrors(o, (p.service, c.service), delay) ==> o(p.service) == o(c.service)
  }

  lemma CleanComesFirstOfCalls(rows: seq<SpanRow>, pairs: seq<Pair>, o: Skew, delay: real)
    requires PairsUp(rows, pairs) && NoCallMirrors(rows, o, delay)
    ensures CleanComesFirst(EdgeOrder(pairs), o, delay) <==> SomeCallIsClean(rows, o) && !SomeCallIsInBetween(rows, o, delay)
  {
    var order := EdgeOrder(pairs);
    EdgesAreOfCalls(rows, pairs, o, 0.0);
    forall k | 0 <= k < |order|
      ensures exists p, c :: p in rows && c in rows && Calls(p, c) && (p.service, c.service) == order[k]
    {
      CallOfEdge(rows, pairs, order[k]);
    }
    if SomeCallIsInBetween(rows, o, delay) {
      var p, c :| p in rows && c in rows && Calls(p, c) && InBetween(o, (p.service, c.service), delay);
      EdgeOfCall(rows, pairs, p, c);
      var k :| 0 <= k < |order| && order[k] == (p.service, c.service);
      assert InBetween(o, order[k], delay);
    } else if SomeEdgeIsClean(pairs, o) {
      var i := FirstClean(order, o);
    }
  }

  lemma FirstClean(order: seq<Edge>, o: Skew) returns (i: nat)
    requires exists e :: e in order && Clean(o, e)
    ensures i < |order| && Clean(o, order[i]) && forall k :: 0 <= k < i ==> !Clean(o, order[k])
  {
    i := 0;
    while !Clean(o, order[i])
      invariant i < |order| && forall k :: 0 <= k < i ==> !Clean(o, order[k])
      invariant exists e :: e in order[i..] && Clean(o, e)
      decreases |order| - i
    {
      assert order[i..] == [order[i]] + order[i + 1..];
      i := i + 1;
    }
  }

  /**
    So, in terms of the rows: where no edge mirrors another, they come out if and only if some call
    is clean and none comes in between, or nothing but the root is estimated.
   */
  lemma SkewIsRecoveredIff(rows: seq<SpanRow>, o: Skew, delay: real, root: string, offsets: map<string, ServiceOffset>)
    requires EstimatesFrom(SkewRows(rows, o), root, offsets)
    requires delay >= 0.0 && MediansWithin(rows, delay, delay) && NoCallMirrors(rows, o, delay)
    ensures Recovers(offsets, o, root) <==>
              (SomeCallIsClean(rows, o) && !SomeCallIsInBetween(rows, o, delay)) || offsets.Keys <= {root}
  {
    if offsets != map[] {
      var pairs := SkewIsRecoveredIffCleanComesFirst(rows, o, delay, root, offsets);
      CleanComesFirstOfCalls(rows, pairs, o, delay);
    }
  }

  /** Loud skew leaves no room in between: then one clean call is all it takes. */
  lemma SkewIsRecoveredIffSomeCallIsClean(
    rows: seq<SpanRow>, o: Skew, delay: real, root: string, offsets: map<string, ServiceOffset>)
    requires EstimatesFrom(SkewRows(rows, o), root, offsets)
    requires delay >= 0.0 && MediansWithin(rows, delay, delay) && LoudCalls(rows, o, delay)
    ensures Recovers(offsets, o, root) <==> SomeCallIsClean(rows, o) || offsets.Keys <= {root}
  {
    SkewIsRecoveredIff(rows, o, delay, root, offsets);
  }

  // ----- Only relative skew shows -----

  ghost predicate SameTree(tree: Tree, other: Tree) {
    forall s :: other.primary(s) == tree.primary(s) && other.delay(s) == tree.delay(s) && other.calls(s) == tree.calls(s)
  }

  lemma {:induction false} SameChains(tree: Tree, other: Tree, root: string, s: string, d: nat)
    requires SameTree(tree, other)
    ensures Chain(tree, root, s, d) <==> Chain(other, root, s, d)
    ensures OffsetOf(tree, s, d) == OffsetOf(other, s, d)
    decreases d
  {
    if d > 0 && tree.primary(s).Some? {
      SameChains(tree, other, root, tree.primary(s).value, d - 1);
    }
  }

  lemma SameEstimates(tree: Tree, other: Tree, root: string, offsets: map<string, ServiceOffset>)
    requires SameTree(tree, other) && Estimates(tree, root, offsets)
    ensures Estimates(other, root, offsets)
  {
    forall s, d: nat
      ensures Chain(tree, root, s, d) <==> Chain(other, root, s, d)
      ensures OffsetOf(tree, s, d) == OffsetOf(other, s, d)
    {
      SameChains(tree, other, root, s, d);
    }
    forall s
      ensures Chained(tree, root, s) <==> Chained(other, root, s)
    {
      if d: nat :| Chain(tree, root, s, d) {
        assert Chain(other, root, s, d);
      }
      if d: nat :| Chain(other, root, s, d) {
        assert Chain(tree, root, s, d);
      }
    }
  }

  /** Moving every clock by the same amount changes none of the gaps. */
  lemma CommonSkewKeepsGaps(pairs: seq<Pair>, o: Skew, o': Skew, c: int, e: Edge)
    requires forall s :: o'(s) == o(s) + c
    ensures GapsAlong(SkewPairs(pairs, o'), e) == GapsAlong(SkewPairs(pairs, o), e)
    ensures EdgeOrder(SkewPairs(pairs, o')) == EdgeOrder(SkewPairs(pairs, o))
  {
    GapsOfSkewedPairs(pairs, o, e);
    GapsOfSkewedPairs(pairs, o', e);
  }

  /** All that the estimator makes of its pairs is the order of their edges and the gaps along each. */
  ghost predicate SameGaps(pairs: seq<Pair>, others: seq<Pair>) {
    && (pairs == [] <==> others == []) && EdgeOrder(others) == EdgeOrder(pairs)
    && forall e :: GapsAlong(others, e) == GapsAlong(pairs, e)
  }

  lemma {:induction false} SameGapsSameCallers(pairs: seq<Pair>, others: seq<Pair>, edges: seq<Edge>, s: string)
    requires SameGaps(pairs, others)
    ensures Incoming(others, edges, s) == Incoming(pairs, edges, s)
  {
    if edges == [] {
    } else {
      SameGapsSameCallers(pairs, others, edges[..|edges| - 1], s);
    }
  }

  lemma SameGapsSameTree(pairs: seq<Pair>, others: seq<Pair>, typical: real, tree: Tree, other: Tree)
    requires SameGaps(pairs, others) && tree == TreeOf(pairs, typical) && other == TreeOf(others, typical)
    ensures SameTree(tree, other)
  {
    forall s
      ensures other.primary(s) == tree.primary(s) && other.delay(s) == tree.delay(s) && other.calls(s) == tree.calls(s)
    {
      SameGapsSameCallers(pairs, others, EdgeOrder(pairs), s);
      assert PrimaryEdge(others, s) == PrimaryEdge(pairs, s);
    }
  }

  lemma SameGapsSameTypical(pairs: seq<Pair>, others: seq<Pair>)
    requires SameGaps(pairs, others) && pairs != []
    ensures TypicalGap(others) == TypicalGap(pairs)
  {
    var order := EdgeOrder(pairs);
    forall i | 0 <= i < |order|
      ensures MedianGap(others, order[i]) == MedianGap(pairs, order[i])
    {
    }
    assert Medians(others, order) == Medians(pairs, order);
  }

  lemma SameGapsSameEstimates(pairs: seq<Pair>, others: seq<Pair>, root: string, offsets: map<string, ServiceOffset>)
    requires SameGaps(pairs, others) && EstimatesFromPairs(pairs, root, offsets)
    ensures EstimatesFromPairs(others, root, offsets)
  {
    if pairs != [] {
      SameGapsSameTypical(pairs, others);
      var typical := TypicalGap(pairs);
      var tree, other := TreeOf(pairs, typical), TreeOf(others, typical);
      SameGapsSameTree(pairs, others, typical, tree, other);
      SameEstimates(tree, other, root, offsets);
    }
  }

  lemma PairsSkewWithTheirRows(rows: seq<SpanRow>, o: Skew, pairs: seq<Pair>)
    requires PairsUp(rows, pairs)
    ensures PairsUp(SkewRows(rows, o), SkewPairs(pairs, o))
  {
    var back := Undo(o);
    forall i | 0 <= i < |rows|
      ensures SkewRows(SkewRows(rows, o), back)[i] == rows[i]
    {
      SkewedBack(rows[i], o);
    }
    assert SkewRows(SkewRows(rows, o), back) == rows;
    var skewed := PairsOfSkewedRows(SkewRows(rows, o), back, pairs);
    forall i | 0 <= i < |pairs|
      ensures SkewPairs(pairs, o)[i] == skewed[i]
    {
      assert pairs[i] == SkewPairs(skewed, back)[i];
      SkewUndone(skewed[i].0, o);
      SkewUndone(skewed[i].1, o);
    }
    assert SkewPairs(pairs, o) == skewed;
  }

  lemma SkewUndone(r: SpanRow, o: Skew)
    ensures SkewRow(SkewRow(r, Undo(o)), o) == r
  {
    SkewedBack(r, o);
  }

  /** Only differences between clocks show: moving them all by the same amount changes no estimate. */
  lemma CommonSkewIsInvisible(rows: seq<SpanRow>, o: Skew, o': Skew, c: int, root: string, offsets: map<string, ServiceOffset>)
    requires forall s :: o'(s) == o(s) + c
    requires EstimatesFrom(SkewRows(rows, o), root, offsets)
    ensures EstimatesFrom(SkewRows(rows, o'), root, offsets)
  {
    var skewed :| PairsUp(SkewRows(rows, o), skewed) && EstimatesFromPairs(skewed, root, offsets);
    var pairs := PairsOfSkewedRows(rows, o, skewed);
    PairsSkewWithTheirRows(rows, o', pairs);
    CommonSkewSameGaps(pairs, o, o', c);
    SameGapsSameEstimates(skewed, SkewPairs(pairs, o'), root, offsets);
  }

  lemma CommonSkewSameGaps(pairs: seq<Pair>, o: Skew, o': Skew, c: int)
    requires forall s :: o'(s) == o(s) + c
    ensures SameGaps(SkewPairs(pairs, o), SkewPairs(pairs, o'))
  {
    forall e
      ensures GapsAlong(SkewPairs(pairs, o'), e) == GapsAlong(SkewPairs(pairs, o), e)
      ensures EdgeOrder(SkewPairs(pairs, o')) == EdgeOrder(SkewPairs(pairs, o))
    {
      CommonSkewKeepsGaps(pairs, o, o', c, e);
    }
    CommonSkewKeepsGaps(pairs, o, o', c, ("", ""));
  }

  // ----- Violations -----

  /** Under a shared clock, every call runs inside its caller. */
  ghost predicate Causal(rows: seq<SpanRow>) {
    forall p, c :: p in rows && c in rows && Calls(p, c) ==> RunsInside(p, c)
  }

  /** A generated trace is causal, whichever of its spans landed. */
  lemma GeneratedTraceIsCausal(plan: seq<PlannedSpan>, shape: Shape, rows: seq<SpanRow>)
    requires IsTrace(plan, shape) && forall r :: r in rows ==> r in Rows(plan)
    ensures Causal(rows)
  {
    forall p, c | p in rows && c in rows && Calls(p, c)
      ensures RunsInside(p, c)
    {
      var i :| 0 <= i < |plan| && plan[i].row == p;
      var j :| 0 <= j < |plan| && plan[j].row == c;
      ParentIsUp(plan, shape, i, j);
    }
  }

  /** How much slower c's clock may run against p's, and how much faster, before the call looks impossible. */
  predicate Tolerates(o: Skew, p: SpanRow, c: SpanRow) {
    p.start - c.start <= o(c.service) - o(p.service) <= p.end - c.end
  }

  /** Skewed causal rows show a violation exactly where the skew between two ends exceeds the slack between them. */
  lemma NoViolationsIff(rows: seq<SpanRow>, o: Skew, violations: seq<Violation>)
    requires Violations(SkewRows(rows, o), violations)
    ensures violations == [] <==> forall p, c :: p in rows && c in rows && Calls(p, c) ==> Tolerates(o, p, c)
  {
    if violations == [] {
      forall p, c | p in rows && c in rows && Calls(p, c)
        ensures Tolerates(o, p, c)
      {
        SkewedMember(rows, o, p);
        SkewedMember(rows, o, c);
        var p', c' := SkewRow(p, o), SkewRow(c, o);
        var kind := if c'.start < p'.start then StartsBeforeParent else EndsAfterParent;
        assert Violation(p', c', kind) !in violations;
      }
    } else {
      var v := violations[0];
      assert v in violations;
      var p, c := SkewRow(v.parent, Undo(o)), SkewRow(v.child, Undo(o));
      SkewedBack(v.parent, o);
      SkewedBack(v.child, o);
      SkewedMember(rows, o, p);
      SkewedMember(rows, o, c);
      assert !Tolerates(o, p, c);
    }
  }

  /** So an unfaulted trace shows none. */
  lemma GeneratedTraceHasNoViolations(plan: seq<PlannedSpan>, shape: Shape, rows: seq<SpanRow>, violations: seq<Violation>)
    requires IsTrace(plan, shape) && (forall r :: r in rows ==> r in Rows(plan)) && Violations(rows, violations)
    ensures violations == []
  {
    GeneratedTraceIsCausal(plan, shape, rows);
    var o: Skew := _ => 0;
    UnskewedRows(rows, o);
    NoViolationsIff(rows, o, violations);
  }
}
