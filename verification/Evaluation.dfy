/** `analyzer/eval.py`: `compute_metrics`, the accuracy of a reconstruction against ground truth. */
module Evaluation {
  import opened Collections
  import opened Reassembly
  import opened CallGraph

  /** A ground-truth span: its trace, its id, and its parent's id ("" for a root). */
  datatype TrueSpan = TrueSpan(traceId: string, spanId: string, parent: string)

  type Landed = set<(string, string)>
  type Verdicts = map<(string, string), Label>

  datatype EdgeScore = EdgeScore(truePositive: nat, precision: Option<real>, recall: Option<real>, f1: Option<real>)

  datatype Metrics = Metrics(
    edges: EdgeScore, attachmentTotal: nat, attachmentCorrect: nat, orphanTotal: nat, orphanCorrect: nat)

  /** A landed span with a landed parent. */
  function Attached(landed: Landed): TrueSpan -> bool {
    (g: TrueSpan) => g.parent != "" && (g.traceId, g.spanId) in landed && (g.traceId, g.parent) in landed
  }

  /** A landed span whose parent did not land. */
  function Cut(landed: Landed): TrueSpan -> bool {
    (g: TrueSpan) => g.parent != "" && (g.traceId, g.spanId) in landed && (g.traceId, g.parent) !in landed
  }

  function Judged(landed: Landed, verdicts: Verdicts, p: TrueSpan -> bool, verdict: Label): TrueSpan -> bool {
    (g: TrueSpan) => p(g) && (g.traceId, g.spanId) in verdicts && verdicts[(g.traceId, g.spanId)] == verdict
  }

  ghost predicate Scores(m: Metrics, gt: seq<TrueSpan>, landed: Landed, verdicts: Verdicts) {
    && m.attachmentTotal == Count(gt, Attached(landed))
    && m.attachmentCorrect == Count(gt, Judged(landed, verdicts, Attached(landed), Ok))
    && m.orphanTotal == Count(gt, Cut(landed))
    && m.orphanCorrect == Count(gt, Judged(landed, verdicts, Cut(landed), OrphanMissingParent))
  }

  method ComputeMetrics(gt: seq<TrueSpan>, landed: Landed, verdicts: Verdicts, trueEdges: set<Edge>, foundEdges: set<Edge>)
    returns (m: Metrics)
    ensures Scores(m, gt, landed, verdicts) && m.edges == ScoreEdges(trueEdges, foundEdges)
  {
    m := Metrics(ScoreEdges(trueEdges, foundEdges), 0, 0, 0, 0);
    for i := 0 to |gt|
      invariant Scores(m, gt[..i], landed, verdicts) && m.edges == ScoreEdges(trueEdges, foundEdges)
    {
      var g := gt[i];
      assert gt[..i + 1] == gt[..i] + [g];
      CountOneMore(gt[..i], g, Attached(landed));
      CountOneMore(gt[..i], g, Judged(landed, verdicts, Attached(landed), Ok));
      CountOneMore(gt[..i], g, Cut(landed));
      CountOneMore(gt[..i], g, Judged(landed, verdicts, Cut(landed), OrphanMissingParent));
      if g.parent == "" {
        continue;
      }
      if (g.traceId, g.spanId) !in landed {
        continue;
      }
      var parentLanded := (g.traceId, g.parent) in landed;
      var known := (g.traceId, g.spanId) in verdicts;
      if parentLanded {
        m := m.(attachmentTotal := m.attachmentTotal + 1);
        if known && verdicts[(g.traceId, g.spanId)] == Ok {
          m := m.(attachmentCorrect := m.attachmentCorrect + 1);
        }
      } else {
        m := m.(orphanTotal := m.orphanTotal + 1);
        if known && verdicts[(g.traceId, g.spanId)] == OrphanMissingParent {
          m := m.(orphanCorrect := m.orphanCorrect + 1);
        }
      }
    }
    assert gt[..|gt|] == gt;
  }

  function HarmonicMean(p: real, r: real): real
    requires p + r > 0.0
  {
    2.0 * p * r / (p + r)
  }

  function ScoreEdges(trueEdges: set<Edge>, foundEdges: set<Edge>): EdgeScore {
    if foundEdges == {} && trueEdges == {} then EdgeScore(0, None, None, None)
    else
      var hits := |foundEdges * trueEdges|;
      var precision := if foundEdges != {} then hits as real / |foundEdges| as real else 0.0;
      var recall := if trueEdges != {} then hits as real / |trueEdges| as real else 0.0;
      EdgeScore(hits, Some(precision), Some(recall),
                Some(if precision + recall > 0.0 then HarmonicMean(precision, recall) else 0.0))
  }

  /** Attachment and orphan scores are perfect exactly when every judged span got the right verdict. */
  lemma PerfectIff(m: Metrics, gt: seq<TrueSpan>, landed: Landed, verdicts: Verdicts)
    requires Scores(m, gt, landed, verdicts)
    ensures m.attachmentCorrect == m.attachmentTotal <==>
            forall g :: g in gt && Attached(landed)(g) ==> Judged(landed, verdicts, Attached(landed), Ok)(g)
    ensures m.orphanCorrect == m.orphanTotal <==>
            forall g :: g in gt && Cut(landed)(g) ==> Judged(landed, verdicts, Cut(landed), OrphanMissingParent)(g)
  {
    CountsAgreeIff(gt, Attached(landed), Judged(landed, verdicts, Attached(landed), Ok));
    CountsAgreeIff(gt, Cut(landed), Judged(landed, verdicts, Cut(landed), OrphanMissingParent));
  }

  lemma QuotientIsOneIff(x: real, y: real)
    requires 0.0 <= x <= y && y > 0.0
    ensures 0.0 <= x / y <= 1.0 && (x / y == 1.0 <==> x == y)
  {
    var q := x / y;
    assert q * y == x;
  }

  lemma ProductIsZeroIff(a: real, b: real)
    requires a >= 0.0 && b >= 0.0
    ensures a * b >= 0.0 && (a * b == 0.0 <==> a == 0.0 || b == 0.0)
  {
  }

  lemma HarmonicMeanIsOneIff(p: real, r: real)
    requires 0.0 <= p <= 1.0 && 0.0 <= r <= 1.0 && p + r > 0.0
    ensures var f := HarmonicMean(p, r); 0.0 <= f <= 1.0 && (f == 1.0 <==> p == 1.0 && r == 1.0)
  {
    ProductIsZeroIff(p, r);
    ProductIsZeroIff(p, 1.0 - r);
    ProductIsZeroIff(r, 1.0 - p);
    var x := 2.0 * p * r;
    assert p * (1.0 - r) == p - p * r && r * (1.0 - p) == r - p * r;
    assert x == 2.0 * (p * r);
    QuotientIsOneIff(x, p + r);
  }

  /** The edge scores stay in [0, 1], and F1 reaches 1 exactly when the two graphs are the same. */
  lemma F1IsOneIffSameGraph(trueEdges: set<Edge>, foundEdges: set<Edge>)
    requires trueEdges != {} || foundEdges != {}
    ensures var s := ScoreEdges(trueEdges, foundEdges);
            && s.precision.Some? && s.recall.Some? && s.f1.Some?
            && 0.0 <= s.precision.value <= 1.0 && 0.0 <= s.recall.value <= 1.0 && 0.0 <= s.f1.value <= 1.0
            && (foundEdges != {} ==> (s.precision.value == 1.0 <==> foundEdges <= trueEdges))
            && (trueEdges != {} ==> (s.recall.value == 1.0 <==> trueEdges <= foundEdges))
            && (s.f1.value == 1.0 <==> foundEdges == trueEdges)
  {
    var both := foundEdges * trueEdges;
    var precision := HitRate(both, foundEdges);
    var recall := HitRate(both, trueEdges);
    assert both == foundEdges <==> foundEdges <= trueEdges;
    assert both == trueEdges <==> trueEdges <= foundEdges;
    if precision + recall > 0.0 {
      HarmonicMeanIsOneIff(precision, recall);
    }
  }

  lemma HitRate(both: set<Edge>, edges: set<Edge>) returns (rate: real)
    requires both <= edges
    ensures rate == if edges != {} then |both| as real / |edges| as real else 0.0
    ensures 0.0 <= rate <= 1.0 && (rate == 1.0 <==> both == edges != {})
  {
    SubsetIsSmaller(both, edges);
    rate := 0.0;
    if edges != {} {
      QuotientIsOneIff(|both| as real, |edges| as real);
      rate := |both| as real / |edges| as real;
    }
  }

  lemma HarmonicMeanOfRates(h: real, f: real, t: real, p: real, r: real)
    requires 0.0 < h && 0.0 < f && 0.0 < t && p == h / f && r == h / t
    ensures p + r > 0.0 && HarmonicMean(p, r) == 2.0 * h / (f + t)
  {
    var x, y := 1.0 / f, 1.0 / t;
    InverseIsPositive(f);
    InverseIsPositive(t);
    assert p == h * x && r == h * y;
    ProductIsPositive(h, x);
    ProductIsPositive(h, y);
    SumOfRates(h, f, t, p, r);
    EqualQuotients(2.0 * p * r, p + r, 2.0 * h, f + t);
  }

  lemma InverseIsPositive(f: real)
    requires f > 0.0
    ensures 1.0 / f > 0.0
  {
  }

  lemma ProductIsPositive(a: real, b: real)
    requires a > 0.0 && b > 0.0
    ensures a * b > 0.0
  {
  }

  /** (2pr)(f + t) == (2h)(p + r) */
  lemma SumOfRates(h: real, f: real, t: real, p: real, r: real)
    requires 0.0 < f && 0.0 < t && p == h / f && r == h / t
    ensures (2.0 * p * r) * (f + t) == (2.0 * h) * (p + r)
  {
    assert p * f == h && r * t == h;
    assert (2.0 * p * r) * (f + t) == 2.0 * ((p * f) * r) + 2.0 * (p * (r * t));
  }

  lemma EqualQuotients(a: real, b: real, c: real, d: real)
    requires b > 0.0 && d > 0.0 && a * d == c * b
    ensures a / b == c / d
  {
    var x, y := a / b, c / d;
    assert x * b == a && y * d == c;
    assert x * (b * d) == (x * b) * d == (y * d) * b == y * (b * d);
    ProductIsPositive(b, d);
    assert (x - y) * (b * d) == 0.0;
  }

  lemma NoShare(x: real)
    requires x > 0.0
    ensures 0.0 / x == 0.0
  {
  }

  /** Precision and recall are shares of the hits, and F1 is twice the hits in both graphs' edges together. */
  lemma EdgeScoreIs(trueEdges: set<Edge>, foundEdges: set<Edge>)
    requires trueEdges != {} || foundEdges != {}
    ensures var s, hits := ScoreEdges(trueEdges, foundEdges), |foundEdges * trueEdges|;
            && s.truePositive == hits
            && s.precision == Some(if foundEdges == {} then 0.0 else hits as real / |foundEdges| as real)
            && s.recall == Some(if trueEdges == {} then 0.0 else hits as real / |trueEdges| as real)
            && s.f1 == Some(2.0 * hits as real / (|foundEdges| as real + |trueEdges| as real))
  {
    var both := foundEdges * trueEdges;
    var precision := HitRate(both, foundEdges);
    var recall := HitRate(both, trueEdges);
    assert |foundEdges| + |trueEdges| > 0 by {
      assert foundEdges != {} ==> |foundEdges| > 0;
      assert trueEdges != {} ==> |trueEdges| > 0;
    }
    if both != {} {
      assert |both| > 0;
      var e :| e in both;
      assert foundEdges != {} && trueEdges != {};
      HarmonicMeanOfRates(|both| as real, |foundEdges| as real, |trueEdges| as real, precision, recall);
    } else {
      assert precision == 0.0 && recall == 0.0;
      NoShare(|foundEdges| as real + |trueEdges| as real);
    }
  }
}
