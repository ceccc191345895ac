/** `analyzer/detectors.py` and `analyzer/baseline.py`: when a window's numbers deviate from the trailing baseline. */
module Detectors {
  import opened Collections
  import opened Statistics
  import opened Grouping

  const MAD_SCALE := 1.4826

  datatype WindowStats = WindowStats(target: TargetKey, callCount: nat, errorCount: nat, p95: real, p99: real)

  datatype Baseline = Baseline(
    callCount: nat, latencyMedian: real, latencyMad: real, errorRate: real, callRateMedian: real, callRateMad: real, ready: bool)

  /** `compute_baseline`. */
  function ComputeBaseline(latencies: seq<real>, errorCount: nat, callCounts: seq<real>, minSamples: nat): (b: Baseline)
    ensures errorCount <= |latencies| ==> 0.0 <= b.errorRate <= 1.0
    ensures b.callCount == |latencies| && (b.ready <==> |latencies| >= minSamples)
  {
    var n := |latencies|;
    RateIsFraction(errorCount, n);
    Baseline(n, Median(latencies), Mad(latencies), if n > 0 then errorCount as real / n as real else 0.0,
             Median(callCounts), Mad(callCounts), n >= minSamples)
  }

  lemma RateIsFraction(k: nat, n: nat)
    ensures 0 < n && k <= n ==> 0.0 <= k as real / n as real <= 1.0
  {
  }

  function RobustZ(value: real, center: real, mad: real): Option<real> {
    if mad <= 0.0 then None else Some((value - center) / (MAD_SCALE * mad))
  }

  function SeverityOf(magnitude: real, threshold: real): Severity {
    if magnitude > 2.0 * threshold then Critical else Warning
  }

  // ----- What each detector decides -----

  /** Observed value, deviation and severity of a window that deviates. */
  datatype Alarm = Alarm(observed: real, deviation: real, severity: Severity)

  function PercentileAlarm(s: WindowStats, b: Baseline, threshold: real): Option<Alarm> {
    if !b.ready then None
    else
      match (RobustZ(s.p99, b.latencyMedian, b.latencyMad), RobustZ(s.p95, b.latencyMedian, b.latencyMad))
      case (Some(z99), Some(z95)) =>
        var (z, observed) := if z95 > z99 then (z95, s.p95) else (z99, s.p99);
        if z > threshold then Some(Alarm(observed, z, SeverityOf(z, threshold))) else None
      case _ => None
  }

  /** The square root the detector divides by. */
  ghost predicate IsSquareRoot(sqrt: real -> real) {
    forall x: real :: x >= 0.0 ==> sqrt(x) >= 0.0 && sqrt(x) * sqrt(x) == x
  }

  function Share(k: nat, n: nat): real
    requires n > 0
  {
    k as real / n as real
  }

  function Pooled(k: nat, n1: nat, rate: real, n2: nat): real
    requires n1 > 0 && n2 > 0
  {
    (k as real + rate * n2 as real) / (n1 + n2) as real
  }

  function Variance(k: nat, n1: nat, rate: real, n2: nat): real
    requires n1 > 0 && n2 > 0
  {
    var pooled := Pooled(k, n1, rate, n2);
    pooled * (1.0 - pooled) * (1.0 / n1 as real + 1.0 / n2 as real)
  }

  /** The pooled two-proportion z-score, if there is any variance to test against. */
  function ZScore(k: nat, n1: nat, rate: real, n2: nat, sqrt: real -> real): Option<real>
    requires n1 > 0 && n2 > 0
  {
    if !(0.0 < Pooled(k, n1, rate, n2) < 1.0) then None
    else
      var denominator := sqrt(Variance(k, n1, rate, n2));
      if denominator <= 0.0 then None else Some((Share(k, n1) - rate) / denominator)
  }

  function ErrorRateAlarm(s: WindowStats, b: Baseline, minSample: nat, threshold: real, sqrt: real -> real): Option<Alarm>
    requires s.callCount > 0 && (b.ready ==> b.callCount > 0)
  {
    if !b.ready || s.callCount < minSample then None
    else
      match ZScore(s.errorCount, s.callCount, b.errorRate, b.callCount, sqrt)
      case Some(z) =>
        if z > threshold then Some(Alarm(Share(s.errorCount, s.callCount), z, SeverityOf(z, threshold))) else None
      case None => None
  }

  /** A target with no stats this window made no calls. */
  function CallRateAlarm(s: Option<WindowStats>, b: Baseline, threshold: real): Option<Alarm> {
    var observed := if s.Some? then s.value.callCount as real else 0.0;
    if !b.ready then None
    else
      match RobustZ(observed, b.callRateMedian, b.callRateMad)
      case Some(z) => if z < -threshold then Some(Alarm(observed, z, SeverityOf(-z, threshold))) else None
      case None =>
        if b.callRateMedian > 0.0 && observed < b.callRateMedian * 0.5
        then Some(Alarm(observed, (observed - b.callRateMedian) / b.callRateMedian, Critical)) else None
  }

  // ----- Products, kept opaque to linear reasoning by `Times` -----

  lemma Positive(a: real, b: real)
    requires a > 0.0 && b > 0.0
    ensures Times(a, b) > 0.0
  {
  }

  lemma NonNegative(a: real, b: real)
    requires a >= 0.0 && b >= 0.0
    ensures Times(a, b) >= 0.0
  {
  }

  lemma Reciprocal(x: real)
    requires x > 0.0
    ensures 1.0 / x > 0.0
  {
  }

  /** Scaling by a positive factor keeps order. */
  lemma ScaledOrder(a: real, b: real, c: real)
    requires c > 0.0
    ensures Times(a, c) > Times(b, c) <==> a > b
  {
    if a > b {
      Positive(a - b, c);
    } else {
      NonNegative(b - a, c);
    }
  }

  lemma ScaledSign(a: real, c: real)
    requires c > 0.0
    ensures Times(a, c) > 0.0 <==> a > 0.0
  {
    ScaledOrder(a, 0.0, c);
  }

  lemma ProductsCompare(a: real, b: real, c: real, d: real)
    requires a >= b >= 0.0 && c >= d >= 0.0
    ensures Times(a, c) >= Times(b, d)
  {
    NonNegative(a - b, c);
    NonNegative(b, c - d);
    assert a * c - b * d == (a - b) * c + b * (c - d);
  }

  /** (ab)(cd) == (ac)(bd) */
  lemma Regroup(a: real, b: real, c: real, d: real)
    ensures Times(Times(a, b), Times(c, d)) == Times(Times(a, c), Times(b, d))
  {
  }

  lemma SquaresCompare(a: real, b: real)
    requires a >= 0.0 && b >= 0.0
    ensures Times(a, a) > Times(b, b) <==> a > b
  {
    if a > b {
      Positive(a - b, a);
      NonNegative(a - b, b);
      assert a * a - b * b == (a - b) * a + (a - b) * b;
    } else {
      ProductsCompare(b, a, b, a);
    }
  }

  // ----- The z-test without its square root -----

  lemma QuotientOrder(a: real, b: real, t: real)
    requires b > 0.0
    ensures a / b > t <==> a > Times(t, b)
  {
    assert Times(a / b, b) == a;
    ScaledOrder(a / b, t, b);
  }

  /** For a non-negative threshold: how far the share lies above the rate, squared, against the scaled variance. */
  lemma QuotientExceedsIff(diff: real, variance: real, root: real, threshold: real)
    requires root > 0.0 && Times(root, root) == variance && threshold >= 0.0
    ensures diff / root > threshold <==> diff > 0.0 && Times(diff, diff) > Times(Times(threshold, threshold), variance)
  {
    QuotientOrder(diff, root, threshold);
    NonNegative(threshold, root);
    if diff > 0.0 {
      SquaresCompare(diff, Times(threshold, root));
      Regroup(threshold, root, threshold, root);
    }
  }

  predicate Exceeds(k: nat, n1: nat, rate: real, n2: nat, threshold: real, sqrt: real -> real)
    requires n1 > 0 && n2 > 0
  {
    var z := ZScore(k, n1, rate, n2, sqrt);
    z.Some? && z.value > threshold
  }

  /** The test in products linear in the error count: above the rate, in range, and far enough. */
  predicate Scaled(k: real, n: real, rate: real, m: real, w: real) {
    var (x, y) := (k - Times(rate, n), k + Times(rate, m));
    var z := n + m - y;
    x > 0.0 && y > 0.0 && z > 0.0 && Times(x, x) > Times(w, Times(y, z))
  }

  /** The weight that the scaled products carry. */
  function Weight(n: real, m: real, threshold: real): real
    requires n > 0.0 && m > 0.0
  {
    var r := n / (n + m);
    Times(Times(Times(threshold, threshold), 1.0 / n + 1.0 / m), Times(r, r))
  }

  function Spread(pooled: real, n: real, m: real): real
    requires n > 0.0 && m > 0.0
  {
    Times(Times(pooled, 1.0 - pooled), 1.0 / n + 1.0 / m)
  }

  lemma WeightScales(n: real, m: real, threshold: real, pooled: real)
    requires n > 0.0 && m > 0.0
    ensures var (y, z) := (Times(pooled, n + m), Times(1.0 - pooled, n + m));
            Times(Weight(n, m, threshold), Times(y, z))
            == Times(Times(Times(threshold, threshold), Spread(pooled, n, m)), Times(n, n))
  {
    var c, big, r := 1.0 / n + 1.0 / m, n + m, n / (n + m);
    var t, p := Times(threshold, threshold), Times(pooled, 1.0 - pooled);
    assert Times(r, big) == n;
    Regroup(pooled, big, 1.0 - pooled, big);
    Regroup(Times(t, c), Times(r, r), p, Times(big, big));
    Regroup(r, r, big, big);
    assert Times(Times(t, c), p) == Times(t, Times(p, c));
  }

  lemma PooledScales(k: nat, n1: nat, rate: real, n2: nat)
    requires n1 > 0 && n2 > 0
    ensures var (n, m, pooled) := (n1 as real, n2 as real, Pooled(k, n1, rate, n2));
            && k as real + Times(rate, m) == Times(pooled, n + m)
            && n + m - (k as real + Times(rate, m)) == Times(1.0 - pooled, n + m)
            && k as real - Times(rate, n) == Times(Share(k, n1) - rate, n)
            && Variance(k, n1, rate, n2) == Spread(pooled, n, m)
  {
  }

  lemma VarianceIsPositive(pooled: real, n: real, m: real)
    requires n > 0.0 && m > 0.0 && 0.0 < pooled < 1.0
    ensures Spread(pooled, n, m) > 0.0
  {
    Positive(pooled, 1.0 - pooled);
    Reciprocal(n);
    Reciprocal(m);
    Positive(Times(pooled, 1.0 - pooled), 1.0 / n + 1.0 / m);
  }

  lemma RootIsPositive(sqrt: real -> real, x: real)
    requires IsSquareRoot(sqrt) && x > 0.0
    ensures sqrt(x) > 0.0 && Times(sqrt(x), sqrt(x)) == x
  {
  }

  lemma InRangeExceedsIffScaled(k: nat, n1: nat, rate: real, n2: nat, threshold: real, sqrt: real -> real)
    requires IsSquareRoot(sqrt) && threshold >= 0.0 && n1 > 0 && n2 > 0
    requires 0.0 < Pooled(k, n1, rate, n2) < 1.0
    ensures var (n, m, diff) := (n1 as real, n2 as real, Share(k, n1) - rate);
            Exceeds(k, n1, rate, n2, threshold, sqrt) <==>
              diff > 0.0 && Times(diff, diff) > Times(Times(threshold, threshold), Spread(Pooled(k, n1, rate, n2), n, m))
  {
    var variance := Variance(k, n1, rate, n2);
    PooledScales(k, n1, rate, n2);
    VarianceIsPositive(Pooled(k, n1, rate, n2), n1 as real, n2 as real);
    RootIsPositive(sqrt, variance);
    QuotientExceedsIff(Share(k, n1) - rate, variance, sqrt(variance), threshold);
  }

  lemma ExceedsIffScaled(k: nat, n1: nat, rate: real, n2: nat, threshold: real, sqrt: real -> real)
    requires IsSquareRoot(sqrt) && threshold >= 0.0 && n1 > 0 && n2 > 0
    ensures var (n, m) := (n1 as real, n2 as real);
            Exceeds(k, n1, rate, n2, threshold, sqrt) <==> Scaled(k as real, n, rate, m, Weight(n, m, threshold))
  {
    var (n, m, pooled, diff) := (n1 as real, n2 as real, Pooled(k, n1, rate, n2), Share(k, n1) - rate);
    PooledScales(k, n1, rate, n2);
    ScaledSign(pooled, n + m);
    ScaledSign(1.0 - pooled, n + m);
    ScaledSign(diff, n);
    WeightScales(n, m, threshold, pooled);
    Regroup(diff, n, diff, n);
    Positive(n, n);
    ScaledOrder(Times(diff, diff), Times(Times(threshold, threshold), Spread(pooled, n, m)), Times(n, n));
    if 0.0 < pooled < 1.0 {
      InRangeExceedsIffScaled(k, n1, rate, n2, threshold, sqrt);
    }
  }

  // ----- More errors never quiet the detector -----

  /** x*x / (y*z) grows if x/y and x/z do. */
  lemma RatioGrows(x1: real, y1: real, z1: real, x2: real, y2: real, z2: real, w: real)
    requires x1 > 0.0 && y1 > 0.0 && z1 > 0.0 && x2 > 0.0 && y2 > 0.0 && z2 > 0.0
    requires Times(x2, y1) >= Times(x1, y2) && Times(x2, z1) >= Times(x1, z2)
    requires Times(x1, x1) > Times(w, Times(y1, z1))
    ensures Times(x2, x2) > Times(w, Times(y2, z2))
  {
    var (a, b, c) := (Times(y1, z1), Times(y2, z2), Times(w, Times(y2, z2)));
    Positive(x1, y2);
    Positive(x1, z2);
    Positive(y2, z2);
    Positive(y1, z1);
    ProductsCompare(Times(x2, y1), Times(x1, y2), Times(x2, z1), Times(x1, z2));
    Regroup(x2, y1, x2, z1);
    Regroup(x1, y2, x1, z2);
    ScaledOrder(Times(x1, x1), Times(w, a), b);
    Swap(w, a, b);
    ScaledOrder(Times(x2, x2), c, a);
  }

  lemma Swap(w: real, a: real, b: real)
    ensures Times(Times(w, a), b) == Times(Times(w, b), a)
  {
  }

  /** Everything the test compares, scaled to be linear in the error count. */
  lemma Linearised(k1: real, k2: real, n: real, m: real, q: real)
    requires 0.0 <= k1 <= k2 <= n && n > 0.0 && m > 0.0 && 0.0 <= q <= 1.0
    ensures var (x1, x2, y1, y2) := (k1 - Times(q, n), k2 - Times(q, n), k1 + Times(q, m), k2 + Times(q, m));
            Times(x2, y1) >= Times(x1, y2) && Times(x2, n + m - y1) >= Times(x1, n + m - y2)
  {
    var (a, b) := (Times(q, n), Times(q, m));
    NonNegative(q, n);
    NonNegative(q, m);
    NonNegative(k2 - k1, a + b);
    CrossProduct(k1, k2, a, b);
    NonNegative(1.0 - q, n + m);
    assert a + b == q * (n + m);
    NonNegative(k2 - k1, n + m - (a + b));
    CrossProduct(k1, k2, a, -(n + m - b));
  }

  lemma CrossProduct(k1: real, k2: real, a: real, b: real)
    ensures Times(k2 - a, k1 + b) - Times(k1 - a, k2 + b) == Times(k2 - k1, a + b)
    ensures Times(k2 - a, -(k1 + b)) - Times(k1 - a, -(k2 + b)) == -Times(k2 - k1, a + b)
  {
  }

  lemma RateBelowOne(rate: real, k: real, n: real, m: real)
    requires n > 0.0 && m > 0.0 && rate <= 1.0 && k - Times(rate, n) > 0.0 && k <= n
    ensures rate < 1.0 && m - Times(rate, m) > 0.0
  {
    ScaledSign(1.0 - rate, m);
  }

  lemma ScaledIsMonotone(k: real, k': real, n: real, rate: real, m: real, w: real)
    requires 0.0 <= k <= k' <= n && n > 0.0 && m > 0.0 && 0.0 <= rate <= 1.0 && Scaled(k, n, rate, m, w)
    ensures Scaled(k', n, rate, m, w)
  {
    Linearised(k, k', n, m, rate);
    RateBelowOne(rate, k, n, m);
    var (x, y) := (k - Times(rate, n), k + Times(rate, m));
    var (x', y') := (k' - Times(rate, n), k' + Times(rate, m));
    RatioGrows(x, y, n + m - y, x', y', n + m - y', w);
  }

  /** With everything else fixed, more errors keep the test firing. */
  lemma ExceedsIsMonotone(k: nat, k': nat, n1: nat, rate: real, n2: nat, threshold: real, sqrt: real -> real)
    requires IsSquareRoot(sqrt) && threshold >= 0.0 && 0.0 <= rate <= 1.0 && n1 > 0 && n2 > 0
    requires k <= k' <= n1 && Exceeds(k, n1, rate, n2, threshold, sqrt)
    ensures Exceeds(k', n1, rate, n2, threshold, sqrt)
  {
    ExceedsIffScaled(k, n1, rate, n2, threshold, sqrt);
    ExceedsIffScaled(k', n1, rate, n2, threshold, sqrt);
    var (n, m) := (n1 as real, n2 as real);
    ScaledIsMonotone(k as real, k' as real, n, rate, m, Weight(n, m, threshold));
  }

  /**
    More errors among the same calls, against the same baseline, never silence the alarm, never
    lower its deviation and never lower its severity.
   */
  lemma MoreErrorsNeverQuiet(
    s: WindowStats, errors: nat, b: Baseline, minSample: nat, threshold: real, sqrt: real -> real)
    requires IsSquareRoot(sqrt) && threshold >= 0.0 && s.callCount > 0 && (b.ready ==> b.callCount > 0)
    requires 0.0 <= b.errorRate <= 1.0 && s.errorCount <= errors <= s.callCount
    requires ErrorRateAlarm(s, b, minSample, threshold, sqrt).Some?
    ensures var alarm := ErrorRateAlarm(s, b, minSample, threshold, sqrt).value;
            var alarm' := ErrorRateAlarm(s.(errorCount := errors), b, minSample, threshold, sqrt);
            && alarm'.Some? && alarm'.value.deviation >= alarm.deviation
            && Rank(alarm'.value.severity) >= Rank(alarm.severity)
  {
    var (n1, n2) := (s.callCount, b.callCount);
    ExceedsIsMonotone(s.errorCount, errors, n1, b.errorRate, n2, threshold, sqrt);
    var z, z' := ZScore(s.errorCount, n1, b.errorRate, n2, sqrt).value, ZScore(errors, n1, b.errorRate, n2, sqrt).value;
    if z' < z {
      ExceedsIsMonotone(s.errorCount, errors, n1, b.errorRate, n2, z', sqrt);
    }
  }

  /** Against ready baselines of `calls` calls, more errors in a large enough sample never silence the alarm. */
  ghost predicate NeverQuieted(calls: nat, minSample: nat, threshold: real, sqrt: real -> real)
    requires calls > 0
  {
    forall s: WindowStats, errors: nat, b: Baseline ::
      && s.callCount > 0 && s.callCount >= minSample && s.errorCount <= errors <= s.callCount
      && b.ready && b.callCount == calls && 0.0 <= b.errorRate <= 1.0
      && ErrorRateAlarm(s, b, minSample, threshold, sqrt).Some? ==>
        ErrorRateAlarm(s.(errorCount := errors), b, minSample, threshold, sqrt).Some?
  }

  /** Against a baseline of failed calls only, n - 1 failures of n lie just below the rate. */
  lemma AlmostAllFailed(n: nat, m: nat, threshold: real, sqrt: real -> real)
    requires IsSquareRoot(sqrt) && threshold < 0.0 && n > 0 && m > 0
    requires Times(Times(threshold, threshold), n as real) > 2.0 * m as real
    ensures Exceeds(n - 1, n, 1.0, m, threshold, sqrt) && !Exceeds(n, n, 1.0, m, threshold, sqrt)
  {
    var x, y := n as real, m as real;
    var p := OneShortOfAll(n, m);
    VarianceIsPositive(p, x, y);
    var variance := Spread(p, x, y);
    RootIsPositive(sqrt, variance);
    InverseSquares(Times(threshold, threshold), variance, p, x, y);
    NegativeQuotient(x, sqrt(variance), threshold);
  }

  lemma NegativeQuotient(x: real, root: real, threshold: real)
    requires x > 0.0 && root > 0.0 && threshold < 0.0
    requires Times(Times(threshold, threshold), Times(root, root)) > Times(1.0 / x, 1.0 / x)
    ensures -(1.0 / x) / root > threshold
  {
    var u := -threshold;
    Reciprocal(x);
    Positive(u, root);
    Regroup(u, root, u, root);
    Negated(threshold, root);
    SquaresCompare(Times(u, root), 1.0 / x);
    QuotientOrder(-(1.0 / x), root, threshold);
  }

  lemma Negated(a: real, b: real)
    ensures Times(-a, -a) == Times(a, a) && Times(-a, b) == -Times(a, b)
  {
  }

  /** The pooled rate, and the variance it leaves, when one call of the sample did not fail. */
  lemma OneShortOfAll(n: nat, m: nat) returns (p: real)
    requires n > 0 && m > 0
    ensures var (x, y) := (n as real, m as real);
            && p == Pooled(n - 1, n, 1.0, m) && 0.5 <= p < 1.0 && Pooled(n, n, 1.0, m) == 1.0
            && Share(n - 1, n) - 1.0 == -(1.0 / x)
            && Variance(n - 1, n, 1.0, m) == Spread(p, x, y) && Times(Spread(p, x, y), Times(x, y)) == p
  {
    var x, y := n as real, m as real;
    p := Pooled(n - 1, n, 1.0, m);
    PooledScales(n - 1, n, 1.0, m);
    assert Times(p, x + y) == x + y - 1.0 && Times(1.0 - p, x + y) == 1.0;
    assert 1.0 / x + 1.0 / y == (x + y) / (x * y);
    assert Times(1.0 / x + 1.0 / y, Times(x, y)) == x + y;
    assert p == 1.0 - 1.0 / (x + y);
  }

  lemma InverseSquares(a: real, variance: real, p: real, x: real, y: real)
    requires x > 0.0 && y > 0.0 && p >= 0.5 && Times(variance, Times(x, y)) == p && Times(a, x) > 2.0 * y
    ensures Times(a, variance) > Times(1.0 / x, 1.0 / x)
  {
    var i := 1.0 / x;
    Positive(x, y);
    Positive(x, Times(x, y));
    ProductsCompare(Times(a, x), Times(a, x), p, 0.5);
    Regroup(a, variance, x, Times(x, y));
    assert Times(i, x) == 1.0;
    assert Times(Times(i, i), Times(x, Times(x, y))) == Times(Times(i, x), Times(Times(i, x), y));
    ScaledOrder(Times(a, variance), Times(i, i), Times(x, Times(x, y)));
  }

  /** Nothing checks that the configured threshold is not negative; exactly then the detector is monotone. */
  lemma NeverQuietedIff(calls: nat, minSample: nat, threshold: real, sqrt: real -> real)
    requires IsSquareRoot(sqrt) && calls > 0
    ensures NeverQuieted(calls, minSample, threshold, sqrt) <==> threshold >= 0.0
  {
    if threshold >= 0.0 {
      forall s: WindowStats, errors: nat, b: Baseline |
        && s.callCount > 0 && s.callCount >= minSample && s.errorCount <= errors <= s.callCount
        && b.ready && b.callCount == calls && 0.0 <= b.errorRate <= 1.0
        && ErrorRateAlarm(s, b, minSample, threshold, sqrt).Some?
        ensures ErrorRateAlarm(s.(errorCount := errors), b, minSample, threshold, sqrt).Some?
      {
        MoreErrorsNeverQuiet(s, errors, b, minSample, threshold, sqrt);
      }
    } else {
      var n := LargeEnough(Times(threshold, threshold), threshold, minSample, 2.0 * calls as real);
      AlmostAllFailed(n, calls, threshold, sqrt);
      ASilencedSample(n, calls, minSample, threshold, sqrt);
    }
  }

  /** The last call of the sample failing too silences the alarm. */
  lemma ASilencedSample(n: nat, calls: nat, minSample: nat, threshold: real, sqrt: real -> real)
    requires calls > 0 && n > 0 && n >= minSample
    requires Exceeds(n - 1, n, 1.0, calls, threshold, sqrt) && !Exceeds(n, n, 1.0, calls, threshold, sqrt)
    ensures !NeverQuieted(calls, minSample, threshold, sqrt)
  {
    var s := WindowStats(TargetKey(Service, "", "s"), n, n - 1, 0.0, 0.0);
    var b := Baseline(calls, 0.0, 0.0, 1.0, 0.0, 0.0, true);
    assert ErrorRateAlarm(s, b, minSample, threshold, sqrt).Some?;
    assert ErrorRateAlarm(s.(errorCount := n), b, minSample, threshold, sqrt).None?;
  }

  lemma LargeEnough(a: real, threshold: real, least: nat, bound: real) returns (n: nat)
    requires a == Times(threshold, threshold) && threshold < 0.0 && bound > 0.0
    ensures n > 0 && n >= least && Times(a, n as real) > bound
  {
    Negated(threshold, threshold);
    Positive(-threshold, -threshold);
    Reciprocal(a);
    n := (bound / a).Floor + 1 + least;
    var x := n as real;
    assert x > bound / a;
    ScaledOrder(x, bound / a, a);
    assert Times(bound / a, a) == bound;
  }

  // ----- The latency detector against a contaminated baseline -----

  /** A deviation beyond the threshold, without the division. */
  lemma RobustZExceedsIff(value: real, center: real, mad: real, threshold: real)
    requires mad > 0.0
    ensures RobustZ(value, center, mad).value > threshold <==> value > center + Times(threshold, MAD_SCALE * mad)
    ensures RobustZ(value, center, mad).value < threshold <==> value < center + Times(threshold, MAD_SCALE * mad)
  {
    QuotientOrder(value - center, MAD_SCALE * mad, threshold);
    QuotientOrder(center - value, MAD_SCALE * mad, -threshold);
    Negated(threshold, MAD_SCALE * mad);
    assert (center - value) / (MAD_SCALE * mad) == -((value - center) / (MAD_SCALE * mad));
  }

  lemma RobustZOrder(a: real, b: real, center: real, mad: real)
    requires mad > 0.0 && a <= b
    ensures RobustZ(a, center, mad).value <= RobustZ(b, center, mad).value
  {
    var z := RobustZ(b, center, mad).value;
    RobustZExceedsIff(b, center, mad, z);
    RobustZExceedsIff(a, center, mad, z);
  }

  /**
    Percentiles of one window are ordered, so taking whichever of p95 and p99 deviates more always
    takes p99: the alarm depends on the tail alone.
   */
  lemma PercentileAlarmIff(s: WindowStats, b: Baseline, threshold: real)
    requires s.p95 <= s.p99
    ensures var alarm := PercentileAlarm(s, b, threshold);
            && (alarm.Some? <==> b.ready && b.latencyMad > 0.0
                                 && s.p99 > b.latencyMedian + Times(threshold, MAD_SCALE * b.latencyMad))
            && (alarm.Some? ==> alarm.value.observed == s.p99)
  {
    if b.latencyMad > 0.0 {
      RobustZOrder(s.p95, s.p99, b.latencyMedian, b.latencyMad);
      RobustZExceedsIff(s.p99, b.latencyMedian, b.latencyMad, threshold);
    }
  }

  /**
    As long as more than half of the lookback's calls took between lo and hi, whatever the others
    took: a tail clearly above hi raises the alarm, and one not above lo does not.
   */
  lemma ContaminatedBaselineStillDetects(
    latencies: seq<real>, errors: nat, callCounts: seq<real>, minSamples: nat, lo: real, hi: real, s: WindowStats, threshold: real)
    requires Majority(latencies, lo, hi) && s.p95 <= s.p99 && threshold >= 0.0
    ensures var b := ComputeBaseline(latencies, errors, callCounts, minSamples);
            var alarm := PercentileAlarm(s, b, threshold);
            && (b.ready && b.latencyMad > 0.0 && s.p99 > hi + Times(threshold, MAD_SCALE * (hi - lo)) ==> alarm.Some?)
            && (s.p99 <= lo ==> alarm.None?)
  {
    var b := ComputeBaseline(latencies, errors, callCounts, minSamples);
    MedianIsInMajority(latencies, lo, hi);
    MadIsWithinMajority(latencies, lo, hi);
    PercentileAlarmIff(s, b, threshold);
    ProductsCompare(threshold, threshold, MAD_SCALE * (hi - lo), MAD_SCALE * b.latencyMad);
    NonNegative(threshold, MAD_SCALE * b.latencyMad);
  }

  // ----- The call-rate detector -----

  /** Fewer calls never silence the alarm either, on a steady baseline or not. */
  lemma FewerCallsNeverQuiet(s: Option<WindowStats>, s': Option<WindowStats>, b: Baseline, threshold: real)
    requires CallRateAlarm(s, b, threshold).Some?
    requires s'.Some? ==> s.Some? && s'.value.callCount <= s.value.callCount
    ensures var alarm, alarm' := CallRateAlarm(s, b, threshold), CallRateAlarm(s', b, threshold);
            && alarm'.Some? && alarm'.value.deviation <= alarm.value.deviation
            && Rank(alarm'.value.severity) >= Rank(alarm.value.severity)
  {
    var x := if s.Some? then s.value.callCount as real else 0.0;
    var x' := if s'.Some? then s'.value.callCount as real else 0.0;
    if b.callRateMad > 0.0 {
      RobustZOrder(x', x, b.callRateMedian, b.callRateMad);
    } else {
      var m := b.callRateMedian;
      var ratio := (x - m) / m;
      assert Times(ratio, m) == x - m;
      QuotientOrder(x' - m, m, ratio);
    }
  }

  // ----- The three loops -----

  function Report(t: TargetKey, alarm: Alarm, detector: string, windowStart: int): Detection {
    Detection(windowStart, t, detector, alarm.severity, alarm.deviation)
  }

  /** The detections raised, in the order of the targets. */
  function Raised(targets: seq<TargetKey>, alarms: seq<Option<Alarm>>, detector: string, windowStart: int): seq<Detection>
    requires |alarms| == |targets|
  {
    if targets == [] then []
    else
      var n := |targets| - 1;
      Raised(targets[..n], alarms[..n], detector, windowStart)
      + if alarms[n].Some? then [Report(targets[n], alarms[n].value, detector, windowStart)] else []
  }

  lemma RaisedUpTo(targets: seq<TargetKey>, alarms: seq<Option<Alarm>>, detector: string, windowStart: int, n: nat)
    requires n < |alarms| == |targets|
    ensures Raised(targets[..n + 1], alarms[..n + 1], detector, windowStart)
         == Raised(targets[..n], alarms[..n], detector, windowStart)
            + if alarms[n].Some? then [Report(targets[n], alarms[n].value, detector, windowStart)] else []
  {
    assert targets[..n + 1][..n] == targets[..n] && alarms[..n + 1][..n] == alarms[..n];
  }

  /** `at` lists the alarmed targets in order, and the detections report one after the other. */
  ghost predicate ReportsAt(
    targets: seq<TargetKey>, alarms: seq<Option<Alarm>>, detector: string, windowStart: int, detections: seq<Detection>, at: seq<int>)
    requires |alarms| == |targets|
  {
    && |at| == |detections|
    && (forall k, l :: 0 <= k < l < |at| ==> at[k] < at[l])
    && (forall i :: i in at <==> 0 <= i < |targets| && alarms[i].Some?)
    && (forall k :: 0 <= k < |at| ==>
          at[k] in at && detections[k] == Report(targets[at[k]], alarms[at[k]].value, detector, windowStart))
  }

  lemma ReportsAtOneMore(
    targets: seq<TargetKey>, alarms: seq<Option<Alarm>>, detector: string, windowStart: int, detections: seq<Detection>, at: seq<int>,
    n: nat)
    requires n + 1 == |targets| == |alarms| && ReportsAt(targets[..n], alarms[..n], detector, windowStart, detections, at)
    ensures alarms[n].None? ==> ReportsAt(targets, alarms, detector, windowStart, detections, at)
    ensures alarms[n].Some? ==>
              ReportsAt(
                targets, alarms, detector, windowStart,
                detections + [Report(targets[n], alarms[n].value, detector, windowStart)], at + [n])
  {
    assert forall i :: 0 <= i < n ==> targets[..n][i] == targets[i] && alarms[..n][i] == alarms[i];
    if alarms[n].Some? {
      assert forall i :: i in at + [n] <==> i in at || i == n;
    }
  }

  /** Exactly the alarmed targets are reported, each once, in their order. */
  lemma {:induction false} RaisedReports(targets: seq<TargetKey>, alarms: seq<Option<Alarm>>, detector: string, windowStart: int)
    returns (at: seq<int>)
    requires |alarms| == |targets|
    ensures ReportsAt(targets, alarms, detector, windowStart, Raised(targets, alarms, detector, windowStart), at)
  {
    if targets == [] {
      at := [];
    } else {
      var n := |targets| - 1;
      at := RaisedReports(targets[..n], alarms[..n], detector, windowStart);
      ReportsAtOneMore(
        targets, alarms, detector, windowStart, Raised(targets[..n], alarms[..n], detector, windowStart), at, n);
      if alarms[n].Some? {
        at := at + [n];
      }
    }
  }

  /** The detections are the reports of the alarmed targets, one each, in the order of the targets. */
  ghost predicate Reports(
    targets: seq<TargetKey>, alarms: seq<Option<Alarm>>, detector: string, windowStart: int, detections: seq<Detection>)
    requires |alarms| == |targets|
  {
    exists at :: ReportsAt(targets, alarms, detector, windowStart, detections, at)
  }

  /** Some alarmed target has this detection for its report. */
  ghost predicate IsReport(targets: seq<TargetKey>, alarms: seq<Option<Alarm>>, detector: string, windowStart: int, d: Detection)
    requires |alarms| == |targets|
  {
    exists i :: 0 <= i < |targets| && alarms[i].Some? && d == Report(targets[i], alarms[i].value, detector, windowStart)
  }

  lemma {:induction false} ReportedIff(
    targets: seq<TargetKey>, alarms: seq<Option<Alarm>>, detector: string, windowStart: int, d: Detection)
    requires |alarms| == |targets|
    ensures d in Raised(targets, alarms, detector, windowStart) <==> IsReport(targets, alarms, detector, windowStart, d)
  {
    if targets == [] {
    } else {
      var n := |targets| - 1;
      ReportedIff(targets[..n], alarms[..n], detector, windowStart, d);
      if IsReport(targets, alarms, detector, windowStart, d) {
        var i :| 0 <= i < |targets| && alarms[i].Some? && d == Report(targets[i], alarms[i].value, detector, windowStart);
        if i < n {
          assert alarms[..n][i] == alarms[i];
        }
      }
    }
  }

  /** Every alarm of the first list is in the second, with at least its rank. */
  ghost predicate NoneQuieted(alarms: seq<Option<Alarm>>, alarms': seq<Option<Alarm>>) {
    && |alarms| == |alarms'|
    && forall i :: 0 <= i < |alarms| && alarms[i].Some? ==>
         alarms'[i].Some? && Rank(alarms'[i].value.severity) >= Rank(alarms[i].value.severity)
  }

  /** Then every detection still is one, of the same target, and no less severe. */
  lemma NoDetectionLost(
    targets: seq<TargetKey>, alarms: seq<Option<Alarm>>, alarms': seq<Option<Alarm>>, detector: string, windowStart: int,
    d: Detection)
    requires |alarms| == |targets| && NoneQuieted(alarms, alarms') && d in Raised(targets, alarms, detector, windowStart)
    ensures StillRaised(Raised(targets, alarms', detector, windowStart), d)
  {
    ReportedIff(targets, alarms, detector, windowStart, d);
    var i :| 0 <= i < |targets| && alarms[i].Some? && d == Report(targets[i], alarms[i].value, detector, windowStart);
    var d' := Report(targets[i], alarms'[i].value, detector, windowStart);
    ReportedIff(targets, alarms', detector, windowStart, d');
  }

  ghost predicate StillRaised(detections: seq<Detection>, d: Detection) {
    exists d' :: d' in detections && d'.target == d.target && Rank(d'.severity) >= Rank(d.severity)
  }

  function TargetsOf(current: seq<WindowStats>): (targets: seq<TargetKey>)
    ensures |targets| == |current|
  {
    seq(|current|, i requires 0 <= i < |current| => current[i].target)
  }

  function PercentileVerdict(s: WindowStats, baselines: map<TargetKey, Baseline>, threshold: real): Option<Alarm> {
    if s.target in baselines then PercentileAlarm(s, baselines[s.target], threshold) else None
  }

  function PercentileVerdicts(current: seq<WindowStats>, baselines: map<TargetKey, Baseline>, threshold: real): (r: seq<Option<Alarm>>)
    ensures |r| == |current|
  {
    seq(|current|, i requires 0 <= i < |current| => PercentileVerdict(current[i], baselines, threshold))
  }

  method DetectPercentileDeviation(
    current: seq<WindowStats>, baselines: map<TargetKey, Baseline>, windowStart: int, threshold: real)
    returns (detections: seq<Detection>)
    ensures detections
         == Raised(TargetsOf(current), PercentileVerdicts(current, baselines, threshold), "percentile_deviation", windowStart)
    ensures Reports(TargetsOf(current), PercentileVerdicts(current, baselines, threshold), "percentile_deviation", windowStart, detections)
  {
    detections := [];
    ghost var targets, alarms := TargetsOf(current), PercentileVerdicts(current, baselines, threshold);
    for i := 0 to |current|
      invariant detections == Raised(targets[..i], alarms[..i], "percentile_deviation", windowStart)
    {
      var s := current[i];
      var alarm := PercentileVerdict(s, baselines, threshold);
      RaisedUpTo(targets, alarms, "percentile_deviation", windowStart, i);
      if alarm.Some? {
        detections := detections
          + [Report(s.target, alarm.value, "percentile_deviation", windowStart)];
      }
    }
    assert targets[..|current|] == targets && alarms[..|current|] == alarms;
    ghost var at := RaisedReports(targets, alarms, "percentile_deviation", windowStart);
  }

  /** Stats and baselines exist only for targets with calls. */
  predicate Observed(s: WindowStats, baselines: map<TargetKey, Baseline>) {
    s.callCount > 0 && (s.target in baselines && baselines[s.target].ready ==> baselines[s.target].callCount > 0)
  }

  function ErrorRateVerdict(
    s: WindowStats, baselines: map<TargetKey, Baseline>, minSample: nat, threshold: real, sqrt: real -> real): Option<Alarm>
    requires Observed(s, baselines)
  {
    if s.target in baselines then ErrorRateAlarm(s, baselines[s.target], minSample, threshold, sqrt) else None
  }

  function ErrorRateVerdicts(
    current: seq<WindowStats>, baselines: map<TargetKey, Baseline>, minSample: nat, threshold: real, sqrt: real -> real)
    : (r: seq<Option<Alarm>>)
    requires forall i :: 0 <= i < |current| ==> Observed(current[i], baselines)
    ensures |r| == |current|
  {
    seq(|current|, i requires 0 <= i < |current| => ErrorRateVerdict(current[i], baselines, minSample, threshold, sqrt))
  }

  method DetectErrorRateChange(
    current: seq<WindowStats>, baselines: map<TargetKey, Baseline>, windowStart: int, minSample: nat, threshold: real,
    sqrt: real -> real)
    returns (detections: seq<Detection>)
    requires forall i :: 0 <= i < |current| ==> Observed(current[i], baselines)
    ensures detections
         == Raised(TargetsOf(current), ErrorRateVerdicts(current, baselines, minSample, threshold, sqrt), "error_rate", windowStart)
    ensures Reports(TargetsOf(current), ErrorRateVerdicts(current, baselines, minSample, threshold, sqrt), "error_rate", windowStart, detections)
  {
    detections := [];
    ghost var targets, alarms := TargetsOf(current), ErrorRateVerdicts(current, baselines, minSample, threshold, sqrt);
    for i := 0 to |current|
      invariant detections == Raised(targets[..i], alarms[..i], "error_rate", windowStart)
    {
      var s := current[i];
      var alarm := ErrorRateVerdict(s, baselines, minSample, threshold, sqrt);
      RaisedUpTo(targets, alarms, "error_rate", windowStart, i);
      if alarm.Some? {
        detections := detections + [Report(s.target, alarm.value, "error_rate", windowStart)];
      }
    }
    assert targets[..|current|] == targets && alarms[..|current|] == alarms;
    ghost var at := RaisedReports(targets, alarms, "error_rate", windowStart);
  }

  /** A target that is absent from `current` made no calls. */
  function CallRateVerdict(
    current: map<TargetKey, WindowStats>, baselines: map<TargetKey, Baseline>, t: TargetKey, threshold: real): Option<Alarm>
  {
    if t !in baselines then None
    else CallRateAlarm(if t in current then Some(current[t]) else None, baselines[t], threshold)
  }

  function CallRateVerdicts(
    current: map<TargetKey, WindowStats>, baselines: map<TargetKey, Baseline>, targets: seq<TargetKey>, threshold: real)
    : (r: seq<Option<Alarm>>)
    ensures |r| == |targets|
  {
    seq(|targets|, i requires 0 <= i < |targets| => CallRateVerdict(current, baselines, targets[i], threshold))
  }

  /** This one walks the baselines (`targets` are their keys, in order), so that a silent target is noticed. */
  method DetectCallRateDrop(
    current: map<TargetKey, WindowStats>, targets: seq<TargetKey>, baselines: map<TargetKey, Baseline>, windowStart: int,
    threshold: real)
    returns (detections: seq<Detection>)
    ensures detections == Raised(targets, CallRateVerdicts(current, baselines, targets, threshold), "call_rate", windowStart)
    ensures Reports(targets, CallRateVerdicts(current, baselines, targets, threshold), "call_rate", windowStart, detections)
  {
    detections := [];
    ghost var alarms := CallRateVerdicts(current, baselines, targets, threshold);
    for i := 0 to |targets|
      invariant detections == Raised(targets[..i], alarms[..i], "call_rate", windowStart)
    {
      var t := targets[i];
      var alarm := CallRateVerdict(current, baselines, t, threshold);
      RaisedUpTo(targets, alarms, "call_rate", windowStart, i);
      if alarm.Some? {
        detections := detections + [Report(t, alarm.value, "call_rate", windowStart)];
      }
    }
    assert targets[..|targets|] == targets && alarms[..|targets|] == alarms;
    ghost var at := RaisedReports(targets, alarms, "call_rate", windowStart);
  }

  // ----- What the lists say -----

  function PercentileDetections(
    current: seq<WindowStats>, baselines: map<TargetKey, Baseline>, windowStart: int, threshold: real): seq<Detection>
  {
    Raised(TargetsOf(current), PercentileVerdicts(current, baselines, threshold), "percentile_deviation", windowStart)
  }

  ghost predicate Detected(detections: seq<Detection>, t: TargetKey) {
    exists d :: d in detections && d.target == t
  }

  lemma DetectedIff(targets: seq<TargetKey>, alarms: seq<Option<Alarm>>, detector: string, windowStart: int, i: nat)
    requires |alarms| == |targets| && Distinct(targets) && i < |targets|
    ensures Detected(Raised(targets, alarms, detector, windowStart), targets[i]) <==> alarms[i].Some?
  {
    if alarms[i].Some? {
      ReportedIff(targets, alarms, detector, windowStart, Report(targets[i], alarms[i].value, detector, windowStart));
    }
    if d :| d in Raised(targets, alarms, detector, windowStart) && d.target == targets[i] {
      ReportedIff(targets, alarms, detector, windowStart, d);
    }
  }

  /** A target is detected for its tail if and only if its p99 is beyond the bound that its baseline sets. */
  lemma PercentileDetectionsAre(
    current: seq<WindowStats>, baselines: map<TargetKey, Baseline>, windowStart: int, threshold: real, i: nat)
    requires i < |current| && current[i].p95 <= current[i].p99 && Distinct(TargetsOf(current))
    ensures Detected(PercentileDetections(current, baselines, windowStart, threshold), current[i].target) <==>
              && current[i].target in baselines
              && var b := baselines[current[i].target];
                 b.ready && b.latencyMad > 0.0 && current[i].p99 > b.latencyMedian + Times(threshold, MAD_SCALE * b.latencyMad)
  {
    var s := current[i];
    DetectedIff(TargetsOf(current), PercentileVerdicts(current, baselines, threshold), "percentile_deviation", windowStart, i);
    if s.target in baselines {
      PercentileAlarmIff(s, baselines[s.target], threshold);
    }
  }

  /** The percentiles of a window's stats are taken from its sorted latencies. */
  ghost predicate MeasuredFrom(s: WindowStats, latencies: seq<real>) {
    && latencies != [] && s.callCount == |latencies|
    && s.p95 == Percentile(Sort(latencies), 95.0) && s.p99 == Percentile(Sort(latencies), 99.0)
  }

  /** So, of a measured window: its 99th percentile alone decides. */
  lemma MeasuredDetectionsAre(
    current: seq<WindowStats>, latencies: seq<real>, baselines: map<TargetKey, Baseline>, windowStart: int, threshold: real, i: nat)
    requires i < |current| && MeasuredFrom(current[i], latencies) && Distinct(TargetsOf(current))
    ensures Detected(PercentileDetections(current, baselines, windowStart, threshold), current[i].target) <==>
              && current[i].target in baselines
              && var b := baselines[current[i].target];
                 && b.ready && b.latencyMad > 0.0
                 && Percentile(Sort(latencies), 99.0) > b.latencyMedian + Times(threshold, MAD_SCALE * b.latencyMad)
  {
    SortSorts(latencies);
    PercentilesAreOrdered(Sort(latencies), 95.0, 99.0);
    PercentileDetectionsAre(current, baselines, windowStart, threshold, i);
  }

  /** The same calls with more errors among them. */
  ghost predicate MoreErrors(current: seq<WindowStats>, current': seq<WindowStats>) {
    && |current| == |current'|
    && forall i :: 0 <= i < |current| ==>
         && current'[i] == current[i].(errorCount := current'[i].errorCount)
         && current[i].errorCount <= current'[i].errorCount <= current[i].callCount
  }

  lemma MoreErrorsQuietNone(
    current: seq<WindowStats>, current': seq<WindowStats>, baselines: map<TargetKey, Baseline>, minSample: nat, threshold: real,
    sqrt: real -> real)
    requires IsSquareRoot(sqrt) && threshold >= 0.0 && MoreErrors(current, current')
    requires forall i :: 0 <= i < |current| ==> Observed(current[i], baselines) && Observed(current'[i], baselines)
    requires forall t :: t in baselines ==> 0.0 <= baselines[t].errorRate <= 1.0
    ensures NoneQuieted(ErrorRateVerdicts(current, baselines, minSample, threshold, sqrt),
                        ErrorRateVerdicts(current', baselines, minSample, threshold, sqrt))
  {
    forall i | 0 <= i < |current| && ErrorRateVerdict(current[i], baselines, minSample, threshold, sqrt).Some?
      ensures ErrorRateVerdict(current'[i], baselines, minSample, threshold, sqrt).Some?
      ensures Rank(ErrorRateVerdict(current'[i], baselines, minSample, threshold, sqrt).value.severity)
           >= Rank(ErrorRateVerdict(current[i], baselines, minSample, threshold, sqrt).value.severity)
    {
      var b := baselines[current[i].target];
      MoreErrorsNeverQuiet(current[i], current'[i].errorCount, b, minSample, threshold, sqrt);
    }
  }

  /** More errors, anywhere, remove no error-rate detection from a window and make none less severe. */
  lemma MoreErrorsLoseNoDetection(
    current: seq<WindowStats>, current': seq<WindowStats>, baselines: map<TargetKey, Baseline>, windowStart: int, minSample: nat,
    threshold: real, sqrt: real -> real, d: Detection)
    requires IsSquareRoot(sqrt) && threshold >= 0.0 && MoreErrors(current, current')
    requires forall i :: 0 <= i < |current| ==> Observed(current[i], baselines) && Observed(current'[i], baselines)
    requires forall t :: t in baselines ==> 0.0 <= baselines[t].errorRate <= 1.0
    requires d in Raised(TargetsOf(current), ErrorRateVerdicts(current, baselines, minSample, threshold, sqrt), "error_rate", windowStart)
    ensures StillRaised(
              Raised(TargetsOf(current'), ErrorRateVerdicts(current', baselines, minSample, threshold, sqrt), "error_rate", windowStart), d)
  {
    var alarms := ErrorRateVerdicts(current, baselines, minSample, threshold, sqrt);
    var alarms' := ErrorRateVerdicts(current', baselines, minSample, threshold, sqrt);
    MoreErrorsQuietNone(current, current', baselines, minSample, threshold, sqrt);
    assert TargetsOf(current) == TargetsOf(current');
    NoDetectionLost(TargetsOf(current), alarms, alarms', "error_rate", windowStart, d);
  }

  /** Each target has no more calls than before, or none at all any more. */
  ghost predicate FewerCalls(current: map<TargetKey, WindowStats>, current': map<TargetKey, WindowStats>) {
    forall t :: t in current' ==> t in current && current'[t].callCount <= current[t].callCount
  }

  lemma FewerCallsQuietNone(
    current: map<TargetKey, WindowStats>, current': map<TargetKey, WindowStats>, targets: seq<TargetKey>,
    baselines: map<TargetKey, Baseline>, threshold: real)
    requires FewerCalls(current, current')
    ensures NoneQuieted(CallRateVerdicts(current, baselines, targets, threshold),
                        CallRateVerdicts(current', baselines, targets, threshold))
  {
    forall t | CallRateVerdict(current, baselines, t, threshold).Some?
      ensures CallRateVerdict(current', baselines, t, threshold).Some?
      ensures Rank(CallRateVerdict(current', baselines, t, threshold).value.severity)
           >= Rank(CallRateVerdict(current, baselines, t, threshold).value.severity)
    {
      FewerCallsNeverQuiet(
        if t in current then Some(current[t]) else None, if t in current' then Some(current'[t]) else None, baselines[t], threshold);
    }
  }

  /** Fewer calls, anywhere, remove no call-rate detection from a window and make none less severe. */
  lemma FewerCallsLoseNoDetection(
    current: map<TargetKey, WindowStats>, current': map<TargetKey, WindowStats>, targets: seq<TargetKey>,
    baselines: map<TargetKey, Baseline>, windowStart: int, threshold: real, d: Detection)
    requires FewerCalls(current, current')
    requires d in Raised(targets, CallRateVerdicts(current, baselines, targets, threshold), "call_rate", windowStart)
    ensures StillRaised(Raised(targets, CallRateVerdicts(current', baselines, targets, threshold), "call_rate", windowStart), d)
  {
    FewerCallsQuietNone(current, current', targets, baselines, threshold);
    NoDetectionLost(
      targets, CallRateVerdicts(current, baselines, targets, threshold), CallRateVerdicts(current', baselines, targets, threshold),
      "call_rate", windowStart, d);
  }
}
