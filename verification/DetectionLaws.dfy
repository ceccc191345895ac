/** `analyzer/detectors.py`: exactly which targets each detector lists, and how severely. */
module DetectionLaws {
  import opened Collections
  import opened Statistics
  import opened Grouping
  import opened Detectors

  /** The list reports the target with this severity. */
  ghost predicate DetectedAs(detections: seq<Detection>, t: TargetKey, severity: Severity) {
    exists d :: d in detections && d.target == t && d.severity == severity
  }

  lemma DetectedAsIff(
    targets: seq<TargetKey>, alarms: seq<Option<Alarm>>, detector: string, windowStart: int, i: nat, severity: Severity)
    requires |alarms| == |targets| && Distinct(targets) && i < |targets|
    ensures DetectedAs(Raised(targets, alarms, detector, windowStart), targets[i], severity) <==>
              alarms[i].Some? && alarms[i].value.severity == severity
  {
    var detections := Raised(targets, alarms, detector, windowStart);
    if alarms[i].Some? {
      ReportedIff(targets, alarms, detector, windowStart, Report(targets[i], alarms[i].value, detector, windowStart));
    }
    if d :| d in detections && d.target == targets[i] && d.severity == severity {
      ReportedIff(targets, alarms, detector, windowStart, d);
    }
  }

  // ----- Baselines -----

  /** Half of the lookback on either side of each median, and half on either side of each deviation. */
  lemma BaselineIs(latencies: seq<real>, errorCount: nat, callCounts: seq<real>, minSamples: nat, b: Baseline)
    requires b == ComputeBaseline(latencies, errorCount, callCounts, minSamples)
    ensures b.callCount == |latencies| && (b.ready <==> |latencies| >= minSamples)
    ensures Splits(latencies, b.latencyMedian) && SplitsAround(latencies, b.latencyMedian, b.latencyMad)
    ensures Splits(callCounts, b.callRateMedian) && SplitsAround(callCounts, b.callRateMedian, b.callRateMad)
  {
    MedianSplits(latencies);
    MadSplits(latencies);
    MedianSplits(callCounts);
    MadSplits(callCounts);
  }

  lemma BaselineErrorRateIs(latencies: seq<real>, errorCount: nat, callCounts: seq<real>, minSamples: nat)
    requires errorCount <= |latencies|
    ensures Times(ComputeBaseline(latencies, errorCount, callCounts, minSamples).errorRate, |latencies| as real) == errorCount as real
  {
    if latencies != [] {
      Proportion(errorCount as real, |latencies| as real);
    }
  }

  // ----- Latency percentiles -----

  /** p99 is this many scaled deviations above the baseline's median. */
  predicate TailBeyond(p99: real, b: Baseline, times: real) {
    p99 > b.latencyMedian + Times(times, MAD_SCALE * b.latencyMad)
  }

  lemma PercentileAlarmIs(s: WindowStats, b: Baseline, threshold: real)
    requires s.p95 <= s.p99 && PercentileAlarm(s, b, threshold).Some?
    ensures var alarm := PercentileAlarm(s, b, threshold).value;
            && alarm.observed == s.p99
            && Times(alarm.deviation, MAD_SCALE * b.latencyMad) == s.p99 - b.latencyMedian
            && (alarm.severity == Critical <==> TailBeyond(s.p99, b, 2.0 * threshold))
  {
    PercentileAlarmIff(s, b, threshold);
    RobustZOrder(s.p95, s.p99, b.latencyMedian, b.latencyMad);
    RobustZExceedsIff(s.p99, b.latencyMedian, b.latencyMad, 2.0 * threshold);
    var spread := MAD_SCALE * b.latencyMad;
    assert Times((s.p99 - b.latencyMedian) / spread, spread) == s.p99 - b.latencyMedian;
  }

  /** A target is listed as critical exactly if it is listed and its p99 is beyond twice the threshold. */
  lemma CriticalTailsAre(current: seq<WindowStats>, baselines: map<TargetKey, Baseline>, windowStart: int, threshold: real, i: nat)
    requires i < |current| && current[i].p95 <= current[i].p99 && Distinct(TargetsOf(current))
    ensures DetectedAs(PercentileDetections(current, baselines, windowStart, threshold), current[i].target, Critical) <==>
              && current[i].target in baselines
              && var b := baselines[current[i].target];
                 && b.ready && b.latencyMad > 0.0 && TailBeyond(current[i].p99, b, threshold)
                 && TailBeyond(current[i].p99, b, 2.0 * threshold)
  {
    var s := current[i];
    DetectedAsIff(
      TargetsOf(current), PercentileVerdicts(current, baselines, threshold), "percentile_deviation", windowStart, i, Critical);
    if s.target in baselines {
      PercentileAlarmIff(s, baselines[s.target], threshold);
      if PercentileAlarm(s, baselines[s.target], threshold).Some? {
        PercentileAlarmIs(s, baselines[s.target], threshold);
      }
    }
  }

  // ----- Error rates -----

  /** The pooled test, without its square root and division: how far errors lie above the baseline's rate. */
  predicate ErrorsBeyond(s: WindowStats, b: Baseline, times: real)
    requires s.callCount > 0 && b.callCount > 0
  {
    var (n, m) := (s.callCount as real, b.callCount as real);
    Scaled(s.errorCount as real, n, b.errorRate, m, Weight(n, m, times))
  }

  lemma ErrorRateAlarmIs(s: WindowStats, b: Baseline, minSample: nat, threshold: real, sqrt: real -> real)
    requires IsSquareRoot(sqrt) && threshold >= 0.0 && s.callCount > 0 && (b.ready ==> b.callCount > 0)
    ensures var alarm := ErrorRateAlarm(s, b, minSample, threshold, sqrt);
            && (alarm.Some? <==> b.ready && s.callCount >= minSample && ErrorsBeyond(s, b, threshold))
            && (alarm.Some? ==>
                  && alarm.value.observed * s.callCount as real == s.errorCount as real
                  && (forall times :: times >= 0.0 ==> (alarm.value.deviation > times <==> ErrorsBeyond(s, b, times)))
                  && (alarm.value.severity == Critical <==> ErrorsBeyond(s, b, 2.0 * threshold)))
  {
    if b.ready {
      forall times | times >= 0.0
        ensures Exceeds(s.errorCount, s.callCount, b.errorRate, b.callCount, times, sqrt) <==> ErrorsBeyond(s, b, times)
      {
        ExceedsIffScaled(s.errorCount, s.callCount, b.errorRate, b.callCount, times, sqrt);
      }
      assert ErrorsBeyond(s, b, threshold) <==>
               Exceeds(s.errorCount, s.callCount, b.errorRate, b.callCount, threshold, sqrt);
      assert ErrorsBeyond(s, b, 2.0 * threshold) <==>
               Exceeds(s.errorCount, s.callCount, b.errorRate, b.callCount, 2.0 * threshold, sqrt);
    }
  }

  function ErrorRateDetections(
    current: seq<WindowStats>, baselines: map<TargetKey, Baseline>, windowStart: int, minSample: nat, threshold: real,
    sqrt: real -> real): seq<Detection>
    requires forall i :: 0 <= i < |current| ==> Observed(current[i], baselines)
  {
    Raised(TargetsOf(current), ErrorRateVerdicts(current, baselines, minSample, threshold, sqrt), "error_rate", windowStart)
  }

  /** Its baseline is ready, the window has calls enough, and its errors are beyond so many deviations. */
  predicate ErrorsStandOut(s: WindowStats, baselines: map<TargetKey, Baseline>, minSample: nat, times: real)
    requires Observed(s, baselines)
  {
    s.target in baselines && baselines[s.target].ready && s.callCount >= minSample && ErrorsBeyond(s, baselines[s.target], times)
  }

  /** Exactly which targets the error-rate list holds, and which of them as critical. */
  lemma ErrorRateDetectionsAre(
    current: seq<WindowStats>, baselines: map<TargetKey, Baseline>, windowStart: int, minSample: nat, threshold: real,
    sqrt: real -> real, i: nat)
    requires IsSquareRoot(sqrt) && threshold >= 0.0 && i < |current| && Distinct(TargetsOf(current))
    requires forall i :: 0 <= i < |current| ==> Observed(current[i], baselines)
    ensures var detections, s := ErrorRateDetections(current, baselines, windowStart, minSample, threshold, sqrt), current[i];
            && (Detected(detections, s.target) <==> ErrorsStandOut(s, baselines, minSample, threshold))
            && (DetectedAs(detections, s.target, Critical) <==>
                  ErrorsStandOut(s, baselines, minSample, threshold) && ErrorsStandOut(s, baselines, minSample, 2.0 * threshold))
  {
    var s := current[i];
    var alarms := ErrorRateVerdicts(current, baselines, minSample, threshold, sqrt);
    DetectedIff(TargetsOf(current), alarms, "error_rate", windowStart, i);
    DetectedAsIff(TargetsOf(current), alarms, "error_rate", windowStart, i, Critical);
    if s.target in baselines {
      ErrorRateAlarmIs(s, baselines[s.target], minSample, threshold, sqrt);
    }
  }

  // ----- Call rates -----

  function CallsOf(current: map<TargetKey, WindowStats>, t: TargetKey): real {
    if t in current then current[t].callCount as real else 0.0
  }

  /** So few calls that they lie this many scaled deviations below the median, or below half of one that never deviates. */
  predicate CallsBelow(calls: real, b: Baseline, times: real) {
    if b.callRateMad > 0.0 then calls < b.callRateMedian - Times(times, MAD_SCALE * b.callRateMad)
    else b.callRateMedian > 0.0 && 2.0 * calls < b.callRateMedian
  }

  lemma CallRateAlarmIs(s: Option<WindowStats>, b: Baseline, threshold: real)
    ensures var alarm, calls := CallRateAlarm(s, b, threshold), if s.Some? then s.value.callCount as real else 0.0;
            && (alarm.Some? <==> b.ready && CallsBelow(calls, b, threshold))
            && (alarm.Some? ==>
                  && alarm.value.observed == calls
                  && Times(alarm.value.deviation, if b.callRateMad > 0.0 then MAD_SCALE * b.callRateMad else b.callRateMedian)
                     == calls - b.callRateMedian
                  && (alarm.value.severity == Critical <==> CallsBelow(calls, b, 2.0 * threshold)))
  {
    var calls := if s.Some? then s.value.callCount as real else 0.0;
    if b.callRateMad > 0.0 {
      var spread := MAD_SCALE * b.callRateMad;
      RobustZExceedsIff(calls, b.callRateMedian, b.callRateMad, -threshold);
      RobustZExceedsIff(calls, b.callRateMedian, b.callRateMad, -2.0 * threshold);
      Negated(threshold, spread);
      Negated(2.0 * threshold, spread);
      assert Times((calls - b.callRateMedian) / spread, spread) == calls - b.callRateMedian;
    } else if b.callRateMedian > 0.0 {
      assert Times((calls - b.callRateMedian) / b.callRateMedian, b.callRateMedian) == calls - b.callRateMedian;
    }
  }

  function CallRateDetections(
    current: map<TargetKey, WindowStats>, targets: seq<TargetKey>, baselines: map<TargetKey, Baseline>, windowStart: int,
    threshold: real): seq<Detection>
  {
    Raised(targets, CallRateVerdicts(current, baselines, targets, threshold), "call_rate", windowStart)
  }

  /** Exactly which targets the call-rate list holds, silent ones included, and which of them as critical. */
  lemma CallRateDetectionsAre(
    current: map<TargetKey, WindowStats>, targets: seq<TargetKey>, baselines: map<TargetKey, Baseline>, windowStart: int,
    threshold: real, i: nat)
    requires i < |targets| && Distinct(targets)
    ensures var detections, t := CallRateDetections(current, targets, baselines, windowStart, threshold), targets[i];
            && (Detected(detections, t) <==>
                  t in baselines && baselines[t].ready && CallsBelow(CallsOf(current, t), baselines[t], threshold))
            && (DetectedAs(detections, t, Critical) <==>
                  && t in baselines && baselines[t].ready && CallsBelow(CallsOf(current, t), baselines[t], threshold)
                  && CallsBelow(CallsOf(current, t), baselines[t], 2.0 * threshold))
  {
    var t := targets[i];
    var alarms := CallRateVerdicts(current, baselines, targets, threshold);
    DetectedIff(targets, alarms, "call_rate", windowStart, i);
    DetectedAsIff(targets, alarms, "call_rate", windowStart, i, Critical);
    if t in baselines {
      CallRateAlarmIs(if t in current then Some(current[t]) else None, baselines[t], threshold);
    }
  }

  // ----- What each detection carries -----

  /** All detections of the target carry this deviation, this window and this detector's name. */
  ghost predicate Carries(detections: seq<Detection>, t: TargetKey, deviation: real, windowStart: int, detector: string) {
    forall d :: d in detections && d.target == t ==>
      d.deviation == deviation && d.windowStart == windowStart && d.detector == detector
  }

  lemma ReportsCarry(
    targets: seq<TargetKey>, alarms: seq<Option<Alarm>>, detector: string, windowStart: int, i: nat)
    requires |alarms| == |targets| && Distinct(targets) && i < |targets| && alarms[i].Some?
    ensures Carries(
              Raised(targets, alarms, detector, windowStart), targets[i], alarms[i].value.deviation, windowStart, detector)
  {
    forall d | d in Raised(targets, alarms, detector, windowStart) && d.target == targets[i]
      ensures d.deviation == alarms[i].value.deviation && d.windowStart == windowStart && d.detector == detector
    {
      ReportedIff(targets, alarms, detector, windowStart, d);
    }
  }

  /** A tail's deviation is how many scaled deviations it lies above the median. */
  lemma TailDeviationIs(
    current: seq<WindowStats>, baselines: map<TargetKey, Baseline>, windowStart: int, threshold: real, i: nat)
    returns (deviation: real)
    requires i < |current| && current[i].p95 <= current[i].p99 && Distinct(TargetsOf(current))
    requires Detected(PercentileDetections(current, baselines, windowStart, threshold), current[i].target)
    ensures Carries(
              PercentileDetections(current, baselines, windowStart, threshold), current[i].target, deviation, windowStart,
              "percentile_deviation")
    ensures current[i].target in baselines
    ensures var b := baselines[current[i].target];
            Times(deviation, MAD_SCALE * b.latencyMad) == current[i].p99 - b.latencyMedian
  {
    var s := current[i];
    var alarms := PercentileVerdicts(current, baselines, threshold);
    DetectedIff(TargetsOf(current), alarms, "percentile_deviation", windowStart, i);
    ReportsCarry(TargetsOf(current), alarms, "percentile_deviation", windowStart, i);
    PercentileAlarmIs(s, baselines[s.target], threshold);
    deviation := alarms[i].value.deviation;
  }

  /** An error rate's deviation exceeds exactly the thresholds that its errors pass. */
  lemma ErrorDeviationIs(
    current: seq<WindowStats>, baselines: map<TargetKey, Baseline>, windowStart: int, minSample: nat, threshold: real,
    sqrt: real -> real, i: nat)
    returns (deviation: real)
    requires IsSquareRoot(sqrt) && threshold >= 0.0 && i < |current| && Distinct(TargetsOf(current))
    requires forall i :: 0 <= i < |current| ==> Observed(current[i], baselines)
    requires Detected(ErrorRateDetections(current, baselines, windowStart, minSample, threshold, sqrt), current[i].target)
    ensures Carries(
              ErrorRateDetections(current, baselines, windowStart, minSample, threshold, sqrt), current[i].target, deviation,
              windowStart, "error_rate")
    ensures forall times :: times >= 0.0 ==> (deviation > times <==> ErrorsStandOut(current[i], baselines, minSample, times))
  {
    var s := current[i];
    var alarms := ErrorRateVerdicts(current, baselines, minSample, threshold, sqrt);
    DetectedIff(TargetsOf(current), alarms, "error_rate", windowStart, i);
    ReportsCarry(TargetsOf(current), alarms, "error_rate", windowStart, i);
    ErrorRateAlarmIs(s, baselines[s.target], minSample, threshold, sqrt);
    deviation := alarms[i].value.deviation;
  }

  /** A call rate's deviation is how many scaled deviations, or medians, it lies away from the median. */
  lemma CallRateDeviationIs(
    current: map<TargetKey, WindowStats>, targets: seq<TargetKey>, baselines: map<TargetKey, Baseline>, windowStart: int,
    threshold: real, i: nat)
    returns (deviation: real)
    requires i < |targets| && Distinct(targets)
    requires Detected(CallRateDetections(current, targets, baselines, windowStart, threshold), targets[i])
    ensures Carries(
              CallRateDetections(current, targets, baselines, windowStart, threshold), targets[i], deviation, windowStart, "call_rate")
    ensures targets[i] in baselines
    ensures var b := baselines[targets[i]];
            Times(deviation, if b.callRateMad > 0.0 then MAD_SCALE * b.callRateMad else b.callRateMedian)
            == CallsOf(current, targets[i]) - b.callRateMedian
  {
    var t := targets[i];
    var alarms := CallRateVerdicts(current, baselines, targets, threshold);
    DetectedIff(targets, alarms, "call_rate", windowStart, i);
    ReportsCarry(targets, alarms, "call_rate", windowStart, i);
    CallRateAlarmIs(if t in current then Some(current[t]) else None, baselines[t], threshold);
    deviation := alarms[i].value.deviation;
  }
}
