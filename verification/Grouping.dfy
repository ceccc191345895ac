/** `analyzer/suppression.py`: `group_detections`, raw per-window detections collapsed into incidents. */
module Grouping {
  import opened Collections
  import Statistics

  datatype Kind = Service | CallEdge

  datatype TargetKey = TargetKey(kind: Kind, caller: string, callee: string) {
    function Label(): string {
      if kind.Service? then callee else caller + "->" + callee
    }
  }

  datatype Severity = Warning | Critical

  /** Window starts are whole seconds. */
  datatype Detection = Detection(windowStart: int, target: TargetKey, detector: string, severity: Severity, deviation: real)

  type Key = (Kind, string, string)

  /** The parts the source joins into one string. */
  datatype IncidentId = IncidentId(kind: Kind, name: string, detector: string, start: int)

  datatype Incident = Incident(
    id: IncidentId, target: TargetKey, detector: string, start: int, end: int, windowCount: nat,
    peakSeverity: Severity, peakDeviation: real, derived: bool, rootCause: Option<IncidentId>)

  function KeyOf(d: Detection): Key {
    (d.target.kind, d.target.Label(), d.detector)
  }

  /** As long as no caller's name has the arrow's tip in it, one key is one target, service or edge, and one detector. */
  lemma OneKeyOneTarget(d: Detection, e: Detection)
    requires KeyOf(d) == KeyOf(e) && '>' !in d.target.caller && '>' !in e.target.caller
    ensures d.detector == e.detector && d.target.kind == e.target.kind && d.target.callee == e.target.callee
    ensures d.target.kind == CallEdge ==> d.target.caller == e.target.caller
  {
    if d.target.kind == CallEdge {
      LabelsTellEdgesApart(d.target.caller, d.target.callee, e.target.caller, e.target.callee, d.target.Label());
    }
  }

  lemma LabelsTellEdgesApart(caller: string, callee: string, other: string, otherCallee: string, text: string)
    requires '>' !in caller && '>' !in other && text == caller + "->" + callee == other + "->" + otherCallee
    ensures caller == other && callee == otherCallee
  {
    ArrowTip(caller, callee, text);
    ArrowTip(other, otherCallee, text);
    assert |caller| == |other|;
    assert caller == text[..|caller|] && other == text[..|other|];
    assert callee == text[|caller| + 2..] && otherCallee == text[|other| + 2..];
  }

  /** The first tip in a label is the arrow's. */
  lemma ArrowTip(caller: string, callee: string, text: string)
    requires '>' !in caller && text == caller + "->" + callee
    ensures |caller| + 1 < |text| && text[|caller| + 1] == '>' && forall i :: 0 <= i <= |caller| ==> text[i] != '>'
  {
    forall i | 0 <= i < |caller|
      ensures text[i] != '>'
    {
      assert text[i] == caller[i] && caller[i] in caller;
    }
    assert text[|caller|] == '-';
  }

  function OfKey(ds: seq<Detection>, key: Key): seq<Detection> {
    if ds == [] then []
    else
      var last := ds[|ds| - 1];
      OfKey(ds[..|ds| - 1], key) + if KeyOf(last) == key then [last] else []
  }

  // ----- Sorting -----

  predicate Sorted(ds: seq<Detection>) {
    forall i, j :: 0 <= i < j < |ds| ==> ds[i].windowStart <= ds[j].windowStart
  }

  /** d goes after everything that starts no later: the sort is stable. */
  function Insert(ds: seq<Detection>, d: Detection): seq<Detection> {
    if ds == [] || ds[|ds| - 1].windowStart <= d.windowStart then ds + [d]
    else Insert(ds[..|ds| - 1], d) + [ds[|ds| - 1]]
  }

  function SortByStart(ds: seq<Detection>): seq<Detection> {
    if ds == [] then [] else Insert(SortByStart(ds[..|ds| - 1]), ds[|ds| - 1])
  }

  lemma {:induction false} InsertAdds(ds: seq<Detection>, d: Detection)
    ensures multiset(Insert(ds, d)) == multiset(ds) + multiset{d}
  {
    if ds == [] || ds[|ds| - 1].windowStart <= d.windowStart {
    } else {
      InsertAdds(ds[..|ds| - 1], d);
      SplitLast(ds);
    }
  }

  lemma {:induction false} InsertSorts(ds: seq<Detection>, d: Detection)
    requires Sorted(ds)
    ensures Sorted(Insert(ds, d)) && forall x :: x in Insert(ds, d) ==> x in ds || x == d
  {
    if ds == [] || ds[|ds| - 1].windowStart <= d.windowStart {
    } else {
      InsertSorts(ds[..|ds| - 1], d);
      SortedOneMore(Insert(ds[..|ds| - 1], d), ds[|ds| - 1]);
    }
  }

  lemma SortedOneMore(ds: seq<Detection>, last: Detection)
    requires Sorted(ds) && forall x :: x in ds ==> x.windowStart <= last.windowStart
    ensures Sorted(ds + [last])
  {
    forall i | 0 <= i < |ds|
      ensures ds[i].windowStart <= last.windowStart
    {
      assert ds[i] in ds;
    }
  }

  lemma {:induction false} SortIs(ds: seq<Detection>)
    ensures Sorted(SortByStart(ds)) && multiset(SortByStart(ds)) == multiset(ds)
    ensures |SortByStart(ds)| == |ds|
  {
    if ds == [] {
    } else {
      var init, last := ds[..|ds| - 1], ds[|ds| - 1];
      SortIs(init);
      InsertAdds(SortByStart(init), last);
      InsertSorts(SortByStart(init), last);
      assert ds == init + [last];
    }
    assert |multiset(SortByStart(ds))| == |multiset(ds)|;
  }

  // ----- Runs -----

  /** A detection joins the last run if it is close enough to its end, and begins a new one if not. */
  function Grow(runs: seq<seq<Detection>>, d: Detection, window: int): (grown: seq<seq<Detection>>)
    requires forall r :: 0 <= r < |runs| ==> runs[r] != []
    ensures grown != [] && forall r :: 0 <= r < |grown| ==> grown[r] != []
  {
    if runs != [] && d.windowStart - Last(Last(runs)).windowStart <= window then runs[..|runs| - 1] + [Last(runs) + [d]]
    else runs + [[d]]
  }

  /** The loop over one sorted group. */
  function RunsOf(ds: seq<Detection>, window: int): (runs: seq<seq<Detection>>)
    ensures forall r :: 0 <= r < |runs| ==> runs[r] != []
    ensures ds == [] <==> runs == []
  {
    if ds == [] then [] else Grow(RunsOf(ds[..|ds| - 1], window), Last(ds), window)
  }

  predicate Joined(run: seq<Detection>, window: int) {
    forall i :: 0 < i < |run| ==> run[i].windowStart - run[i - 1].windowStart <= window
  }

  /** Maximal runs: the whole list in order, gaps within a run at most `window`, gaps between runs larger. */
  predicate AreRuns(ds: seq<Detection>, window: int, runs: seq<seq<Detection>>) {
    Flatten(runs) == ds && Spaced(runs, window)
  }

  predicate Spaced(runs: seq<seq<Detection>>, window: int) {
    && (forall r :: 0 <= r < |runs| ==> runs[r] != [] && Joined(runs[r], window))
    && (forall r :: 0 < r < |runs| ==> runs[r][0].windowStart - Last(runs[r - 1]).windowStart > window)
  }

  lemma GrowFlattens(runs: seq<seq<Detection>>, d: Detection, window: int)
    requires forall r :: 0 <= r < |runs| ==> runs[r] != []
    ensures Flatten(Grow(runs, d, window)) == Flatten(runs) + [d]
  {
    if runs != [] && d.windowStart - Last(Last(runs)).windowStart <= window {
      var init, last := runs[..|runs| - 1], Last(runs);
      SplitLast(runs);
      JoinFlattens(init, last, d);
    } else {
      FlattenOneMore(runs, [d]);
    }
  }

  lemma JoinFlattens(init: seq<seq<Detection>>, last: seq<Detection>, d: Detection)
    ensures Flatten(init + [last + [d]]) == Flatten(init + [last]) + [d]
  {
    FlattenOneMore(init, last);
    FlattenOneMore(init, last + [d]);
    assert Flatten(init) + (last + [d]) == (Flatten(init) + last) + [d];
  }

  lemma GrowKeepsMaximal(ds: seq<Detection>, window: int, runs: seq<seq<Detection>>, d: Detection)
    requires AreRuns(ds, window, runs)
    ensures AreRuns(ds + [d], window, Grow(runs, d, window))
  {
    GrowFlattens(runs, d, window);
    GrowKeepsGaps(runs, d, window);
  }

  lemma GrowKeepsGaps(runs: seq<seq<Detection>>, d: Detection, window: int)
    requires Spaced(runs, window)
    ensures Spaced(Grow(runs, d, window), window)
  {
    if runs != [] && d.windowStart - Last(Last(runs)).windowStart <= window {
      JoinKeeps(Last(runs), d, window);
    }
  }

  lemma JoinKeeps(run: seq<Detection>, d: Detection, window: int)
    requires run != [] && Joined(run, window) && d.windowStart - Last(run).windowStart <= window
    ensures Joined(run + [d], window)
  {
  }

  lemma {:induction false} RunsAreMaximal(ds: seq<Detection>, window: int)
    ensures AreRuns(ds, window, RunsOf(ds, window))
  {
    if ds == [] {
    } else {
      var init := ds[..|ds| - 1];
      RunsAreMaximal(init, window);
      GrowKeepsMaximal(init, window, RunsOf(init, window), Last(ds));
      assert ds == init + [Last(ds)];
    }
  }

  /** There is only one way to split a list into maximal runs. */
  lemma {:induction false} RunsAreUnique(ds: seq<Detection>, window: int, runs: seq<seq<Detection>>)
    requires AreRuns(ds, window, runs)
    ensures runs == RunsOf(ds, window)
    decreases |ds|
  {
    if runs == [] {
    } else {
      var before := LastStep(ds, window, runs);
      RunsAreUnique(ds[..|ds| - 1], window, before);
    }
  }

  /** Taking the last detection away leaves maximal runs that it would grow into these. */
  lemma LastStep(ds: seq<Detection>, window: int, runs: seq<seq<Detection>>) returns (before: seq<seq<Detection>>)
    requires AreRuns(ds, window, runs) && runs != []
    ensures ds != [] && AreRuns(ds[..|ds| - 1], window, before)
    ensures Grow(before, Last(ds), window) == runs
  {
    var n := |runs| - 1;
    var init, run := runs[..n], runs[n];
    assert runs == init + [run] && ds == Flatten(init) + run;
    if |run| == 1 {
      before := init;
      NewRunStep(ds, window, init, run[0]);
    } else {
      var last := run[|run| - 1];
      before := init + [run[..|run| - 1]];
      assert run == run[..|run| - 1] + [last];
      JoinedRunStep(ds, window, init, run[..|run| - 1], last);
    }
  }

  lemma NewRunStep(ds: seq<Detection>, window: int, init: seq<seq<Detection>>, d: Detection)
    requires ds == Flatten(init) + [d] && Spaced(init + [[d]], window)
    ensures AreRuns(ds[..|ds| - 1], window, init) && Last(ds) == d && Grow(init, d, window) == init + [[d]]
  {
    assert ds[..|ds| - 1] == Flatten(init);
    var runs := init + [[d]];
    assert forall r :: 0 <= r < |init| ==> init[r] == runs[r];
    assert runs[|init|] == [d] && (init != [] ==> runs[|init| - 1] == Last(init));
  }

  lemma JoinedRunStep(ds: seq<Detection>, window: int, init: seq<seq<Detection>>, run: seq<Detection>, d: Detection)
    requires run != [] && ds == Flatten(init) + (run + [d]) && Spaced(init + [run + [d]], window)
    ensures AreRuns(ds[..|ds| - 1], window, init + [run]) && Last(ds) == d && Grow(init + [run], d, window) == init + [run + [d]]
  {
    FlattenOneMore(init, run);
    assert ds[..|ds| - 1] == Flatten(init) + run;
    var runs, before := init + [run + [d]], init + [run];
    assert forall r :: 0 <= r < |init| ==> before[r] == runs[r];
    assert Joined(run + [d], window) by {
      assert runs[|init|] == run + [d];
    }
    assert forall i :: 0 <= i < |run| ==> (run + [d])[i] == run[i];
    assert d.windowStart - Last(run).windowStart <= window by {
      assert (run + [d])[|run|] == d && (run + [d])[|run| - 1] == Last(run);
    }
  }

  // ----- Later detections -----

  /** Each old run is the beginning of the new run in its place; only the last may have grown. */
  predicate Extends(runs: seq<seq<Detection>>, runs': seq<seq<Detection>>) {
    && |runs| <= |runs'|
    && (forall r :: 0 <= r < |runs| ==> runs[r] <= runs'[r])
    && (forall r :: 0 <= r < |runs| - 1 ==> runs[r] == runs'[r])
  }

  lemma GrowExtends(runs: seq<seq<Detection>>, runs': seq<seq<Detection>>, d: Detection, window: int)
    requires forall r :: 0 <= r < |runs'| ==> runs'[r] != []
    requires Extends(runs, runs')
    ensures Extends(runs, Grow(runs', d, window))
  {
  }

  lemma {:induction false} LaterDetectionsExtend(ds: seq<Detection>, more: seq<Detection>, window: int)
    ensures Extends(RunsOf(ds, window), RunsOf(ds + more, window))
  {
    if more == [] {
      assert ds + more == ds;
    } else {
      var init, d := more[..|more| - 1], Last(more);
      LaterDetectionsExtend(ds, init, window);
      GrowExtends(RunsOf(ds, window), RunsOf(ds + init, window), d, window);
      RunsOneMore(ds + init, d, window);
      SplitLast(more);
      assert (ds + init) + [d] == ds + more;
    }
  }

  lemma {:induction false} InsertLater(a: seq<Detection>, b: seq<Detection>, d: Detection)
    requires forall x :: x in a ==> x.windowStart <= d.windowStart
    ensures Insert(a + b, d) == a + Insert(b, d)
  {
    if b == [] {
      assert a + b == a;
      assert a != [] ==> a[|a| - 1] in a;
    } else if b[|b| - 1].windowStart <= d.windowStart {
      assert (a + b) + [d] == a + (b + [d]);
    } else {
      var init := b[..|b| - 1];
      InsertLater(a, init, d);
      assert (a + b)[..|a + b| - 1] == a + init;
    }
  }

  lemma {:induction false} SortLater(ds: seq<Detection>, more: seq<Detection>)
    requires forall x, y :: x in ds && y in more ==> x.windowStart <= y.windowStart
    ensures SortByStart(ds + more) == SortByStart(ds) + SortByStart(more)
  {
    if more == [] {
      assert ds + more == ds;
    } else {
      var init, d := more[..|more| - 1], more[|more| - 1];
      assert (ds + more)[..|ds + more| - 1] == ds + init && Last(ds + more) == d;
      assert forall y :: y in init ==> y in more;
      SortLater(ds, init);
      SortedMembers(ds, d);
      InsertLater(SortByStart(ds), SortByStart(init), d);
    }
  }

  lemma SortedMembers(ds: seq<Detection>, d: Detection)
    requires forall x :: x in ds ==> x.windowStart <= d.windowStart
    ensures forall x :: x in SortByStart(ds) ==> x.windowStart <= d.windowStart
  {
    SortIs(ds);
    forall x | x in SortByStart(ds)
      ensures x in ds
    {
      assert x in multiset(SortByStart(ds));
    }
  }

  lemma {:induction false} OfKeyConcat(ds: seq<Detection>, more: seq<Detection>, key: Key)
    ensures OfKey(ds + more, key) == OfKey(ds, key) + OfKey(more, key)
  {
    if more == [] {
      assert ds + more == ds;
    } else {
      OfKeyConcat(ds, more[..|more| - 1], key);
      assert (ds + more)[..|ds + more| - 1] == ds + more[..|more| - 1];
    }
  }

  lemma {:induction false} OfKeyAre(ds: seq<Detection>, key: Key, d: Detection)
    ensures d in OfKey(ds, key) <==> d in ds && KeyOf(d) == key
  {
    if ds == [] {
    } else {
      OfKeyAre(ds[..|ds| - 1], key, d);
      assert ds == ds[..|ds| - 1] + [ds[|ds| - 1]];
    }
  }

  // ----- Incidents -----

  function Rank(s: Severity): int {
    if s.Warning? then 1 else 2
  }

  /** a counts for more than b: higher severity, then larger deviation either way. */
  predicate Outranks(a: Detection, b: Detection) {
    Rank(a.severity) > Rank(b.severity) || (a.severity == b.severity && Statistics.Abs(a.deviation) > Statistics.Abs(b.deviation))
  }

  /** The first of the detections nothing outranks, as `max` picks it. */
  function Peak(run: seq<Detection>): Detection
    requires run != []
  {
    if |run| == 1 then run[0]
    else
      var best := Peak(run[..|run| - 1]);
      if Outranks(Last(run), best) then Last(run) else best
  }

  lemma {:induction false} PeakIs(run: seq<Detection>)
    requires run != []
    ensures Peak(run) in run && forall d :: d in run ==> !Outranks(d, Peak(run))
  {
    SplitLast(run);
    if |run| > 1 {
      var init, last := run[..|run| - 1], Last(run);
      PeakIs(init);
      forall d | d in init
        ensures !Outranks(d, Peak(run))
      {
        OutranksIsTransitive(d, last, Peak(init));
      }
    }
  }

  lemma OutranksIsTransitive(a: Detection, b: Detection, c: Detection)
    ensures Outranks(a, b) && Outranks(b, c) ==> Outranks(a, c)
    ensures !Outranks(b, b)
  {
  }

  function BuildIncident(detector: string, run: seq<Detection>): Incident
    requires run != []
  {
    var peak, first := Peak(run), run[0];
    Incident(
      IncidentId(first.target.kind, first.target.Label(), detector, first.windowStart),
      first.target, detector, first.windowStart, Last(run).windowStart, |run|,
      peak.severity, peak.deviation, false, None)
  }

  /** One incident per maximal run of the key's sorted detections. */
  function IncidentsOf(ds: seq<Detection>, key: Key, window: int): (incidents: seq<Incident>)
    ensures |incidents| == |RunsOf(SortByStart(OfKey(ds, key)), window)|
  {
    IncidentsFor(RunsOf(SortByStart(OfKey(ds, key)), window), key.2)
  }

  function IncidentsFor(runs: seq<seq<Detection>>, detector: string): (incidents: seq<Incident>)
    requires forall r :: 0 <= r < |runs| ==> runs[r] != []
    ensures |incidents| == |runs|
  {
    seq(|runs|, r requires 0 <= r < |runs| => BuildIncident(detector, runs[r]))
  }

  function IncidentsOfAll(ds: seq<Detection>, keys: seq<Key>, window: int): seq<Incident> {
    if keys == [] then [] else IncidentsOfAll(ds, keys[..|keys| - 1], window) + IncidentsOf(ds, Last(keys), window)
  }

  ghost predicate ListsKeys(ds: seq<Detection>, keys: seq<Key>) {
    Distinct(keys) && forall k :: k in keys <==> exists d :: d in ds && KeyOf(d) == k
  }

  lemma OfKeyOneMore(ds: seq<Detection>, d: Detection, key: Key)
    ensures OfKey(ds + [d], key) == OfKey(ds, key) + if KeyOf(d) == key then [d] else []
  {
    assert (ds + [d])[..|ds|] == ds;
  }

  ghost predicate Indexed(ds: seq<Detection>, keys: seq<Key>, byKey: map<Key, seq<Detection>>) {
    && Distinct(keys) && (forall k :: k in keys <==> k in byKey)
    && (forall k :: k in byKey ==> byKey[k] == OfKey(ds, k) && byKey[k] != [])
    && (forall k :: k !in byKey ==> OfKey(ds, k) == [])
  }

  lemma IndexedOneMore(ds: seq<Detection>, keys: seq<Key>, byKey: map<Key, seq<Detection>>, d: Detection)
    requires Indexed(ds, keys, byKey)
    ensures KeyOf(d) in byKey ==> Indexed(ds + [d], keys, byKey[KeyOf(d) := byKey[KeyOf(d)] + [d]])
    ensures KeyOf(d) !in byKey ==> Indexed(ds + [d], keys + [KeyOf(d)], byKey[KeyOf(d) := [d]])
  {
    forall k
      ensures OfKey(ds + [d], k) == OfKey(ds, k) + if KeyOf(d) == k then [d] else []
    {
      OfKeyOneMore(ds, d, k);
    }
    var key := KeyOf(d);
    var byKey' := byKey[key := (if key in byKey then byKey[key] else []) + [d]];
    forall k
      ensures if k in byKey' then byKey'[k] == OfKey(ds + [d], k) && byKey'[k] != [] else OfKey(ds + [d], k) == []
    {
      assert k != key ==> OfKey(ds + [d], k) == OfKey(ds, k);
    }
  }

  lemma IndexedListsKeys(ds: seq<Detection>, keys: seq<Key>, byKey: map<Key, seq<Detection>>)
    requires Indexed(ds, keys, byKey)
    ensures ListsKeys(ds, keys)
  {
    forall k | k in keys
      ensures exists d :: d in ds && KeyOf(d) == k
    {
      OfKeyAre(ds, k, byKey[k][0]);
    }
    forall d | d in ds
      ensures KeyOf(d) in keys
    {
      OfKeyAre(ds, KeyOf(d), d);
    }
  }

  method IndexByKey(ds: seq<Detection>) returns (keys: seq<Key>, byKey: map<Key, seq<Detection>>)
    ensures Indexed(ds, keys, byKey)
  {
    var order: seq<Key>, groups: map<Key, seq<Detection>> := [], map[];
    ghost var seen := [];
    for i := 0 to |ds|
      invariant seen == ds[..i] && Indexed(seen, order, groups)
    {
      var d := ds[i];
      var key := KeyOf(d);
      IndexedOneMore(seen, order, groups, d);
      seen := seen + [d];
      if key in groups {
        groups := groups[key := groups[key] + [d]];
      } else {
        order, groups := order + [key], groups[key := [d]];
      }
    }
    assert seen == ds;
    return order, groups;
  }

  method GroupDetections(ds: seq<Detection>, window: int) returns (incidents: seq<Incident>)
    ensures exists keys :: ListsKeys(ds, keys) && incidents == IncidentsOfAll(ds, keys, window)
  {
    var order, byKey := IndexByKey(ds);
    IndexedListsKeys(ds, order, byKey);
    incidents := [];
    for i := 0 to |order|
      invariant incidents == IncidentsOfAll(ds, order[..i], window)
    {
      assert order[..i + 1][..i] == order[..i] && order[i] in order;
      var more := GroupOne(byKey[order[i]], order[i], window);
      incidents := incidents + more;
    }
    assert order[..|order|] == order;
  }

  /** The inner loop: the current run grows, or is closed and a new one begun. */
  method GroupOne(group: seq<Detection>, key: Key, window: int) returns (incidents: seq<Incident>)
    ensures incidents == IncidentsFor(RunsOf(SortByStart(group), window), key.2)
  {
    incidents := GroupSorted(SortByStart(group), key, window);
  }

  method GroupSorted(sorted: seq<Detection>, key: Key, window: int) returns (incidents: seq<Incident>)
    ensures incidents == IncidentsFor(RunsOf(sorted, window), key.2)
  {
    if sorted == [] {
      return [];
    }
    var run := [sorted[0]];
    var closed: seq<Incident> := [];
    ghost var seen, runs := [sorted[0]], [[sorted[0]]];
    RunsStart(sorted, window);
    for i := 1 to |sorted|
      invariant seen == sorted[..i]
      invariant runs == RunsOf(seen, window)
      invariant ClosedRuns(runs, run, closed, key)
    {
      var d := sorted[i];
      GrowClosesRuns(runs, run, closed, key, d, window);
      RunsOneMore(seen, d, window);
      seen, runs := seen + [d], Grow(runs, d, window);
      if d.windowStart - Last(run).windowStart <= window {
        run := run + [d];
      } else {
        closed := closed + [BuildIncident(key.2, run)];
        run := [d];
      }
    }
    assert seen == sorted;
    LastRunCloses(runs, run, closed, key);
    return closed + [BuildIncident(key.2, run)];
  }

  lemma LastRunCloses(runs: seq<seq<Detection>>, run: seq<Detection>, incidents: seq<Incident>, key: Key)
    requires ClosedRuns(runs, run, incidents, key)
    ensures incidents + [BuildIncident(key.2, run)] == IncidentsFor(runs, key.2)
  {
  }

  lemma GrowClosesRuns(
    runs: seq<seq<Detection>>, run: seq<Detection>, incidents: seq<Incident>, key: Key, d: Detection, window: int)
    requires ClosedRuns(runs, run, incidents, key)
    ensures if d.windowStart - Last(run).windowStart <= window
            then ClosedRuns(Grow(runs, d, window), run + [d], incidents, key)
            else ClosedRuns(Grow(runs, d, window), [d], incidents + [BuildIncident(key.2, run)], key)
  {
    var init := runs[..|runs| - 1];
    var grown := Grow(runs, d, window);
    if d.windowStart - Last(run).windowStart <= window {
      assert grown[..|grown| - 1] == init;
    } else {
      assert grown[..|grown| - 1] == runs;
    }
  }

  /** All runs but the last are incidents already, and the last is still open. */
  predicate ClosedRuns(runs: seq<seq<Detection>>, run: seq<Detection>, incidents: seq<Incident>, key: Key) {
    && runs != [] && (forall r :: 0 <= r < |runs| ==> runs[r] != [])
    && run == Last(runs) && incidents == IncidentsFor(runs[..|runs| - 1], key.2)
  }

  lemma RunsStart(ds: seq<Detection>, window: int)
    requires ds != []
    ensures RunsOf([ds[0]], window) == [[ds[0]]]
  {
    assert [ds[0]][..0] == [];
    assert RunsOf([], window) == [];
  }

  lemma RunsOneMore(ds: seq<Detection>, d: Detection, window: int)
    ensures RunsOf(ds + [d], window) == Grow(RunsOf(ds, window), d, window)
  {
    assert (ds + [d])[..|ds|] == ds;
  }

  // ----- Nothing is lost or counted twice -----

  function WindowTotal(incidents: seq<Incident>): nat {
    if incidents == [] then 0 else WindowTotal(incidents[..|incidents| - 1]) + Last(incidents).windowCount
  }

  lemma {:induction false} WindowTotalConcat(a: seq<Incident>, b: seq<Incident>)
    ensures WindowTotal(a + b) == WindowTotal(a) + WindowTotal(b)
  {
    if b == [] {
      assert a + b == a;
    } else {
      WindowTotalConcat(a, b[..|b| - 1]);
      assert (a + b)[..|a + b| - 1] == a + b[..|b| - 1];
    }
  }

  lemma {:induction false} RunsTotal(runs: seq<seq<Detection>>, detector: string)
    requires forall r :: 0 <= r < |runs| ==> runs[r] != []
    ensures WindowTotal(IncidentsFor(runs, detector)) == |Flatten(runs)|
  {
    if runs == [] {
    } else {
      var init := runs[..|runs| - 1];
      RunsTotal(init, detector);
      var incidents := IncidentsFor(runs, detector);
      assert incidents[..|incidents| - 1] == IncidentsFor(init, detector);
    }
  }

  function KeyTotal(ds: seq<Detection>, keys: seq<Key>): nat {
    if keys == [] then 0 else KeyTotal(ds, keys[..|keys| - 1]) + |OfKey(ds, Last(keys))|
  }

  lemma {:induction false} KeyTotalOneMore(ds: seq<Detection>, d: Detection, keys: seq<Key>)
    requires Distinct(keys)
    ensures KeyTotal(ds + [d], keys) == KeyTotal(ds, keys) + if KeyOf(d) in keys then 1 else 0
  {
    if keys == [] {
    } else {
      var init, last := keys[..|keys| - 1], Last(keys);
      KeyTotalOneMore(ds, d, init);
      OfKeyOneMore(ds, d, last);
      SplitLast(keys);
    }
  }

  lemma {:induction false} KeyTotalEmpty(keys: seq<Key>)
    ensures KeyTotal([], keys) == 0
  {
    if keys == [] {
    } else {
      KeyTotalEmpty(keys[..|keys| - 1]);
    }
  }

  lemma {:induction false} KeyTotalIs(ds: seq<Detection>, keys: seq<Key>)
    requires Distinct(keys) && forall d :: d in ds ==> KeyOf(d) in keys
    ensures KeyTotal(ds, keys) == |ds|
  {
    if ds == [] {
      KeyTotalEmpty(keys);
    } else {
      var init, last := ds[..|ds| - 1], Last(ds);
      SplitLast(ds);
      KeyTotalIs(init, keys);
      KeyTotalOneMore(init, last, keys);
    }
  }

  lemma IncidentsTotal(ds: seq<Detection>, key: Key, window: int)
    ensures WindowTotal(IncidentsOf(ds, key, window)) == |OfKey(ds, key)|
  {
    var sorted := SortByStart(OfKey(ds, key));
    SortIs(OfKey(ds, key));
    RunsAreMaximal(sorted, window);
    RunsTotal(RunsOf(sorted, window), key.2);
  }

  lemma {:induction false} AllIncidentsTotal(ds: seq<Detection>, keys: seq<Key>, window: int)
    ensures WindowTotal(IncidentsOfAll(ds, keys, window)) == KeyTotal(ds, keys)
  {
    if keys == [] {
    } else {
      AllIncidentsTotal(ds, keys[..|keys| - 1], window);
      IncidentsTotal(ds, Last(keys), window);
      WindowTotalConcat(IncidentsOfAll(ds, keys[..|keys| - 1], window), IncidentsOf(ds, Last(keys), window));
    }
  }

  /** The window counts of all incidents add up to the detections that went in. */
  lemma WindowCountsConserveDetections(ds: seq<Detection>, keys: seq<Key>, window: int)
    requires ListsKeys(ds, keys)
    ensures WindowTotal(IncidentsOfAll(ds, keys, window)) == |ds|
  {
    AllIncidentsTotal(ds, keys, window);
    KeyTotalIs(ds, keys);
  }

  // ----- What an incident says of its run -----

  /** Its span, its count, its peak and its identity, as the run has them. */
  ghost predicate Summarises(i: Incident, run: seq<Detection>, key: Key) {
    && run != [] && i.windowCount == |run|
    && (forall d :: d in run ==> KeyOf(d) == key && i.start <= d.windowStart <= i.end)
    && (exists d :: d in run && d.windowStart == i.start) && (exists d :: d in run && d.windowStart == i.end)
    && (exists d :: d in run && i.peakSeverity == d.severity && i.peakDeviation == d.deviation)
    && (forall d :: d in run ==> d.severity == Critical ==> i.peakSeverity == Critical)
    && (forall d :: d in run && d.severity == i.peakSeverity ==> Statistics.Abs(d.deviation) <= Statistics.Abs(i.peakDeviation))
    && i.id == IncidentId(key.0, key.1, key.2, i.start) && i.detector == key.2
    && (i.target.kind, i.target.Label()) == (key.0, key.1)
  }

  lemma BuiltIncidentSummarises(run: seq<Detection>, key: Key)
    requires run != [] && Sorted(run) && forall d :: d in run ==> KeyOf(d) == key
    ensures Summarises(BuildIncident(key.2, run), run, key)
  {
    var i := BuildIncident(key.2, run);
    PeakIs(run);
    assert run[0] in run && Last(run) in run;
    forall d | d in run
      ensures i.start <= d.windowStart <= i.end
    {
      var k :| 0 <= k < |run| && run[k] == d;
    }
  }

  /** Each incident of a key, of its maximal run. */
  lemma IncidentSummarisesRun(ds: seq<Detection>, key: Key, window: int, r: nat)
    requires r < |IncidentsOf(ds, key, window)|
    ensures Summarises(IncidentsOf(ds, key, window)[r], RunsOf(SortByStart(OfKey(ds, key)), window)[r], key)
    ensures forall d :: d in RunsOf(SortByStart(OfKey(ds, key)), window)[r] ==> d in ds
  {
    var sorted := SortByStart(OfKey(ds, key));
    var runs := RunsOf(sorted, window);
    SortIs(OfKey(ds, key));
    RunsAreMaximal(sorted, window);
    RunIsSorted(sorted, window, r);
    forall d | d in runs[r]
      ensures KeyOf(d) == key && d in ds
    {
      PartIsWithin(runs, r, d);
      assert d in multiset(sorted);
      OfKeyAre(ds, key, d);
    }
    BuiltIncidentSummarises(runs[r], key);
  }

  // ----- Regrouping a longer history -----

  /**
    Detections no earlier than all known ones leave every known incident its identity and start:
    only the last incident of a key can change, and it can only grow.
   */
  lemma LaterDetectionsKeepIncidents(ds: seq<Detection>, more: seq<Detection>, key: Key, window: int, r: nat)
    requires forall x, y :: x in ds && y in more ==> x.windowStart <= y.windowStart
    requires r < |IncidentsOf(ds, key, window)|
    ensures var before, after := IncidentsOf(ds, key, window), IncidentsOf(ds + more, key, window);
            && r < |after|
            && after[r].id == before[r].id && after[r].start == before[r].start && after[r].target == before[r].target
            && after[r].windowCount >= before[r].windowCount
            && (r < |before| - 1 ==> after[r] == before[r])
            && after[r].end >= before[r].end
  {
    var a, b := OfKey(ds, key), OfKey(ds + more, key);
    var runs, runs' := RunsOf(SortByStart(a), window), RunsOf(SortByStart(b), window);
    KeyedLater(ds, more, key, window);
    SortIs(b);
    RunIsSorted(SortByStart(b), window, r);
    assert runs[r] <= runs'[r];
    assert Last(runs[r]) == runs'[r][|runs[r]| - 1];
  }

  lemma KeyedLater(ds: seq<Detection>, more: seq<Detection>, key: Key, window: int)
    requires forall x, y :: x in ds && y in more ==> x.windowStart <= y.windowStart
    ensures Extends(RunsOf(SortByStart(OfKey(ds, key)), window), RunsOf(SortByStart(OfKey(ds + more, key)), window))
  {
    var a, b := OfKey(ds, key), OfKey(more, key);
    OfKeyConcat(ds, more, key);
    forall x, y | x in a && y in b
      ensures x.windowStart <= y.windowStart
    {
      OfKeyAre(ds, key, x);
      OfKeyAre(more, key, y);
    }
    SortLater(a, b);
    LaterDetectionsExtend(SortByStart(a), SortByStart(b), window);
  }

  lemma {:induction false} RunIsSorted(ds: seq<Detection>, window: int, r: nat)
    requires Sorted(ds) && r < |RunsOf(ds, window)|
    ensures Sorted(RunsOf(ds, window)[r])
  {
    RunsAreMaximal(ds, window);
    PartIsSorted(RunsOf(ds, window), r);
  }

  lemma {:induction false} PartIsSorted(runs: seq<seq<Detection>>, r: nat)
    requires Sorted(Flatten(runs)) && r < |runs|
    ensures Sorted(runs[r])
  {
    var init, last := runs[..|runs| - 1], Last(runs);
    var all := Flatten(runs);
    assert all == Flatten(init) + last;
    if r == |runs| - 1 {
      assert forall i :: 0 <= i < |last| ==> last[i] == all[|Flatten(init)| + i];
    } else {
      assert forall i :: 0 <= i < |Flatten(init)| ==> Flatten(init)[i] == all[i];
      PartIsSorted(init, r);
    }
  }

  lemma {:induction false} PartIsWithin(runs: seq<seq<Detection>>, r: nat, d: Detection)
    requires r < |runs| && d in runs[r]
    ensures d in Flatten(runs)
  {
    if r < |runs| - 1 {
      PartIsWithin(runs[..|runs| - 1], r, d);
    }
  }

  /** Later runs start after earlier ones are over. */
  lemma {:induction false} RunsAscend(runs: seq<seq<Detection>>, window: int, q: nat, r: nat)
    requires window >= 0 && Spaced(runs, window) && q < r < |runs|
    requires forall p :: 0 <= p < |runs| ==> Sorted(runs[p])
    ensures Last(runs[q]).windowStart < runs[r][0].windowStart
    decreases r
  {
    if q < r - 1 {
      RunsAscend(runs, window, q, r - 1);
      assert runs[r - 1][0].windowStart <= Last(runs[r - 1]).windowStart;
    }
  }
}
