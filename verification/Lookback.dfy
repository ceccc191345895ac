/**
  `analyzer/main.py`, `run_suppression`: every window regroups the detections of a bounded
  lookback, so that old ones are forgotten as new ones come in.
 */
module Lookback {
  import opened Collections
  import opened Grouping

  /** What a lookback from `cut` on still reads. */
  function Since(ds: seq<Detection>, cut: int): seq<Detection> {
    if ds == [] then []
    else
      var last := ds[|ds| - 1];
      Since(ds[..|ds| - 1], cut) + if last.windowStart >= cut then [last] else []
  }

  lemma SinceOneMore(ds: seq<Detection>, d: Detection, cut: int)
    ensures Since(ds + [d], cut) == Since(ds, cut) + if d.windowStart >= cut then [d] else []
  {
    assert (ds + [d])[..|ds|] == ds;
  }

  // ----- Forgetting before grouping is forgetting after sorting -----

  lemma {:induction false} SinceOfKey(ds: seq<Detection>, cut: int, key: Key)
    ensures OfKey(Since(ds, cut), key) == Since(OfKey(ds, key), cut)
  {
    if ds == [] {
    } else {
      var init, last := ds[..|ds| - 1], Last(ds);
      SinceOfKey(init, cut, key);
      SplitLast(ds);
      OfKeyOneMore(init, last, key);
      SinceOneMore(init, last, cut);
      OfKeyOneMore(Since(init, cut), last, key);
      SinceOneMore(OfKey(init, key), last, cut);
      assert last.windowStart < cut ==> Since(ds, cut) == Since(init, cut);
      assert KeyOf(last) != key ==> OfKey(ds, key) == OfKey(init, key);
    }
  }

  lemma {:induction false} SinceAre(ds: seq<Detection>, cut: int, d: Detection)
    ensures d in Since(ds, cut) <==> d in ds && d.windowStart >= cut
  {
    if ds == [] {
    } else {
      SinceAre(ds[..|ds| - 1], cut, d);
      SplitLast(ds);
    }
  }

  lemma InsertAtEnd(ds: seq<Detection>, d: Detection)
    requires forall x :: x in ds ==> x.windowStart <= d.windowStart
    ensures Insert(ds, d) == ds + [d]
  {
    assert ds != [] ==> Last(ds) in ds;
  }

  lemma InsertBeforeLast(ds: seq<Detection>, last: Detection, d: Detection)
    requires last.windowStart > d.windowStart
    ensures Insert(ds + [last], d) == Insert(ds, d) + [last]
  {
    assert (ds + [last])[..|ds|] == ds;
  }

  lemma {:induction false} InsertSince(ds: seq<Detection>, d: Detection, cut: int)
    requires Sorted(ds)
    ensures Since(Insert(ds, d), cut) == if d.windowStart >= cut then Insert(Since(ds, cut), d) else Since(ds, cut)
  {
    if ds == [] || Last(ds).windowStart <= d.windowStart {
      SinceOneMore(ds, d, cut);
      assert Insert(ds, d) == ds + [d];
      forall x | x in Since(ds, cut)
        ensures x.windowStart <= d.windowStart
      {
        SinceAre(ds, cut, x);
      }
      InsertAtEnd(Since(ds, cut), d);
    } else {
      var init, last := ds[..|ds| - 1], Last(ds);
      InsertSince(init, d, cut);
      SinceOneMore(Insert(init, d), last, cut);
      InsertBeforeLast(Since(init, cut), last, d);
    }
  }

  lemma SortOneMore(ds: seq<Detection>, d: Detection)
    ensures SortByStart(ds + [d]) == Insert(SortByStart(ds), d)
  {
    assert (ds + [d])[..|ds|] == ds;
  }

  lemma {:induction false} SortSince(ds: seq<Detection>, cut: int)
    ensures SortByStart(Since(ds, cut)) == Since(SortByStart(ds), cut)
  {
    if ds == [] {
    } else {
      var init, last := ds[..|ds| - 1], Last(ds);
      SortSince(init, cut);
      SortIs(init);
      InsertSince(SortByStart(init), last, cut);
      SortOneMore(Since(init, cut), last);
      assert last.windowStart < cut ==> Since(ds, cut) == Since(init, cut);
    }
  }

  /** A sorted list is what the lookback forgets, followed by what it still reads. */
  lemma {:induction false} SortedSplits(ds: seq<Detection>, cut: int) returns (gone: seq<Detection>)
    requires Sorted(ds)
    ensures ds == gone + Since(ds, cut) && forall d :: d in gone ==> d.windowStart < cut
  {
    if ds == [] {
      gone := [];
    } else {
      var init, last := ds[..|ds| - 1], Last(ds);
      SplitLast(ds);
      if last.windowStart >= cut {
        gone := SortedSplits(init, cut);
      } else {
        gone := ds;
        if Since(ds, cut) != [] {
          SinceAre(ds, cut, Since(ds, cut)[0]);
        }
      }
    }
  }

  // ----- Runs of the two parts -----

  /** The gap at the cut is small enough to be inside a run. */
  predicate Torn(gone: seq<Detection>, kept: seq<Detection>, window: int) {
    gone != [] && kept != [] && kept[0].windowStart - Last(gone).windowStart <= window
  }

  lemma {:induction false} LastOfRuns(ds: seq<Detection>, window: int)
    requires ds != []
    ensures Last(Last(RunsOf(ds, window))) == Last(ds) && RunsOf(ds, window)[0][0] == ds[0]
  {
    if |ds| == 1 {
      RunsStart(ds, window);
      assert ds == [ds[0]];
    } else {
      LastOfRuns(ds[..|ds| - 1], window);
    }
  }

  /** A large gap at the cut leaves the runs of the two parts alone. */
  lemma {:induction false} UntornRuns(gone: seq<Detection>, kept: seq<Detection>, window: int)
    requires !Torn(gone, kept, window)
    ensures RunsOf(gone + kept, window) == RunsOf(gone, window) + RunsOf(kept, window)
  {
    if kept == [] {
      assert gone + kept == gone;
    } else {
      var init, d := kept[..|kept| - 1], Last(kept);
      SplitLast(kept);
      UntornRuns(gone, init, window);
      RunsOneMore(gone + init, d, window);
      assert (gone + init) + [d] == gone + kept;
      if gone != [] {
        LastOfRuns(gone, window);
      }
      GrowBehind(RunsOf(gone, window), RunsOf(init, window), d, window);
    }
  }

  lemma GrowBehind(runs: seq<seq<Detection>>, more: seq<seq<Detection>>, d: Detection, window: int)
    requires forall r :: 0 <= r < |runs| ==> runs[r] != []
    requires forall r :: 0 <= r < |more| ==> more[r] != []
    requires more == [] && runs != [] ==> d.windowStart - Last(Last(runs)).windowStart > window
    ensures Grow(runs + more, d, window) == runs + Grow(more, d, window)
  {
    if more != [] {
      assert Last(runs + more) == Last(more);
      assert (runs + more)[..|runs + more| - 1] == runs + more[..|more| - 1];
    }
  }

  /** Across a small gap, the last old run goes on with the first kept detection. */
  lemma RunGoesOn(gone: seq<Detection>, d: Detection, window: int)
    requires gone != [] && d.windowStart - Last(gone).windowStart <= window
    ensures var runs, runs' := RunsOf(gone, window), RunsOf(gone + [d], window);
            |runs'| == |runs| && Last(runs') == Last(runs) + [d]
  {
    LastOfRuns(gone, window);
    RunsOneMore(gone, d, window);
  }

  lemma TornRun(gone: seq<Detection>, kept: seq<Detection>, window: int)
    requires Torn(gone, kept, window)
    ensures var r := |RunsOf(gone, window)| - 1;
            && r < |RunsOf(gone + kept, window)| && RunsOf(gone, window)[r] + [kept[0]] <= RunsOf(gone + kept, window)[r]
  {
    RunGoesOn(gone, kept[0], window);
    LaterDetectionsExtend(gone + [kept[0]], kept[1..], window);
    assert (gone + [kept[0]]) + kept[1..] == gone + kept;
  }

  /** A run's ends belong to the list. */
  lemma RunEnds(ds: seq<Detection>, window: int, r: nat)
    requires r < |RunsOf(ds, window)|
    ensures RunsOf(ds, window)[r][0] in ds && Last(RunsOf(ds, window)[r]) in ds
  {
    RunsAreMaximal(ds, window);
    PartIsWithin(RunsOf(ds, window), r, RunsOf(ds, window)[r][0]);
    PartIsWithin(RunsOf(ds, window), r, Last(RunsOf(ds, window)[r]));
  }

  lemma RunsAreSpaced(ds: seq<Detection>, window: int)
    requires Sorted(ds)
    ensures Spaced(RunsOf(ds, window), window) && forall r :: 0 <= r < |RunsOf(ds, window)| ==> Sorted(RunsOf(ds, window)[r])
  {
    RunsAreMaximal(ds, window);
    forall r | 0 <= r < |RunsOf(ds, window)|
      ensures Sorted(RunsOf(ds, window)[r])
    {
      RunIsSorted(ds, window, r);
    }
  }

  // ----- Which incidents keep their identity -----

  ghost predicate HasId(incidents: seq<Incident>, id: IncidentId) {
    exists i :: i in incidents && i.id == id
  }

  ghost predicate IdsKept(before: seq<Incident>, after: seq<Incident>) {
    forall i :: i in after ==> HasId(before, i.id)
  }

  /** Some incident began before the cut and still went on at it. */
  ghost predicate Straddled(incidents: seq<Incident>, cut: int) {
    exists i :: i in incidents && i.start < cut <= i.end
  }

  /** The split of one key's history at the cut. */
  ghost predicate SplitAt(gone: seq<Detection>, kept: seq<Detection>, cut: int) {
    && Sorted(gone + kept)
    && (forall d :: d in gone ==> d.windowStart < cut)
    && (forall d :: d in kept ==> d.windowStart >= cut)
  }

  lemma IncidentsConcat(runs: seq<seq<Detection>>, more: seq<seq<Detection>>, detector: string)
    requires forall r :: 0 <= r < |runs| ==> runs[r] != []
    requires forall r :: 0 <= r < |more| ==> more[r] != []
    ensures IncidentsFor(runs + more, detector) == IncidentsFor(runs, detector) + IncidentsFor(more, detector)
  {
  }

  /** The incidents on either side of the cut, as their runs' ends place them. */
  lemma IncidentsAround(gone: seq<Detection>, kept: seq<Detection>, cut: int, window: int, detector: string)
    requires SplitAt(gone, kept, cut)
    ensures forall i :: i in IncidentsFor(RunsOf(gone, window), detector) ==> i.start < cut && i.end < cut
    ensures forall i :: i in IncidentsFor(RunsOf(kept, window), detector) ==> i.start >= cut
  {
    forall r | 0 <= r < |RunsOf(gone, window)|
      ensures IncidentsFor(RunsOf(gone, window), detector)[r].start < cut
      ensures IncidentsFor(RunsOf(gone, window), detector)[r].end < cut
    {
      RunEnds(gone, window, r);
    }
    forall r | 0 <= r < |RunsOf(kept, window)|
      ensures IncidentsFor(RunsOf(kept, window), detector)[r].start >= cut
    {
      RunEnds(kept, window, r);
    }
  }

  lemma UntornKeepsIds(gone: seq<Detection>, kept: seq<Detection>, cut: int, window: int, detector: string)
    requires SplitAt(gone, kept, cut) && !Torn(gone, kept, window)
    ensures var before, after := IncidentsFor(RunsOf(gone + kept, window), detector), IncidentsFor(RunsOf(kept, window), detector);
            !Straddled(before, cut) && forall i :: i in after <==> i in before && i.start >= cut
  {
    UntornRuns(gone, kept, window);
    IncidentsConcat(RunsOf(gone, window), RunsOf(kept, window), detector);
    IncidentsAround(gone, kept, cut, window, detector);
  }

  lemma TornIsStraddled(gone: seq<Detection>, kept: seq<Detection>, cut: int, window: int, detector: string)
    requires SplitAt(gone, kept, cut) && Torn(gone, kept, window)
    ensures Straddled(IncidentsFor(RunsOf(gone + kept, window), detector), cut)
  {
    var runs: seq<seq<Detection>> := RunsOf(gone + kept, window);
    var r := |RunsOf(gone, window)| - 1;
    TornRun(gone, kept, window);
    RunEnds(gone, window, r);
    RunIsSorted(gone + kept, window, r);
    assert runs[r][|RunsOf(gone, window)[r]|] == kept[0] && kept[0] in kept;
    assert IncidentsFor(runs, detector)[r] in IncidentsFor(runs, detector);
  }

  lemma OtherRunStarts(gone: seq<Detection>, kept: seq<Detection>, cut: int, window: int, r: nat, q: nat)
    requires SplitAt(gone, kept, cut) && Torn(gone, kept, window) && window >= 0
    requires r == |RunsOf(gone, window)| - 1 && q < |RunsOf(gone + kept, window)|
    ensures RunsOf(gone + kept, window)[q][0].windowStart != kept[0].windowStart
  {
    var runs: seq<seq<Detection>> := RunsOf(gone + kept, window);
    TornRun(gone, kept, window);
    assert kept[0] in kept;
    if q <= r {
      LaterDetectionsExtend(gone, kept, window);
      RunEnds(gone, window, q);
      assert runs[q][0] == RunsOf(gone, window)[q][0];
    } else {
      RunsAreSpaced(gone + kept, window);
      RunsAscend(runs, window, r, q);
      assert runs[r][|RunsOf(gone, window)[r]|] == kept[0];
    }
  }

  /** Every other run starts before the cut, or after the torn one is over. */
  lemma TornLosesAnId(gone: seq<Detection>, kept: seq<Detection>, cut: int, window: int, detector: string)
    requires SplitAt(gone, kept, cut) && Torn(gone, kept, window) && window >= 0
    ensures !IdsKept(IncidentsFor(RunsOf(gone + kept, window), detector), IncidentsFor(RunsOf(kept, window), detector))
  {
    var runs: seq<seq<Detection>> := RunsOf(gone + kept, window);
    var r := |RunsOf(gone, window)| - 1;
    var after := IncidentsFor(RunsOf(kept, window), detector);
    TornRun(gone, kept, window);
    LastOfRuns(kept, window);
    forall q | 0 <= q < |runs|
      ensures runs[q][0].windowStart != kept[0].windowStart
    {
      OtherRunStarts(gone, kept, cut, window, r, q);
    }
    assert after[0].id.start == kept[0].windowStart && after[0] in after;
  }

  /**
    What a lookback still reads is grouped into incidents the whole history has, too, identity and
    all, if and only if no incident of the whole history straddles the lookback's start.  If so,
    they are exactly the incidents from there on.
   */
  lemma ForgettingKeepsIdsIff(ds: seq<Detection>, cut: int, key: Key, window: int)
    requires window >= 0
    ensures var before, after := IncidentsOf(ds, key, window), IncidentsOf(Since(ds, cut), key, window);
            && (IdsKept(before, after) <==> !Straddled(before, cut))
            && (!Straddled(before, cut) ==> forall i :: i in after <==> i in before && i.start >= cut)
  {
    var sorted := SortByStart(OfKey(ds, key));
    SinceOfKey(ds, cut, key);
    SortSince(OfKey(ds, key), cut);
    SortIs(OfKey(ds, key));
    var gone := SortedSplits(sorted, cut);
    var kept := Since(sorted, cut);
    forall d
      ensures d in kept ==> d.windowStart >= cut
    {
      SinceAre(sorted, cut, d);
    }
    if Torn(gone, kept, window) {
      TornIsStraddled(gone, kept, cut, window, key.2);
      TornLosesAnId(gone, kept, cut, window, key.2);
    } else {
      UntornKeepsIds(gone, kept, cut, window, key.2);
    }
  }
}
