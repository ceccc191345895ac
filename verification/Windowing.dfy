/** `analyzer/windowing.py`, and the poll loop of `analyzer/main.py` that drives it. */
module Windowing {
  import opened Collections

  datatype DueWindow = DueWindow(index: int, start: real, end: real)

  /** Windows are buckets of the clock, whenever the analyzer starts. */
  datatype Schedule = Schedule(windowSeconds: int, watermarkSeconds: int) {
    predicate Valid() {
      windowSeconds > 0 && watermarkSeconds >= 0
    }

    function Index(now: real): int
      requires Valid()
    {
      (now / windowSeconds as real).Floor
    }

    function Start(index: int): real {
      (index * windowSeconds) as real
    }

    function End(index: int): real {
      (index * windowSeconds + windowSeconds) as real
    }

    function Window(index: int): DueWindow {
      DueWindow(index, Start(index), End(index))
    }

    /** At this time every window before this one is past its watermark, and no other is. */
    function Horizon(now: real): int
      requires Valid()
    {
      ((now - watermarkSeconds as real) / windowSeconds as real).Floor
    }

    lemma QuotientBelow(x: real, n: int)
      requires Valid()
      ensures n <= (x / windowSeconds as real).Floor <==> (n * windowSeconds) as real <= x
    {
      var w := windowSeconds as real;
      var q := x / w;
      assert q * w == x;
      assert (n * windowSeconds) as real == n as real * w;
      if n as real <= q {
        assert (q - n as real) * w >= 0.0;
      } else {
        assert (n as real - q) * w > 0.0;
      }
    }

    /** Every instant lies in exactly one window, that of its index. */
    lemma WindowsPartitionTime(now: real, index: int)
      requires Valid()
      ensures Start(index) <= now < End(index) <==> index == Index(now)
    {
      QuotientBelow(now, index);
      QuotientBelow(now, index + 1);
      assert (index + 1) * windowSeconds == index * windowSeconds + windowSeconds;
    }

    lemma DueIff(now: real, index: int)
      requires Valid()
      ensures End(index) + watermarkSeconds as real <= now <==> index < Horizon(now)
    {
      QuotientBelow(now - watermarkSeconds as real, index + 1);
      assert (index + 1) * windowSeconds == index * windowSeconds + windowSeconds;
    }

    lemma HorizonIsMonotone(a: real, b: real)
      requires Valid() && a <= b
      ensures Horizon(a) <= Horizon(b)
    {
      QuotientBelow(a - watermarkSeconds as real, Horizon(a));
      QuotientBelow(b - watermarkSeconds as real, Horizon(a));
    }

    lemma StartIsMonotone(i: int, j: int)
      requires Valid() && i <= j
      ensures Start(i) <= Start(j)
      ensures i < j ==> End(i) <= Start(j)
    {
      Multiples(i, j, windowSeconds);
      if i < j {
        Multiples(i + 1, j, windowSeconds);
      }
    }

    /** `count` windows from `first`. */
    function Windows(first: int, count: nat): (r: seq<DueWindow>)
      ensures |r| == count
    {
      seq(count, k requires 0 <= k < count => Window(first + k))
    }
  }

  lemma Multiples(i: int, j: int, w: int)
    requires i <= j && w > 0
    ensures i * w <= j * w && (i + 1) * w == i * w + w
  {
    assert (j - i) * w >= 0;
  }

  function AtLeastZero(n: int): nat {
    if n > 0 then n else 0
  }

  class WindowTracker {
    const schedule: Schedule
    var nextIndex: Option<int>

    constructor (schedule: Schedule)
      requires schedule.Valid()
      ensures this.schedule == schedule && nextIndex == None
    {
      this.schedule := schedule;
      nextIndex := None;
    }

    /** Exactly the windows from the cursor up to the horizon; asking again changes nothing. */
    method DueWindows(now: real) returns (due: seq<DueWindow>)
      requires schedule.Valid()
      modifies this`nextIndex
      ensures nextIndex == if old(nextIndex).Some? then old(nextIndex) else Some(schedule.Index(now))
      ensures due == schedule.Windows(nextIndex.value, AtLeastZero(schedule.Horizon(now) - nextIndex.value))
    {
      if nextIndex.None? {
        nextIndex := Some(schedule.Index(now));
      }
      due := [];
      var first := nextIndex.value;
      var idx := first;
      schedule.DueIff(now, idx);
      while schedule.End(idx) + schedule.watermarkSeconds as real <= now
        invariant nextIndex == Some(first) && due == schedule.Windows(first, |due|) && idx == first + |due|
        invariant due != [] ==> idx <= schedule.Horizon(now)
        decreases schedule.Horizon(now) - idx
      {
        schedule.DueIff(now, idx);
        due := due + [schedule.Window(idx)];
        idx := idx + 1;
      }
      schedule.DueIff(now, idx);
    }

    /** The cursor never moves back, and ends up as little forward as it takes to be past the window. */
    method MarkProcessed(index: int)
      modifies this`nextIndex
      ensures nextIndex.Some? <==> old(nextIndex).Some?
      ensures nextIndex.Some? ==>
                && nextIndex.value >= old(nextIndex).value && nextIndex.value > index
                && (nextIndex.value == old(nextIndex).value || nextIndex.value == index + 1)
      ensures forall next, marks :: old(nextIndex) == Some(CursorAfter(next, marks)) ==>
                nextIndex == Some(CursorAfter(next, marks + [index]))
    {
      forall next, marks
        ensures CursorAfter(next, marks + [index])
             == if index >= CursorAfter(next, marks) then index + 1 else CursorAfter(next, marks)
      {
        assert (marks + [index])[..|marks|] == marks;
      }
      if nextIndex.Some? && index >= nextIndex.value {
        nextIndex := Some(index + 1);
      }
    }

    function LateCheckBoundary(): Option<real>
      reads this
    {
      if nextIndex.None? then None else Some(schedule.Start(nextIndex.value))
    }
  }

  /** The cursor after any history of marks. */
  function CursorAfter(next: int, marks: seq<int>): int {
    if marks == [] then next
    else
      var before, last := CursorAfter(next, marks[..|marks| - 1]), marks[|marks| - 1];
      if last >= before then last + 1 else before
  }

  /** The first window, from `next` on, that was never marked. */
  ghost predicate HighestContiguous(next: int, marks: seq<int>, cursor: int) {
    cursor >= next && cursor !in marks && forall j :: next <= j < cursor ==> j in marks
  }

  lemma {:induction false} CursorIsPastTheMarks(next: int, marks: seq<int>)
    ensures CursorAfter(next, marks) >= next
    ensures forall m :: m in marks ==> m < CursorAfter(next, marks)
    ensures CursorAfter(next, marks) == next || CursorAfter(next, marks) - 1 in marks
  {
    if marks == [] {
    } else {
      CursorIsPastTheMarks(next, marks[..|marks| - 1]);
      assert marks == marks[..|marks| - 1] + [marks[|marks| - 1]];
    }
  }

  /**
    The cursor stands at the highest contiguous point if and only if no window was left out below a
    marked one, in whatever order they were marked; otherwise it has leapt over that window.
   */
  lemma CursorIsContiguousIff(next: int, marks: seq<int>)
    ensures HighestContiguous(next, marks, CursorAfter(next, marks)) <==>
              forall j, m :: next <= j <= m && m in marks ==> j in marks
  {
    CursorIsPastTheMarks(next, marks);
  }

  // ----- The poll loop -----

  /** One window handed to `process_window`, and what the clock showed. */
  datatype Processed = Processed(window: DueWindow, at: real)

  /** The latest reading so far: the clock may run backwards. */
  function Latest(clock: seq<real>): real
    requires clock != []
  {
    if |clock| == 1 then clock[0]
    else
      var before := Latest(clock[..|clock| - 1]);
      if clock[|clock| - 1] > before then clock[|clock| - 1] else before
  }

  lemma {:induction false} LatestIs(clock: seq<real>)
    requires clock != []
    ensures Latest(clock) in clock && forall x :: x in clock ==> x <= Latest(clock)
  {
    var init, last := clock[..|clock| - 1], clock[|clock| - 1];
    assert clock == init + [last];
    if init != [] {
      LatestIs(init);
      assert forall x :: x in clock <==> x in init || x == last;
    }
  }

  /** How many windows are done once the clock has shown these times. */
  function DoneCount(s: Schedule, clock: seq<real>): nat
    requires s.Valid() && clock != []
  {
    AtLeastZero(s.Horizon(Latest(clock)) - s.Index(clock[0]))
  }

  function NextAfter(s: Schedule, clock: seq<real>): int
    requires s.Valid() && clock != []
  {
    s.Index(clock[0]) + DoneCount(s, clock)
  }

  lemma DoneOneMore(s: Schedule, clock: seq<real>, now: real)
    requires s.Valid() && clock != []
    ensures DoneCount(s, clock + [now]) == DoneCount(s, clock) + AtLeastZero(s.Horizon(now) - NextAfter(s, clock))
  {
    assert (clock + [now])[..|clock|] == clock;
    if now > Latest(clock) {
      s.HorizonIsMonotone(Latest(clock), now);
    } else {
      s.HorizonIsMonotone(now, Latest(clock));
    }
  }

  /** What has been processed: consecutive windows, each at a reading past its watermark. */
  ghost predicate ProcessedAre(s: Schedule, clock: seq<real>, processed: seq<Processed>)
    requires s.Valid() && clock != []
  {
    && |processed| == DoneCount(s, clock)
    && forall k :: 0 <= k < |processed| ==>
         && processed[k].window == s.Window(s.Index(clock[0]) + k)
         && processed[k].at in clock && processed[k].window.end + s.watermarkSeconds as real <= processed[k].at
  }

  /** One pass: everything due is processed and marked, in order. */
  method Poll(tracker: WindowTracker, now: real, ghost clock: seq<real>, processed: seq<Processed>)
    returns (processed': seq<Processed>)
    requires tracker.schedule.Valid()
    requires if clock == [] then processed == [] && tracker.nextIndex == None
             else ProcessedAre(tracker.schedule, clock, processed)
                  && tracker.nextIndex == Some(NextAfter(tracker.schedule, clock))
    modifies tracker`nextIndex
    ensures ProcessedAre(tracker.schedule, clock + [now], processed')
    ensures tracker.nextIndex == Some(NextAfter(tracker.schedule, clock + [now]))
    ensures processed <= processed'
  {
    ghost var s := tracker.schedule;
    ghost var readings := clock + [now];
    ghost var first := s.Index(readings[0]);
    var due := tracker.DueWindows(now);
    PollIsDue(s, clock, now, tracker.nextIndex.value, |processed|, due);
    processed' := processed;
    for k := 0 to |due|
      invariant |processed'| == |processed| + k && processed <= processed'
      invariant tracker.nextIndex == Some(first + |processed'|)
      invariant forall j :: |processed| <= j < |processed'| ==>
                  processed'[j] == Processed(s.Window(first + j), now) && s.End(first + j) + s.watermarkSeconds as real <= now
    {
      assert due[k] == s.Window(first + |processed| + k);
      processed' := processed' + [Processed(due[k], now)];
      tracker.MarkProcessed(due[k].index);
    }
    PollExtends(s, clock, now, processed, processed');
  }

  lemma PollIsDue(s: Schedule, clock: seq<real>, now: real, next: int, done: nat, due: seq<DueWindow>)
    requires s.Valid() && due == s.Windows(next, AtLeastZero(s.Horizon(now) - next))
    requires if clock == [] then done == 0 && next == s.Index(now) else done == DoneCount(s, clock) && next == NextAfter(s, clock)
    ensures next == s.Index((clock + [now])[0]) + done
    ensures done + |due| == DoneCount(s, clock + [now])
    ensures forall j :: next <= j < next + |due| ==> s.End(j) + s.watermarkSeconds as real <= now
  {
    if clock != [] {
      DoneOneMore(s, clock, now);
    }
    forall j | next <= j < next + |due|
      ensures s.End(j) + s.watermarkSeconds as real <= now
    {
      s.DueIff(now, j);
    }
  }

  lemma PollExtends(s: Schedule, clock: seq<real>, now: real, processed: seq<Processed>, processed': seq<Processed>)
    requires s.Valid() && processed <= processed'
    requires if clock == [] then processed == [] else ProcessedAre(s, clock, processed)
    requires |processed'| == DoneCount(s, clock + [now])
    requires var first := s.Index((clock + [now])[0]);
             forall j :: |processed| <= j < |processed'| ==>
               processed'[j] == Processed(s.Window(first + j), now) && s.End(first + j) + s.watermarkSeconds as real <= now
    ensures ProcessedAre(s, clock + [now], processed')
  {
    forall k | 0 <= k < |processed|
      ensures processed'[k] == processed[k] && processed[k].at in clock + [now]
    {
    }
  }

  /** `run`, for as many polls as there are clock readings. */
  method Run(s: Schedule, clock: seq<real>) returns (processed: seq<Processed>, boundaries: seq<Option<real>>)
    requires s.Valid()
    ensures |boundaries| == |clock| && (clock == [] ==> processed == [])
    ensures clock != [] ==> ProcessedAre(s, clock, processed)
    ensures forall i :: 0 <= i < |clock| ==> boundaries[i] == Some(s.Start(NextAfter(s, clock[..i + 1])))
  {
    var tracker := new WindowTracker(s);
    processed, boundaries := [], [];
    for i := 0 to |clock|
      invariant tracker.schedule == s && |boundaries| == i
      invariant if i == 0 then processed == [] && tracker.nextIndex == None
                else ProcessedAre(s, clock[..i], processed) && tracker.nextIndex == Some(NextAfter(s, clock[..i]))
      invariant forall k :: 0 <= k < i ==> boundaries[k] == Some(s.Start(NextAfter(s, clock[..k + 1])))
    {
      assert clock[..i + 1] == clock[..i] + [clock[i]];
      processed := Poll(tracker, clock[i], clock[..i], processed);
      boundaries := boundaries + [tracker.LateCheckBoundary()];
    }
    assert clock[..|clock|] == clock;
  }

  // ----- What the loop guarantees -----

  /** A window is processed if and only if it is no earlier than the first and some reading was past its watermark. */
  lemma ProcessedIff(s: Schedule, clock: seq<real>, processed: seq<Processed>, index: int)
    requires s.Valid() && clock != [] && ProcessedAre(s, clock, processed)
    ensures (exists k :: 0 <= k < |processed| && processed[k].window == s.Window(index)) <==>
              index >= s.Index(clock[0]) && exists now :: now in clock && s.End(index) + s.watermarkSeconds as real <= now
  {
    LatestIs(clock);
    var first := s.Index(clock[0]);
    s.DueIff(Latest(clock), index);
    if first <= index < s.Horizon(Latest(clock)) {
      assert processed[index - first].window == s.Window(index);
    }
    if now :| now in clock && s.End(index) + s.watermarkSeconds as real <= now {
      assert now <= Latest(clock);
    }
  }

  /** The late-check boundary never moves back, whatever the clock does. */
  lemma BoundaryNeverDecreases(s: Schedule, clock: seq<real>, i: nat, j: nat)
    requires s.Valid() && i <= j < |clock|
    ensures s.Start(NextAfter(s, clock[..i + 1])) <= s.Start(NextAfter(s, clock[..j + 1]))
  {
    var a, b := clock[..i + 1], clock[..j + 1];
    LatestIs(a);
    LatestIs(b);
    assert Latest(a) in b;
    s.HorizonIsMonotone(Latest(a), Latest(b));
    s.StartIsMonotone(NextAfter(s, a), NextAfter(s, b));
  }

  /** It is the end of the last processed window, once there is one. */
  lemma BoundaryIsLastEnd(s: Schedule, clock: seq<real>, processed: seq<Processed>)
    requires s.Valid() && clock != [] && ProcessedAre(s, clock, processed)
    ensures s.Start(NextAfter(s, clock))
         == if processed == [] then s.Start(s.Index(clock[0])) else processed[|processed| - 1].window.end
  {
    var last := NextAfter(s, clock) - 1;
    assert (last + 1) * s.windowSeconds == last * s.windowSeconds + s.windowSeconds;
  }

  /**
    A span that starts in or after the first window has been read in exactly one processed window
    if it starts before the boundary, and in none if it does not.
   */
  lemma ReadOnceIffBeforeBoundary(s: Schedule, clock: seq<real>, processed: seq<Processed>, start: real, k: nat)
    requires s.Valid() && clock != [] && ProcessedAre(s, clock, processed)
    requires start >= s.Start(s.Index(clock[0])) && k < |processed|
    ensures processed[k].window.start <= start < processed[k].window.end <==> k == s.Index(start) - s.Index(clock[0])
    ensures start < s.Start(NextAfter(s, clock)) <==> 0 <= s.Index(start) - s.Index(clock[0]) < |processed|
  {
    var first := s.Index(clock[0]);
    s.WindowsPartitionTime(start, first + k);
    s.QuotientBelow(start, first);
    s.QuotientBelow(start, NextAfter(s, clock));
  }
}
