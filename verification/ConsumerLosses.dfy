/**
  The three places where the writer forgets records it still holds: a flush that
  gives up on cancellation, `onPartitionsLost`, and a `Push` that loses the race
  against cancellation.  Each is harmless exactly when nothing at or behind the
  forgotten records is still held, because only then can no later commit pass them.
 */
module ConsumerLosses {
  import opened ConsumerProtocol

  /** Some continuation in which no more records are forgotten commits past a missing record. */
  ghost predicate CanLose(cfg: Config, g: Group) {
    exists run: seq<Group> :: Run(cfg, run, true) && run[0] == g && !CommitSafe(cfg, run[|run| - 1].durable)
  }

  ghost function After(cfg: Config, g: Group, who: nat, e: Event): (g': Group)
    requires who in g.members && Enabled(cfg, g.durable, g.members[who], e)
    ensures Next(cfg, g, g', who, e)
  {
    Group(Persist(cfg, g.durable, g.members[who], e), g.members[who := ApplyTo(cfg, g.durable, g.members[who], e)])
  }

  /** What the event forgets. */
  function Forgotten(m: Member, e: Event): seq<Record> {
    if e.AbandonRetry? then InFlight(m)
    else if e.LosePartitions? then m.batch
    else if e.AbandonPush? && m.poll != [] then [m.poll[0]]
    else []
  }

  /** A held record of x's partition, not before x, can still reach a commit without x. */
  ghost predicate Overtaken(d: Durable, m: Member, x: Record) {
    || (exists r :: OvertakenInBatch(d, m, x, r))
    || (Draining(m) && exists i :: OvertakenUpstream(d, m, x, i))
  }

  ghost predicate OvertakenInBatch(d: Durable, m: Member, x: Record, r: Record) {
    && r in m.batch && r.partition == x.partition && x.offset <= r.offset
    && x !in d.inserted + Elems(InFlight(m)) + Elems(m.batch)
  }

  ghost predicate OvertakenUpstream(d: Durable, m: Member, x: Record, i: int) {
    && 0 <= i < |Upstream(m)| && Upstream(m)[i].decodable
    && Upstream(m)[i].partition == x.partition && x.offset <= Upstream(m)[i].offset
    && x !in Ahead(d, m, i + 1)
  }

  /** The lossy event e leaves a forgotten record that what is still held overtakes. */
  ghost predicate Strands(cfg: Config, d: Durable, m: Member, e: Event)
    requires Enabled(cfg, d, m, e) && e.Lossy()
  {
    exists x :: x in Forgotten(m, e) && x in cfg.log && x.decodable && Overtaken(d, ApplyTo(cfg, d, m, e), x)
  }

  // ----- Nothing stranded: the invariant survives -----

  lemma HarmlessKeepsGapless(cfg: Config, d: Durable, m: Member, e: Event)
    requires Gapless(cfg, d, m) && Enabled(cfg, d, m, e) && e.Lossy()
    requires !Strands(cfg, d, m, e)
    ensures Gapless(cfg, d, ApplyTo(cfg, d, m, e))
  {
    var m' := ApplyTo(cfg, d, m, e);
    assert InFlight(m') == if e.AbandonRetry? then [] else InFlight(m);
    assert FlightCovered(cfg, d, m');
    HarmlessKeepsBatchCovered(cfg, d, m, e);
    if Draining(m') {
      forall i | 0 <= i < |Upstream(m')| && Upstream(m')[i].decodable
        ensures Covered(cfg.log, Upstream(m')[i], Ahead(d, m', i + 1))
      {
        HarmlessKeepsUpstreamCovered(cfg, d, m, e, i);
      }
    }
  }

  lemma HarmlessKeepsBatchCovered(cfg: Config, d: Durable, m: Member, e: Event)
    requires Gapless(cfg, d, m) && Enabled(cfg, d, m, e) && e.Lossy()
    requires !Strands(cfg, d, m, e)
    ensures BatchCovered(cfg, d, ApplyTo(cfg, d, m, e))
  {
    var m' := ApplyTo(cfg, d, m, e);
    forall r, q | r in m'.batch && q in cfg.log && q.decodable && q.partition == r.partition && q.offset <= r.offset
      ensures q in d.inserted + Elems(InFlight(m')) + Elems(m'.batch)
    {
      assert Covered(cfg.log, r, d.inserted + Elems(InFlight(m)) + Elems(m.batch));
      if q !in d.inserted + Elems(InFlight(m')) + Elems(m'.batch) {
        assert q in Forgotten(m, e);
        assert OvertakenInBatch(d, m', q, r);
      }
    }
  }

  lemma HarmlessKeepsUpstreamCovered(cfg: Config, d: Durable, m: Member, e: Event, i: nat)
    requires Gapless(cfg, d, m) && Enabled(cfg, d, m, e) && e.Lossy()
    requires !Strands(cfg, d, m, e)
    requires var m' := ApplyTo(cfg, d, m, e); Draining(m') && i < |Upstream(m')| && Upstream(m')[i].decodable
    ensures var m' := ApplyTo(cfg, d, m, e); Covered(cfg.log, Upstream(m')[i], Ahead(d, m', i + 1))
  {
    var m' := ApplyTo(cfg, d, m, e);
    var r := Upstream(m')[i];
    var j := LossyShiftsUpstream(cfg, d, m, e, i);
    assert Covered(cfg.log, Upstream(m)[j], Ahead(d, m, j + 1));
    forall q | q in cfg.log && q.decodable && q.partition == r.partition && q.offset <= r.offset
      ensures q in Ahead(d, m', i + 1)
    {
      if q !in Ahead(d, m', i + 1) {
        assert q in Forgotten(m, e);
        assert OvertakenUpstream(d, m', q, i);
      }
    }
  }

  /** Where the (i+1)-th upstream record was before the lossy event, and what was ahead of it. */
  lemma LossyShiftsUpstream(cfg: Config, d: Durable, m: Member, e: Event, i: nat) returns (j: nat)
    requires Enabled(cfg, d, m, e) && e.Lossy() && i < |Upstream(ApplyTo(cfg, d, m, e))|
    ensures var m' := ApplyTo(cfg, d, m, e);
            && j < |Upstream(m)| && Upstream(m)[j] == Upstream(m')[i]
            && Ahead(d, m, j + 1) <= Ahead(d, m', i + 1) + Elems(Forgotten(m, e))
  {
    j := i;
    if e.AbandonPush? {
      j := AbandonPushShiftsUpstream(d, m, i);
    } else {
      var m' := ApplyTo(cfg, d, m, e);
      assert Upstream(m') == Upstream(m);
      assert Elems(InFlight(m)) + Elems(m.batch) <= Elems(InFlight(m')) + Elems(m'.batch) + Elems(Forgotten(m, e));
    }
  }

  lemma AbandonPushShiftsUpstream(d: Durable, m: Member, i: nat) returns (j: nat)
    requires m.poll != [] && i < |Upstream(m.(poll := m.poll[1..]))|
    ensures var m' := m.(poll := m.poll[1..]);
            && j < |Upstream(m)| && Upstream(m)[j] == Upstream(m')[i]
            && Ahead(d, m, j + 1) <= Ahead(d, m', i + 1) + {m.poll[0]}
  {
    var m' := m.(poll := m.poll[1..]);
    SkipShiftsUpstream(m, i);
    SkipShiftsUpstream(m, i + 1);
    j := if i < |Upstream(m)| - |m.poll| then i else i + 1;
    assert Elems(InFlight(m')) + Elems(m'.batch) == Elems(InFlight(m)) + Elems(m.batch);
  }

  // ----- Something stranded: a run that commits past it -----

  lemma CanLoseBack(cfg: Config, g: Group, who: nat, e: Event)
    requires who in g.members && Enabled(cfg, g.durable, g.members[who], e) && !e.Lossy()
    requires CanLose(cfg, After(cfg, g, who, e))
    ensures CanLose(cfg, g)
  {
    var g' := After(cfg, g, who, e);
    var run: seq<Group> :| Run(cfg, run, true) && run[0] == g' && !CommitSafe(cfg, run[|run| - 1].durable);
    var longer := [g] + run;
    forall k | 0 < k < |longer|
      ensures Step(cfg, longer[k - 1], longer[k], true)
    {
      if k == 1 {
        assert Next(cfg, g, g', who, e);
      } else {
        assert Step(cfg, run[k - 2], run[k - 1], true);
      }
    }
    assert Run(cfg, longer, true) && longer[|longer| - 1] == run[|run| - 1];
  }

  /** x is missing, and the rows inserted are about to be committed past it. */
  lemma CommitLoses(cfg: Config, g: Group, who: nat, x: Record, r: Record)
    requires who in g.members && x in cfg.log && x.decodable && x !in g.durable.inserted
    requires var m := g.members[who]; m.mutex.Held? && m.mutex.phase.Inserted? && r in m.mutex.phase.rows
    requires r.partition == x.partition && x.offset <= r.offset
    ensures CanLose(cfg, g)
  {
    var g' := After(cfg, g, who, CommitOk);
    CommitOffsetsAreOnePastTheLargest(g.members[who].mutex.phase.rows, x.partition);
    assert x !in g'.durable.inserted && x.offset < CommittedAt(g'.durable.committed, x.partition);
    assert Run(cfg, [g'], true);
    CanLoseBack(cfg, g, who, CommitOk);
  }

  /** x is missing, and the flush under way will commit past it. */
  lemma FlightLoses(cfg: Config, g: Group, who: nat, x: Record, r: Record)
    requires who in g.members && x in cfg.log && x.decodable && x !in g.durable.inserted
    requires var m := g.members[who];
             m.mutex.Held? && m.mutex.phase.Inserting? && r in m.mutex.phase.rows && x !in m.mutex.phase.rows
    requires r.partition == x.partition && x.offset <= r.offset
    ensures CanLose(cfg, g)
  {
    CommitLoses(cfg, After(cfg, g, who, InsertOk), who, x, r);
    CanLoseBack(cfg, g, who, InsertOk);
  }

  lemma BatchLoses(cfg: Config, g: Group, who: nat, x: Record, r: Record)
    requires who in g.members && x in cfg.log && x.decodable
    requires OvertakenInBatch(g.durable, g.members[who], x, r)
    ensures CanLose(cfg, g)
    decreases var mu := g.members[who].mutex;
              if mu.Free? then 1 else if mu.phase.Locked? then 0 else if mu.phase.Inserted? then 2 else 3
  {
    var m := g.members[who];
    var e :=
      if m.mutex.Free? then Lock(Callback)
      else if m.mutex.phase.Locked? then Drain
      else if m.mutex.phase.Inserting? then InsertOk
      else CommitOk;
    var g' := After(cfg, g, who, e);
    if e == Drain {
      FlightLoses(cfg, g', who, x, r);
    } else {
      BatchLoses(cfg, g', who, x, r);
    }
    CanLoseBack(cfg, g, who, e);
  }

  /** How far `batchLoop` is from its next receive. */
  function Distance(m: Member): nat {
    if m.loop.Adding? then 0
    else if m.loop.Selecting? then 1
    else if m.mutex.Free? then 5
    else if m.mutex.owner.Loop? then if m.mutex.phase.Locked? then 4 else if m.mutex.phase.Inserting? then 3 else 2
    else if m.mutex.phase.Locked? then 8 else if m.mutex.phase.Inserting? then 7 else 6
  }

  /** The process's next step towards committing the first decodable upstream record. */
  function Advance(m: Member): Event
    requires Draining(m) && Upstream(m) != []
  {
    if m.loop.Adding? then Add
    else if m.loop.Selecting? then
      if m.queue != [] then Receive else if m.poll[0].decodable then Handoff else SkipUndecodable
    else if m.mutex.Free? then Lock(Loop)
    else if m.mutex.phase.Locked? then Drain
    else if m.mutex.phase.Inserting? then InsertOk
    else CommitOk
  }

  lemma UpstreamLoses(cfg: Config, g: Group, who: nat, x: Record, i: nat)
    requires who in g.members && x in cfg.log && x.decodable
    requires Draining(g.members[who]) && OvertakenUpstream(g.durable, g.members[who], x, i)
    ensures CanLose(cfg, g)
    decreases i, Distance(g.members[who])
  {
    var e, i', inBatch := UpstreamStep(cfg, g.durable, g.members[who], x, i);
    var g' := After(cfg, g, who, e);
    if inBatch {
      BatchLoses(cfg, g', who, x, g.members[who].loop.item);
    } else {
      UpstreamLoses(cfg, g', who, x, i');
    }
    CanLoseBack(cfg, g, who, e);
  }

  /** One step nearer to committing the overtaking record, which ends up in the batch or is now the (i'+1)-th upstream. */
  lemma UpstreamStep(cfg: Config, d: Durable, m: Member, x: Record, i: nat) returns (e: Event, i': nat, inBatch: bool)
    requires Draining(m) && OvertakenUpstream(d, m, x, i)
    ensures Enabled(cfg, d, m, e) && !e.Lossy()
    ensures var (d', m') := Apply(cfg, d, m, e);
            if inBatch then m.loop.Adding? && OvertakenInBatch(d', m', x, m.loop.item)
            else && Draining(m') && OvertakenUpstream(d', m', x, i')
                 && (i' < i || (i' == i && Distance(m') < Distance(m)))
  {
    i', inBatch := i, false;
    if m.loop.Adding? {
      AddStep(cfg, d, m, x, i);
      e, i', inBatch := Add, if i == 0 then 0 else i - 1, i == 0;
    } else if Advance(m).SkipUndecodable? {
      e := SkipUndecodable;
      SkipAdvances(cfg, d, m, i);
      i' := i - 1;
    } else {
      e := OtherAdvances(cfg, d, m, x, i);
    }
  }

  /** The added record is the overtaking one, or brings it one place nearer. */
  lemma AddStep(cfg: Config, d: Durable, m: Member, x: Record, i: nat)
    requires Draining(m) && OvertakenUpstream(d, m, x, i) && m.loop.Adding?
    ensures var m' := ApplyTo(cfg, d, m, Add);
            if i == 0 then OvertakenInBatch(d, m', x, m.loop.item) else Draining(m') && OvertakenUpstream(d, m', x, i - 1)
  {
    AddAdvances(cfg, d, m, i);
  }

  lemma SkipAdvances(cfg: Config, d: Durable, m: Member, i: nat)
    requires m.loop.Selecting? && m.queue == [] && m.poll != [] && !m.poll[0].decodable
    requires i < |Upstream(m)| && Upstream(m)[i].decodable
    ensures i > 0
    ensures var m' := m.(poll := m.poll[1..]);
            && Upstream(m')[i - 1] == Upstream(m)[i]
            && Ahead(d, m', i) <= Ahead(d, m, i + 1)
  {
    var m' := m.(poll := m.poll[1..]);
    assert Upstream(m) == [m.poll[0]] + Upstream(m');
    assert Upstream(m)[..i + 1] == [m.poll[0]] + Upstream(m')[..i];
  }

  /** Every other step leaves what is upstream alone and brings the loop nearer to its next receive. */
  lemma OtherAdvances(cfg: Config, d: Durable, m: Member, x: Record, i: nat) returns (e: Event)
    requires Draining(m) && OvertakenUpstream(d, m, x, i)
    requires !m.loop.Adding? && !Advance(m).SkipUndecodable?
    ensures Enabled(cfg, d, m, e) && !e.Lossy()
    ensures var (d', m') := Apply(cfg, d, m, e);
            && Draining(m') && OvertakenUpstream(d', m', x, i)
            && Distance(m') < Distance(m)
  {
    e := Advance(m);
    if m.loop.Selecting? {
      ReceiveAdvances(cfg, d, m, x, i);
    } else {
      FlushAdvances(cfg, d, m, x, i);
    }
  }

  lemma ReceiveAdvances(cfg: Config, d: Durable, m: Member, x: Record, i: nat)
    requires m.loop.Selecting? && OvertakenUpstream(d, m, x, i) && !Advance(m).SkipUndecodable?
    ensures Enabled(cfg, d, m, Advance(m)) && !Advance(m).Lossy()
    ensures var (d', m') := Apply(cfg, d, m, Advance(m)); m'.loop.Adding? && OvertakenUpstream(d', m', x, i)
  {
    QueueKeepsUpstream(cfg, d, m, Advance(m));
    var m' := ApplyTo(cfg, d, m, Advance(m));
    assert Ahead(d, m', i + 1) == Ahead(d, m, i + 1);
  }

  lemma FlushAdvances(cfg: Config, d: Durable, m: Member, x: Record, i: nat)
    requires m.loop == Flushing(false) && OvertakenUpstream(d, m, x, i)
    ensures Enabled(cfg, d, m, Advance(m)) && !Advance(m).Lossy()
    ensures var (d', m') := Apply(cfg, d, m, Advance(m));
            && Draining(m') && OvertakenUpstream(d', m', x, i)
            && Distance(m') < Distance(m)
  {
    var (d', m') := Apply(cfg, d, m, Advance(m));
    assert Upstream(m') == Upstream(m);
    assert d'.inserted + Elems(InFlight(m')) + Elems(m'.batch) <= d.inserted + Elems(InFlight(m)) + Elems(m.batch);
  }

  // ----- The exact condition -----

  /**
    Forgetting records is harmless, for every way the group can go on from there,
    if and only if nothing still held overtakes one of them.
   */
  lemma LossyEventIsHarmlessIffNothingStranded(cfg: Config, g: Group, who: nat, e: Event)
    requires Inv(cfg, g) && who in g.members && Enabled(cfg, g.durable, g.members[who], e) && e.Lossy()
    ensures CanLose(cfg, After(cfg, g, who, e)) <==> Strands(cfg, g.durable, g.members[who], e)
  {
    var d, m := g.durable, g.members[who];
    var g' := After(cfg, g, who, e);
    var m' := g'.members[who];
    if Strands(cfg, d, m, e) {
      var x :| x in Forgotten(m, e) && x in cfg.log && x.decodable && Overtaken(d, m', x);
      if r :| OvertakenInBatch(d, m', x, r) {
        BatchLoses(cfg, g', who, x, r);
      } else {
        var i :| OvertakenUpstream(d, m', x, i);
        UpstreamLoses(cfg, g', who, x, i);
      }
    } else {
      HarmlessKeepsGapless(cfg, d, m, e);
      forall run: seq<Group> | Run(cfg, run, true) && run[0] == g'
        ensures CommitSafe(cfg, run[|run| - 1].durable)
      {
        LosslessRunKeepsInv(cfg, run, |run| - 1);
      }
    }
  }

  // ----- Runs that may forget, but strand nothing -----

  ghost predicate CarefulStep(cfg: Config, g: Group, g': Group) {
    exists who, e :: Next(cfg, g, g', who, e) && (e.Lossy() ==> !Strands(cfg, g.durable, g.members[who], e))
  }

  lemma HarmlessKeepsInv(cfg: Config, g: Group, g': Group, who: nat, e: Event)
    requires Inv(cfg, g) && Next(cfg, g, g', who, e) && e.Lossy() && !Strands(cfg, g.durable, g.members[who], e)
    ensures Inv(cfg, g')
  {
    HarmlessKeepsGapless(cfg, g.durable, g.members[who], e);
    assert g'.durable == g.durable;
  }

  lemma CarefulStepKeepsInv(cfg: Config, g: Group, g': Group)
    requires Inv(cfg, g) && CarefulStep(cfg, g, g')
    ensures Inv(cfg, g')
  {
    var who, e :| Next(cfg, g, g', who, e) && (e.Lossy() ==> !Strands(cfg, g.durable, g.members[who], e));
    if e.Lossy() {
      HarmlessKeepsInv(cfg, g, g', who, e);
    } else {
      StepKeepsInv(cfg, g, g', who, e);
    }
  }

  /** The contract holds over every run whose forgotten records are never overtaken. */
  lemma {:induction false} CarefulRunIsCommitSafe(cfg: Config, run: seq<Group>, k: nat)
    requires run != [] && Initial(run[0]) && k < |run|
    requires forall j :: 0 < j < |run| ==> CarefulStep(cfg, run[j - 1], run[j])
    ensures Inv(cfg, run[k]) && CommitSafe(cfg, run[k].durable)
  {
    if k > 0 {
      CarefulRunIsCommitSafe(cfg, run, k - 1);
      CarefulStepKeepsInv(cfg, run[k - 1], run[k]);
    }
  }

  // ----- A shutdown that loses a record -----

  ghost predicate Reachable(cfg: Config, g: Group) {
    exists run: seq<Group> :: Run(cfg, run, true) && Initial(run[0]) && run[|run| - 1] == g
  }

  function Alone(d: Durable, m: Member): Group {
    Group(d, map[0 := m])
  }

  /** What one process does is a run of the group that consists of it alone. */
  lemma {:induction false} ExecutionIsRun(cfg: Config, d: Durable, m: Member, events: seq<Event>, d': Durable, m': Member)
    returns (run: seq<Group>)
    requires Executes(cfg, d, m, events, d', m')
    ensures Run(cfg, run, Forgetless(events)) && run[0] == Alone(d, m) && run[|run| - 1] == Alone(d', m')
    decreases |events|
  {
    if events == [] {
      run := [Alone(d, m)];
    } else {
      var (d1, m1) := Apply(cfg, d, m, events[0]);
      var rest := ExecutionIsRun(cfg, d1, m1, events[1..], d', m');
      run := [Alone(d, m)] + rest;
      assert Next(cfg, Alone(d, m), Alone(d1, m1), 0, events[0]);
      forall k | 0 < k < |run|
        ensures Step(cfg, run[k - 1], run[k], Forgetless(events))
      {
        if k > 1 {
          assert Step(cfg, rest[k - 2], rest[k - 1], Forgetless(events[1..]));
        }
      }
    }
  }

  /** One more event at the end. */
  lemma ExecutesMore(
    cfg: Config, d: Durable, m: Member, events: seq<Event>, d1: Durable, m1: Member, e: Event, d2: Durable, m2: Member)
    requires Executes(cfg, d, m, events, d1, m1) && Enabled(cfg, d1, m1, e) && Apply(cfg, d1, m1, e) == (d2, m2)
    ensures Executes(cfg, d, m, events + [e], d2, m2)
  {
    ExecutesOne(cfg, d1, m1, e);
    ExecutesThen(cfg, d, m, events, d1, m1, [e], d2, m2);
  }

  // Two decodable records of one partition, batches of two.
  const FIRST := Record(0, 0, true)
  const SECOND := Record(0, 1, true)
  const EMPTY_TABLE := Durable({}, map[])

  ghost function TwoRecords(): Config {
    Config(iset{FIRST, SECOND}, 2, 2)
  }

  /** Both records are queued. */
  function Queueing(): seq<Event> {
    [Assign(0)] + [Poll([FIRST, SECOND], map[0 := 2])] + [Push] + [Push]
  }

  function Queued(): Member {
    Member(map[0 := 2], [], [FIRST, SECOND], Selecting, [], Free, false)
  }

  /** The first becomes a batch of its own by the ticker, and its insert is under way when the stop comes. */
  function FlushingFirst(): seq<Event> {
    [Receive] + [Add] + [Tick] + [Lock(Loop)] + [Drain] + [Cancel]
  }

  function MidRetry(): Member {
    Member(map[0 := 2], [], [SECOND], Flushing(false), [], Held(Loop, Inserting([FIRST])), true)
  }

  function AfterGivingUp(): Member {
    MidRetry().(mutex := Free, loop := Selecting)
  }

  /** The loop still takes the second record, and flushes it as its last act. */
  function LastFlush(): seq<Event> {
    [Receive] + [Add] + [NoticeCancel] + [Lock(Loop)] + [Drain] + [InsertOk] + [CommitOk]
  }

  function OnlySecond(): Durable {
    Durable({SECOND}, map[0 := 2])
  }

  lemma QueueingLeads()
    ensures Executes(TwoRecords(), EMPTY_TABLE, FRESH_MEMBER, Queueing(), EMPTY_TABLE, Queued())
  {
    var cfg, d, m0 := TwoRecords(), EMPTY_TABLE, FRESH_MEMBER;
    var m1 := m0.(position := map[0 := 0]);
    ExecutesOne(cfg, d, m0, Assign(0));
    var both := [FIRST, SECOND];
    assert both[0] == FIRST && both[1] == SECOND;
    var m2 := m1.(position := map[0 := 2], poll := both);
    ExecutesMore(cfg, d, m0, [Assign(0)], d, m1, Poll(both, map[0 := 2]), d, m2);
    assert both[1..] == [SECOND] && [] + [FIRST] == [FIRST];
    var m3 := m2.(poll := [SECOND], queue := [FIRST]);
    ExecutesMore(cfg, d, m0, [Assign(0)] + [Poll(both, map[0 := 2])], d, m2, Push, d, m3);
    assert m3.poll[1..] == [] && m3.queue + [SECOND] == both;
    ExecutesMore(cfg, d, m0, [Assign(0)] + [Poll(both, map[0 := 2])] + [Push], d, m3, Push, d, Queued());
  }

  lemma FlushingFirstLeads()
    ensures Executes(TwoRecords(), EMPTY_TABLE, Queued(), FlushingFirst(), EMPTY_TABLE, MidRetry())
  {
    var cfg, d, m0 := TwoRecords(), EMPTY_TABLE, Queued();
    assert m0.queue[1..] == [SECOND];
    var m1 := m0.(queue := [SECOND], loop := Adding(FIRST));
    ExecutesOne(cfg, d, m0, Receive);
    assert m1.batch + [FIRST] == [FIRST];
    var m2 := m1.(batch := [FIRST], loop := Selecting);
    ExecutesMore(cfg, d, m0, [Receive], d, m1, Add, d, m2);
    ExecutesMore(cfg, d, m0, [Receive] + [Add], d, m2, Tick, d, m2.(loop := Flushing(false)));
    FlushingLeads(m0, m2.(loop := Flushing(false)));
  }

  lemma FlushingLeads(m0: Member, m3: Member)
    requires Executes(TwoRecords(), EMPTY_TABLE, m0, [Receive] + [Add] + [Tick], EMPTY_TABLE, m3)
    requires m3 == Member(map[0 := 2], [], [SECOND], Flushing(false), [FIRST], Free, false)
    ensures Executes(TwoRecords(), EMPTY_TABLE, m0, FlushingFirst(), EMPTY_TABLE, MidRetry())
  {
    var cfg, d := TwoRecords(), EMPTY_TABLE;
    var m4 := m3.(mutex := Held(Loop, Locked));
    ExecutesMore(cfg, d, m0, [Receive] + [Add] + [Tick], d, m3, Lock(Loop), d, m4);
    var m5 := m4.(batch := [], mutex := Held(Loop, Inserting([FIRST])));
    ExecutesMore(cfg, d, m0, [Receive] + [Add] + [Tick] + [Lock(Loop)], d, m4, Drain, d, m5);
    ExecutesMore(cfg, d, m0, [Receive] + [Add] + [Tick] + [Lock(Loop)] + [Drain], d, m5, Cancel, d, MidRetry());
  }

  lemma LastFlushLeads() returns (end: Member)
    ensures Executes(TwoRecords(), EMPTY_TABLE, AfterGivingUp(), LastFlush(), OnlySecond(), end)
    ensures end.loop == Stopped && end.batch == [] && end.queue == [] && end.poll == []
  {
    var cfg, d, m0 := TwoRecords(), EMPTY_TABLE, AfterGivingUp();
    assert m0.queue[1..] == [];
    var m1 := m0.(queue := [], loop := Adding(SECOND));
    ExecutesOne(cfg, d, m0, Receive);
    assert m1.batch + [SECOND] == [SECOND];
    var m2 := m1.(batch := [SECOND], loop := Selecting);
    ExecutesMore(cfg, d, m0, [Receive], d, m1, Add, d, m2);
    ExecutesMore(cfg, d, m0, [Receive] + [Add], d, m2, NoticeCancel, d, m2.(loop := Flushing(true)));
    end := FlushingSecond(m0, m2.(loop := Flushing(true)));
  }

  lemma FlushingSecond(m0: Member, m3: Member) returns (end: Member)
    requires Executes(TwoRecords(), EMPTY_TABLE, m0, [Receive] + [Add] + [NoticeCancel], EMPTY_TABLE, m3)
    requires m3 == Member(map[0 := 2], [], [], Flushing(true), [SECOND], Free, true)
    ensures Executes(TwoRecords(), EMPTY_TABLE, m0, LastFlush(), OnlySecond(), end)
    ensures end.loop == Stopped && end.batch == [] && end.queue == [] && end.poll == []
  {
    var cfg, d := TwoRecords(), EMPTY_TABLE;
    var m4 := m3.(mutex := Held(Loop, Locked));
    ExecutesMore(cfg, d, m0, [Receive] + [Add] + [NoticeCancel], d, m3, Lock(Loop), d, m4);
    var m5 := m4.(batch := [], mutex := Held(Loop, Inserting([SECOND])));
    ExecutesMore(cfg, d, m0, [Receive] + [Add] + [NoticeCancel] + [Lock(Loop)], d, m4, Drain, d, m5);
    end := m5.(mutex := Free, loop := Stopped);
    CommittingSecond(m0, m5, end);
  }

  lemma CommittingSecond(m0: Member, m5: Member, end: Member)
    requires Executes(TwoRecords(), EMPTY_TABLE, m0, [Receive] + [Add] + [NoticeCancel] + [Lock(Loop)] + [Drain], EMPTY_TABLE, m5)
    requires m5.mutex == Held(Loop, Inserting([SECOND])) && m5.loop == Flushing(true) && end == m5.(mutex := Free, loop := Stopped)
    ensures Executes(TwoRecords(), EMPTY_TABLE, m0, LastFlush(), OnlySecond(), end)
  {
    var cfg, d, events := TwoRecords(), EMPTY_TABLE, [Receive] + [Add] + [NoticeCancel] + [Lock(Loop)] + [Drain];
    var d6, m6 := Durable({SECOND}, map[]), m5.(mutex := Held(Loop, Inserted([SECOND])));
    assert Elems([SECOND]) == {SECOND} && d.inserted + Elems([SECOND]) == {SECOND};
    ExecutesMore(cfg, d, m0, events, d, m5, InsertOk, d6, m6);
    assert [SECOND][..0] == [] && CommitOffsets([SECOND]) == map[0 := 2];
    assert d6.committed + map[0 := 2] == map[0 := 2];
    ExecutesMore(cfg, d, m0, events + [InsertOk], d6, m6, CommitOk, OnlySecond(), end);
  }

  /** Up to the stop, nothing is forgotten. */
  lemma MidRetryIsReached(cfg: Config, d: Durable, queued: Member, m: Member, first: seq<Event>, then': seq<Event>)
    requires d == EMPTY_TABLE && Forgetless(first) && Forgetless(then')
    requires Executes(cfg, d, FRESH_MEMBER, first, d, queued) && Executes(cfg, d, queued, then', d, m)
    ensures Reachable(cfg, Alone(d, m))
  {
    ExecutesThen(cfg, d, FRESH_MEMBER, first, d, queued, then', d, m);
    NothingForgotten(first, then');
    RunReaches(cfg, d, first + then', m);
  }

  lemma NothingForgotten(a: seq<Event>, b: seq<Event>)
    requires Forgetless(a) && Forgetless(b)
    ensures Forgetless(a + b)
  {
  }

  lemma RunReaches(cfg: Config, d: Durable, events: seq<Event>, m: Member)
    requires d == EMPTY_TABLE && Executes(cfg, d, FRESH_MEMBER, events, d, m) && Forgetless(events)
    ensures Reachable(cfg, Alone(d, m))
  {
    var run := ExecutionIsRun(cfg, d, FRESH_MEMBER, events, d, m);
  }

  lemma RunLoses(cfg: Config, d: Durable, m: Member, events: seq<Event>, d': Durable, m': Member)
    requires Executes(cfg, d, m, events, d', m') && Forgetless(events) && !CommitSafe(cfg, d')
    ensures CanLose(cfg, Alone(d, m))
  {
    var run := ExecutionIsRun(cfg, d, m, events, d', m');
  }

  lemma CommittedPastFirst()
    ensures !CommitSafe(TwoRecords(), OnlySecond())
  {
    assert FIRST in TwoRecords().log && FIRST.offset < CommittedAt(OnlySecond().committed, FIRST.partition);
  }

  /**
    A shutdown that loses a record, with no second process and no rebalance.  The first of two
    records is being retried, the second is queued, and the process is told to stop.  The retry
    gives up, the loop takes the second record from the queue before it notices the cancellation,
    and its last flush inserts the second and commits past the first, which is in no table.
   */
  lemma ShutdownCanLoseARecord(cfg: Config, d: Durable, m: Member, m': Member, last: seq<Event>, d': Durable) returns (end: Member)
    requires cfg == TwoRecords() && d == EMPTY_TABLE && d' == OnlySecond()
    requires m == MidRetry() && m' == AfterGivingUp() && last == LastFlush()
    ensures Reachable(cfg, Alone(d, m))
    ensures Enabled(cfg, d, m, AbandonRetry) && Apply(cfg, d, m, AbandonRetry) == (d, m')
    ensures Executes(cfg, d, m', last, d', end)
    ensures !CommitSafe(cfg, d') && end.loop == Stopped && end.queue == [] && end.batch == []
    ensures CanLose(cfg, Alone(d, m'))
  {
    BeforeTheStop(cfg, d, m);
    end := AfterTheStop(cfg, d, m', last, d');
    CommittedPastFirst();
    ForgetlessFlush(last);
    RunLoses(cfg, d, m', last, d', end);
  }

  lemma BeforeTheStop(cfg: Config, d: Durable, m: Member)
    requires cfg == TwoRecords() && d == EMPTY_TABLE && m == MidRetry()
    ensures Reachable(cfg, Alone(d, m))
  {
    var queued, first := QueueingEvents(cfg, d);
    var then' := FlushingEvents(cfg, d, queued, m);
    MidRetryIsReached(cfg, d, queued, m, first, then');
  }

  lemma QueueingEvents(cfg: Config, d: Durable) returns (queued: Member, events: seq<Event>)
    requires cfg == TwoRecords() && d == EMPTY_TABLE
    ensures queued == Queued() && Forgetless(events) && Executes(cfg, d, FRESH_MEMBER, events, d, queued)
  {
    QueueingLeads();
    queued, events := Queued(), Queueing();
  }

  lemma FlushingEvents(cfg: Config, d: Durable, queued: Member, m: Member) returns (events: seq<Event>)
    requires cfg == TwoRecords() && d == EMPTY_TABLE && queued == Queued() && m == MidRetry()
    ensures Forgetless(events) && Executes(cfg, d, queued, events, d, m)
  {
    FlushingFirstLeads();
    events := FlushingFirst();
  }

  lemma AfterTheStop(cfg: Config, d: Durable, m': Member, last: seq<Event>, d': Durable) returns (end: Member)
    requires cfg == TwoRecords() && d == EMPTY_TABLE && d' == OnlySecond() && m' == AfterGivingUp() && last == LastFlush()
    ensures Executes(cfg, d, m', last, d', end) && end.loop == Stopped && end.queue == [] && end.batch == []
  {
    end := LastFlushLeads();
  }

  lemma ForgetlessFlush(last: seq<Event>)
    requires last == LastFlush()
    ensures Forgetless(last)
  {
  }
}
