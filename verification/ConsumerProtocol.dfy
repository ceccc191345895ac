/**
  The writer's consume / batch / insert / commit protocol as a step system.

  A group of writer processes shares one topic, one spans table and one set of
  committed offsets.  Inside a process, `fetchLoop`, `batchLoop` and the
  rebalance callbacks interleave freely; every atomic action of theirs is an
  `Event`.  `Enabled` says when it may happen and `Apply` what it does.
 */
module ConsumerProtocol {

  /** One Kafka record; `decodable` is what `spanrow.Decode` says of its value. */
  datatype Record = Record(partition: nat, offset: nat, decodable: bool)

  /** `log` is the topic's whole history, past and future. */
  datatype Config = Config(log: iset<Record>, queueCapacity: nat, maxBatchSize: int)

  /** What outlives a process: the rows in the table and the group's offsets. */
  datatype Durable = Durable(inserted: set<Record>, committed: map<nat, nat>)

  datatype Flusher = Loop | Callback

  datatype Phase = Locked | Inserting(rows: seq<Record>) | Inserted(rows: seq<Record>)

  /** `flushMu`, with how far its holder has come inside `flush`. */
  datatype Mutex = Free | Held(owner: Flusher, phase: Phase)

  /** Where `batchLoop` stands; `final` marks the flush after cancellation. */
  datatype BatchLoop = Selecting | Adding(item: Record) | Flushing(final: bool) | Stopped

  /** One process; `position` maps each assigned partition to its next fetch offset. */
  datatype Member = Member(
    position: map<nat, nat>, poll: seq<Record>, queue: seq<Record>, loop: BatchLoop,
    batch: seq<Record>, mutex: Mutex, cancelled: bool)

  datatype Event =
    | Assign(partition: nat)
    | Unassign(partition: nat)
    | Poll(chunk: seq<Record>, position: map<nat, nat>)
    | SkipUndecodable
    | Push
    | Handoff
    | Receive
    | Add
    | Tick
    | Cancel
    | NoticeCancel
    | Lock(owner: Flusher)
    | Drain
    | InsertFail(landed: set<Record>)
    | InsertOk
    | CommitOk
    | CommitFail
    | Crash
      // The three events that forget records while later ones stay in the pipeline.
    | AbandonRetry
    | LosePartitions
    | AbandonPush
  {
    predicate Lossy() {
      AbandonRetry? || LosePartitions? || AbandonPush?
    }
  }

  const FRESH_MEMBER := Member(map[], [], [], Selecting, [], Free, false)

  function CommittedAt(committed: map<nat, nat>, partition: nat): nat {
    if partition in committed then committed[partition] else 0
  }

  /** `CommitRecords`: per partition, one past the largest offset given. */
  function CommitOffsets(rows: seq<Record>): map<nat, nat> {
    if rows == [] then map[]
    else
      var before := CommitOffsets(rows[..|rows| - 1]);
      var r := rows[|rows| - 1];
      var next := r.offset + 1;
      before[r.partition := if next > CommittedAt(before, r.partition) then next else CommittedAt(before, r.partition)]
  }

  function Unlocked(m: Member): Member
    requires m.mutex.Held?
  {
    m.(mutex := Free,
       loop := if m.mutex.owner.Loop? && m.loop.Flushing? then if m.loop.final then Stopped else Selecting else m.loop)
  }

  /** One poll: for every partition, exactly the log's records between the old and the new position, in order. */
  ghost predicate Fetched(log: iset<Record>, from: map<nat, nat>, to: map<nat, nat>, chunk: seq<Record>) {
    && to.Keys == from.Keys
    && (forall p :: p in from ==> from[p] <= to[p])
    && (forall r :: r in chunk <==> r in log && r.partition in from && from[r.partition] <= r.offset < to[r.partition])
    && (forall i, j :: 0 <= i < j < |chunk| && chunk[i].partition == chunk[j].partition ==> chunk[i].offset < chunk[j].offset)
  }

  ghost predicate Enabled(cfg: Config, d: Durable, m: Member, e: Event) {
    match e
    case Assign(p) => true
    case Unassign(p) => p in m.position
    case Poll(chunk, position) => m.poll == [] && !m.cancelled && Fetched(cfg.log, m.position, position, chunk)
    case SkipUndecodable => m.poll != [] && !m.poll[0].decodable
    case Push => m.poll != [] && m.poll[0].decodable && |m.queue| < cfg.queueCapacity
    case Handoff => m.poll != [] && m.poll[0].decodable && m.queue == [] && m.loop.Selecting?
    case Receive => m.queue != [] && m.loop.Selecting?
    case Add => m.loop.Adding?
    case Tick => m.loop.Selecting? && m.batch != []
    case Cancel => true
    case NoticeCancel => m.cancelled && m.loop.Selecting?
    case Lock(owner) => m.mutex.Free? && (owner.Loop? ==> m.loop.Flushing?)
    case Drain => m.mutex.Held? && m.mutex.phase.Locked?
    case InsertFail(landed) => m.mutex.Held? && m.mutex.phase.Inserting? && forall r :: r in landed ==> r in m.mutex.phase.rows
    case InsertOk => m.mutex.Held? && m.mutex.phase.Inserting?
    case CommitOk => m.mutex.Held? && m.mutex.phase.Inserted?
    case CommitFail => m.mutex.Held? && m.mutex.phase.Inserted?
    case Crash => true
    case AbandonRetry =>
      m.cancelled && m.mutex.Held? && m.mutex.phase.Inserting? && !(m.mutex.owner.Loop? && m.loop == Flushing(true))
    case LosePartitions => m.mutex.Free?
    case AbandonPush => m.cancelled && m.poll != [] && m.poll[0].decodable
  }

  /** What the event does to the process. */
  ghost function ApplyTo(cfg: Config, d: Durable, m: Member, e: Event): Member
    requires Enabled(cfg, d, m, e)
  {
    match e
    case Assign(p) => m.(position := m.position[p := CommittedAt(d.committed, p)])
    case Unassign(p) => m.(position := m.position - {p})
    case Poll(chunk, position) => m.(poll := chunk, position := position)
    case SkipUndecodable => m.(poll := m.poll[1..])
    case Push => m.(poll := m.poll[1..], queue := m.queue + [m.poll[0]])
    case Handoff => m.(poll := m.poll[1..], loop := Adding(m.poll[0]))
    case Receive => m.(queue := m.queue[1..], loop := Adding(m.queue[0]))
    case Add =>
      var batch := m.batch + [m.loop.item];
      m.(batch := batch, loop := if |batch| >= cfg.maxBatchSize then Flushing(false) else Selecting)
    case Tick => m.(loop := Flushing(false))
    case Cancel => m.(cancelled := true)
    case NoticeCancel => m.(loop := Flushing(true))
    case Lock(owner) => m.(mutex := Held(owner, Locked))
    case Drain => if m.batch == [] then Unlocked(m) else m.(batch := [], mutex := Held(m.mutex.owner, Inserting(m.batch)))
    case InsertFail(landed) => m
    case InsertOk => m.(mutex := Held(m.mutex.owner, Inserted(m.mutex.phase.rows)))
    case CommitOk => Unlocked(m)
    case CommitFail => Unlocked(m)
    case Crash => FRESH_MEMBER
    case AbandonRetry => Unlocked(m)
    case LosePartitions => m.(batch := [], position := map[])
    case AbandonPush => m.(poll := m.poll[1..])
  }

  /** What it does to the table and the group's offsets. */
  ghost function Persist(cfg: Config, d: Durable, m: Member, e: Event): Durable
    requires Enabled(cfg, d, m, e)
  {
    match e
    case InsertFail(landed) => d.(inserted := d.inserted + landed)
    case InsertOk => d.(inserted := d.inserted + Elems(m.mutex.phase.rows))
    case CommitOk => d.(committed := d.committed + CommitOffsets(m.mutex.phase.rows))
    case _ => d
  }

  ghost function Apply(cfg: Config, d: Durable, m: Member, e: Event): (Durable, Member)
    requires Enabled(cfg, d, m, e)
  {
    (Persist(cfg, d, m, e), ApplyTo(cfg, d, m, e))
  }

  // ----- The group, and its runs -----

  datatype Group = Group(durable: Durable, members: map<nat, Member>)

  ghost predicate Next(cfg: Config, g: Group, g': Group, who: nat, e: Event) {
    && who in g.members
    && Enabled(cfg, g.durable, g.members[who], e)
    && g' == Group(Persist(cfg, g.durable, g.members[who], e), g.members[who := ApplyTo(cfg, g.durable, g.members[who], e)])
  }

  /** A finite run of the group; a lossless one has no event that forgets a record. */
  ghost predicate Run(cfg: Config, run: seq<Group>, lossless: bool) {
    && run != []
    && forall k :: 0 < k < |run| ==> Step(cfg, run[k - 1], run[k], lossless)
  }

  ghost predicate Step(cfg: Config, g: Group, g': Group, lossless: bool) {
    exists who, e :: Next(cfg, g, g', who, e) && (lossless ==> !e.Lossy())
  }

  ghost predicate Initial(g: Group) {
    && g.durable == Durable({}, map[])
    && forall who :: who in g.members ==> g.members[who] == FRESH_MEMBER
  }

  // ----- What one process does, event by event -----

  /** The events, one after the other, are possible and lead from the first state to the second. */
  ghost predicate Executes(cfg: Config, d: Durable, m: Member, events: seq<Event>, d': Durable, m': Member)
    decreases |events|
  {
    if events == [] then
      d == d' && m == m'
    else
      && Enabled(cfg, d, m, events[0])
      && var (d1, m1) := Apply(cfg, d, m, events[0]);
         Executes(cfg, d1, m1, events[1..], d', m')
  }

  lemma {:induction false} ExecutesThen(
    cfg: Config, d: Durable, m: Member, first: seq<Event>, d1: Durable, m1: Member, then': seq<Event>, d2: Durable, m2: Member)
    requires Executes(cfg, d, m, first, d1, m1) && Executes(cfg, d1, m1, then', d2, m2)
    ensures Executes(cfg, d, m, first + then', d2, m2)
    decreases |first|
  {
    if first == [] {
      assert first + then' == then';
    } else {
      var (d0, m0) := Apply(cfg, d, m, first[0]);
      ExecutesThen(cfg, d0, m0, first[1..], d1, m1, then', d2, m2);
      assert (first + then')[1..] == first[1..] + then';
    }
  }

  lemma ExecutesOne(cfg: Config, d: Durable, m: Member, e: Event)
    requires Enabled(cfg, d, m, e)
    ensures var (d', m') := Apply(cfg, d, m, e); Executes(cfg, d, m, [e], d', m')
  {
    var (d', m') := Apply(cfg, d, m, e);
    assert [e][1..] == [] && Executes(cfg, d', m', [], d', m');
  }

  ghost predicate Forgetless(events: seq<Event>) {
    forall e :: e in events ==> !e.Lossy()
  }

  /** The at-least-once contract: whatever a commit has passed is in the table. */
  ghost predicate CommitSafe(cfg: Config, d: Durable) {
    forall r :: r in cfg.log && r.decodable && r.offset < CommittedAt(d.committed, r.partition) ==> r in d.inserted
  }

  // ----- The pipeline of one process -----

  function Elems(s: seq<Record>): set<Record> {
    set r | r in s
  }

  function InFlight(m: Member): seq<Record> {
    if m.mutex.Held? && m.mutex.phase.Inserting? then m.mutex.phase.rows else []
  }

  /** What is still upstream of the batch, oldest first. */
  function Upstream(m: Member): seq<Record> {
    (if m.loop.Adding? then [m.loop.item] else []) + m.queue + m.poll
  }

  /** Everything inserted, or certain to be inserted before the (k+1)-th upstream record is committed. */
  function Ahead(d: Durable, m: Member, k: nat): set<Record>
    requires k <= |Upstream(m)|
  {
    d.inserted + Elems(InFlight(m)) + Elems(m.batch) + Elems(Upstream(m)[..k])
  }

  /** Every decodable record of r's partition up to r is in `have`. */
  ghost predicate Covered(log: iset<Record>, r: Record, have: set<Record>) {
    forall q :: q in log && q.decodable && q.partition == r.partition && q.offset <= r.offset ==> q in have
  }

  /** `batchLoop` may still take records from the queue. */
  predicate Draining(m: Member) {
    !m.loop.Stopped? && m.loop != Flushing(true)
  }

  ghost predicate UpstreamCovered(cfg: Config, d: Durable, m: Member) {
    forall i :: 0 <= i < |Upstream(m)| && Upstream(m)[i].decodable ==> Covered(cfg.log, Upstream(m)[i], Ahead(d, m, i + 1))
  }

  ghost predicate BatchCovered(cfg: Config, d: Durable, m: Member) {
    forall r :: r in m.batch ==> Covered(cfg.log, r, d.inserted + Elems(InFlight(m)) + Elems(m.batch))
  }

  ghost predicate FlightCovered(cfg: Config, d: Durable, m: Member) {
    && (forall r :: r in InFlight(m) ==> Covered(cfg.log, r, d.inserted + Elems(InFlight(m))))
    && (m.mutex.Held? && m.mutex.phase.Inserted? ==>
          forall r :: r in m.mutex.phase.rows ==> Covered(cfg.log, r, d.inserted))
  }

  ghost predicate PositionCovered(cfg: Config, d: Durable, m: Member) {
    forall q :: q in cfg.log && q.decodable && q.partition in m.position && q.offset < m.position[q.partition] ==>
                  q in Ahead(d, m, |Upstream(m)|)
  }

  /** Nothing can be committed before what precedes it in its partition. */
  ghost predicate Gapless(cfg: Config, d: Durable, m: Member) {
    && (m.loop.Adding? ==> m.loop.item.decodable)
    && (forall r :: r in m.queue ==> r.decodable)
    && FlightCovered(cfg, d, m)
    && BatchCovered(cfg, d, m)
    && (Draining(m) ==> UpstreamCovered(cfg, d, m))
    && (!m.cancelled ==> Draining(m) && PositionCovered(cfg, d, m))
  }

  ghost predicate Inv(cfg: Config, g: Group) {
    && CommitSafe(cfg, g.durable)
    && forall who :: who in g.members ==> Gapless(cfg, g.durable, g.members[who])
  }

  // ----- CommitRecords -----

  lemma {:induction false} CommitOffsetsAreOnePastTheLargest(rows: seq<Record>, p: nat)
    ensures p in CommitOffsets(rows) <==> exists r :: r in rows && r.partition == p
    ensures p in CommitOffsets(rows) ==> exists r :: r in rows && r.partition == p && CommitOffsets(rows)[p] == r.offset + 1
    ensures forall r :: r in rows && r.partition == p ==> r.offset < CommitOffsets(rows)[p]
  {
    if rows == [] {
    } else {
      var init := rows[..|rows| - 1];
      var last := rows[|rows| - 1];
      assert rows == init + [last];
      CommitOffsetsAreOnePastTheLargest(init, p);
      if p in CommitOffsets(rows) {
        if p == last.partition && !(p in CommitOffsets(init) && CommitOffsets(init)[p] > last.offset + 1) {
          assert last in rows && CommitOffsets(rows)[p] == last.offset + 1;
        } else {
          var r :| r in init && r.partition == p && CommitOffsets(init)[p] == r.offset + 1;
          assert r in rows && CommitOffsets(rows)[p] == r.offset + 1;
        }
      }
    }
  }

  // ----- Each event keeps the invariant -----

  /** More rows in the table never hurt a process. */
  lemma GaplessGrows(cfg: Config, d: Durable, d': Durable, m: Member)
    requires Gapless(cfg, d, m) && d.inserted <= d'.inserted
    ensures Gapless(cfg, d', m)
  {
    assert forall k | 0 <= k <= |Upstream(m)| :: Ahead(d, m, k) <= Ahead(d', m, k);
  }

  /** Adding takes the oldest upstream record into the batch and leaves what is ahead of the others alone. */
  lemma AddAdvances(cfg: Config, d: Durable, m: Member, i: nat)
    requires m.loop.Adding? && i < |Upstream(m)|
    ensures var m' := ApplyTo(cfg, d, m, Add);
            && Upstream(m) == [m.loop.item] + Upstream(m')
            && Ahead(d, m, i + 1) == Ahead(d, m', i)
  {
    var m' := ApplyTo(cfg, d, m, Add);
    assert Upstream(m) == [m.loop.item] + Upstream(m');
    assert Upstream(m)[..i + 1] == [m.loop.item] + Upstream(m')[..i];
  }

  lemma AddKeepsGapless(cfg: Config, d: Durable, m: Member)
    requires Gapless(cfg, d, m) && Enabled(cfg, d, m, Add)
    ensures Gapless(cfg, d, ApplyTo(cfg, d, m, Add))
  {
    var m' := ApplyTo(cfg, d, m, Add);
    var u, u' := Upstream(m), Upstream(m');
    AddAdvances(cfg, d, m, 0);
    assert InFlight(m') == InFlight(m) && FlightCovered(cfg, d, m');
    assert Covered(cfg.log, u[0], Ahead(d, m, 1));
    assert Ahead(d, m', 0) == d.inserted + Elems(InFlight(m')) + Elems(m'.batch);
    assert BatchCovered(cfg, d, m');
    forall i | 0 <= i < |u'| && u'[i].decodable
      ensures Covered(cfg.log, u'[i], Ahead(d, m', i + 1))
    {
      AddAdvances(cfg, d, m, i + 1);
      assert u[i + 1] == u'[i];
    }
    AddAdvances(cfg, d, m, |u'|);
    assert Ahead(d, m, |u|) == Ahead(d, m', |u'|);
  }

  /** A skipped record leaves the others where they were; `k` counts upstream records after the skip. */
  lemma SkipShiftsUpstream(m: Member, k: nat)
    requires m.poll != [] && k <= |Upstream(m)| - 1
    ensures var u, u', at := Upstream(m), Upstream(m.(poll := m.poll[1..])), |Upstream(m)| - |m.poll|;
            && |u'| == |u| - 1
            && (k < |u'| ==> u'[k] == u[if k < at then k else k + 1])
            && Elems(u[..if k <= at then k else k + 1]) <= Elems(u'[..k]) + {m.poll[0]}
  {
    var u, u', at := Upstream(m), Upstream(m.(poll := m.poll[1..])), |Upstream(m)| - |m.poll|;
    assert u == u'[..at] + [m.poll[0]] + u'[at..];
    if k <= at {
      assert u'[..k] == u[..k];
    } else {
      assert u[..k + 1] == u'[..at] + [m.poll[0]] + u'[at..k];
      assert u'[..k] == u'[..at] + u'[at..k];
    }
  }

  lemma SkipKeepsUpstreamCovered(cfg: Config, d: Durable, m: Member, i: nat)
    requires Enabled(cfg, d, m, SkipUndecodable) && UpstreamCovered(cfg, d, m)
    requires i < |Upstream(m)| - 1
    ensures var m' := m.(poll := m.poll[1..]);
            Upstream(m')[i].decodable ==> Covered(cfg.log, Upstream(m')[i], Ahead(d, m', i + 1))
  {
    var m' := m.(poll := m.poll[1..]);
    SkipShiftsUpstream(m, i);
    SkipShiftsUpstream(m, i + 1);
    var u, u' := Upstream(m), Upstream(m');
    var j := if i < |u| - |m.poll| then i else i + 1;
    if u'[i].decodable {
      assert InFlight(m') == InFlight(m);
      assert Elems(u[..j + 1]) <= Elems(u'[..i + 1]) + {m.poll[0]};
      assert Covered(cfg.log, u[j], Ahead(d, m, j + 1));
    }
  }

  lemma SkipKeepsPosition(cfg: Config, d: Durable, m: Member)
    requires Enabled(cfg, d, m, SkipUndecodable) && PositionCovered(cfg, d, m)
    ensures PositionCovered(cfg, d, m.(poll := m.poll[1..]))
  {
    var m' := m.(poll := m.poll[1..]);
    SkipShiftsUpstream(m, |Upstream(m')|);
    assert InFlight(m') == InFlight(m);
    assert Ahead(d, m, |Upstream(m)|) <= Ahead(d, m', |Upstream(m')|) + {m.poll[0]};
  }

  lemma SkipKeepsGapless(cfg: Config, d: Durable, m: Member)
    requires Gapless(cfg, d, m) && Enabled(cfg, d, m, SkipUndecodable)
    ensures Gapless(cfg, d, ApplyTo(cfg, d, m, SkipUndecodable))
  {
    var m' := m.(poll := m.poll[1..]);
    if Draining(m) {
      forall i | 0 <= i < |Upstream(m')| && Upstream(m')[i].decodable
        ensures Covered(cfg.log, Upstream(m')[i], Ahead(d, m', i + 1))
      {
        SkipShiftsUpstream(m, i);
        SkipKeepsUpstreamCovered(cfg, d, m, i);
      }
    }
    if !m.cancelled {
      SkipKeepsPosition(cfg, d, m);
    }
    assert InFlight(m') == InFlight(m) && FlightCovered(cfg, d, m') && BatchCovered(cfg, d, m');
  }

  lemma PushKeepsUpstream(cfg: Config, d: Durable, m: Member)
    requires Enabled(cfg, d, m, Push)
    ensures Upstream(ApplyTo(cfg, d, m, Push)) == Upstream(m)
  {
    HeadMovesOn(if m.loop.Adding? then [m.loop.item] else [], m.queue, m.poll);
  }

  lemma ReceiveKeepsUpstream(cfg: Config, d: Durable, m: Member, e: Event)
    requires Enabled(cfg, d, m, e) && (e.Handoff? || e.Receive?)
    ensures Upstream(ApplyTo(cfg, d, m, e)) == Upstream(m)
  {
    HeadMovesOn([], [], if e.Handoff? then m.poll else m.queue);
  }

  /** The queue only hands records on. */
  lemma QueueKeepsUpstream(cfg: Config, d: Durable, m: Member, e: Event)
    requires Enabled(cfg, d, m, e) && (e.Push? || e.Handoff? || e.Receive?)
    ensures var m' := ApplyTo(cfg, d, m, e);
            Upstream(m') == Upstream(m) && InFlight(m') == InFlight(m) && m'.batch == m.batch && Draining(m') == Draining(m)
  {
    if e.Push? {
      PushKeepsUpstream(cfg, d, m);
    } else {
      ReceiveKeepsUpstream(cfg, d, m, e);
    }
  }

  lemma HeadMovesOn(a: seq<Record>, b: seq<Record>, c: seq<Record>)
    requires c != []
    ensures a + (b + [c[0]]) + c[1..] == a + b + c
    ensures [c[0]] + c[1..] == c && [c[0]] + [] + c[1..] == c
  {
  }

  lemma QueueKeepsGapless(cfg: Config, d: Durable, m: Member, e: Event)
    requires Gapless(cfg, d, m) && Enabled(cfg, d, m, e) && (e.Push? || e.Handoff? || e.Receive?)
    ensures Gapless(cfg, d, ApplyTo(cfg, d, m, e))
  {
    var m' := ApplyTo(cfg, d, m, e);
    QueueKeepsUpstream(cfg, d, m, e);
    assert FlightCovered(cfg, d, m') && BatchCovered(cfg, d, m');
    assert forall k | 0 <= k <= |Upstream(m)| :: Ahead(d, m, k) == Ahead(d, m', k);
  }

  lemma PollKeepsGapless(cfg: Config, d: Durable, m: Member, e: Event)
    requires Gapless(cfg, d, m) && Enabled(cfg, d, m, e) && e.Poll?
    ensures Gapless(cfg, d, ApplyTo(cfg, d, m, e))
  {
    var m' := ApplyTo(cfg, d, m, e);
    var u, u' := Upstream(m), Upstream(m');
    assert InFlight(m') == InFlight(m) && m.loop == m'.loop;
    assert u' == u + e.chunk;
    var all := Ahead(d, m, |u|);
    forall i | 0 <= i < |u'| && u'[i].decodable
      ensures Covered(cfg.log, u'[i], Ahead(d, m', i + 1))
    {
      if i < |u| {
        assert u'[..i + 1] == u[..i + 1];
      } else {
        assert u'[..i + 1] == u + e.chunk[..i + 1 - |u|];
        forall q | q in cfg.log && q.decodable && q.partition == u'[i].partition && q.offset <= u'[i].offset
          ensures q in Ahead(d, m', i + 1)
        {
          if q.offset < m.position[q.partition] {
            assert q in all;
            assert u[..|u|] == u;
          } else {
            var j :| 0 <= j < |e.chunk| && e.chunk[j] == q;
          }
        }
      }
    }
    assert PositionCovered(cfg, d, m') by {
      assert u'[..|u'|] == u' && u[..|u|] == u;
    }
  }

  /** Draining, inserting and committing move records on, and leave what is ahead of the upstream ones alone. */
  lemma FlushKeepsAhead(cfg: Config, d: Durable, m: Member, e: Event)
    requires Enabled(cfg, d, m, e)
    requires e.Lock? || e.Drain? || e.InsertOk? || (Gapless(cfg, d, m) && (e.CommitOk? || e.CommitFail?))
    ensures var (d', m') := Apply(cfg, d, m, e);
            && Upstream(m') == Upstream(m)
            && d'.inserted + Elems(InFlight(m')) + Elems(m'.batch) == d.inserted + Elems(InFlight(m)) + Elems(m.batch)
  {
  }

  lemma FlushKeepsGapless(cfg: Config, d: Durable, m: Member, e: Event)
    requires Gapless(cfg, d, m) && Enabled(cfg, d, m, e)
    requires e.Lock? || e.Drain? || e.InsertFail? || e.InsertOk? || e.CommitOk? || e.CommitFail?
    ensures var (d', m') := Apply(cfg, d, m, e); Gapless(cfg, d', m')
  {
    var (d', m') := Apply(cfg, d, m, e);
    if e.InsertFail? {
      GaplessGrows(cfg, d, d', m);
    } else {
      FlushKeepsAhead(cfg, d, m, e);
      assert forall k | 0 <= k <= |Upstream(m)| :: Ahead(d', m', k) == Ahead(d, m, k);
      FlushKeepsCovered(cfg, d, m, e);
    }
  }

  lemma FlushKeepsCovered(cfg: Config, d: Durable, m: Member, e: Event)
    requires FlightCovered(cfg, d, m) && BatchCovered(cfg, d, m) && Enabled(cfg, d, m, e)
    requires e.Lock? || e.Drain? || e.InsertOk? || e.CommitOk? || e.CommitFail?
    ensures var (d', m') := Apply(cfg, d, m, e); FlightCovered(cfg, d', m') && BatchCovered(cfg, d', m')
  {
    var (d', m') := Apply(cfg, d, m, e);
    if e.InsertOk? {
      assert InFlight(m) == m.mutex.phase.rows && d'.inserted == d.inserted + Elems(InFlight(m));
    }
  }

  /** The whole of one process: no event but the three lossy ones opens a gap. */
  lemma LosslessKeepsGapless(cfg: Config, d: Durable, m: Member, e: Event)
    requires CommitSafe(cfg, d)
    requires Gapless(cfg, d, m) && Enabled(cfg, d, m, e) && !e.Lossy()
    ensures var (d', m') := Apply(cfg, d, m, e); Gapless(cfg, d', m') && d.inserted <= d'.inserted
  {
    if e.Add? {
      AddKeepsGapless(cfg, d, m);
    } else if e.SkipUndecodable? {
      SkipKeepsGapless(cfg, d, m);
    } else if e.Push? || e.Handoff? || e.Receive? {
      QueueKeepsGapless(cfg, d, m, e);
    } else if e.Poll? {
      PollKeepsGapless(cfg, d, m, e);
    } else if e.Lock? || e.Drain? || e.InsertFail? || e.InsertOk? || e.CommitOk? || e.CommitFail? {
      FlushKeepsGapless(cfg, d, m, e);
    } else {
      var (d', m') := Apply(cfg, d, m, e);
      assert e.Crash? || (Upstream(m') == Upstream(m) && InFlight(m') == InFlight(m));
      assert FlightCovered(cfg, d', m') && BatchCovered(cfg, d', m');
    }
  }

  /** A commit only ever covers rows of an insert that succeeded. */
  lemma CommitKeepsSafe(cfg: Config, d: Durable, m: Member, e: Event)
    requires CommitSafe(cfg, d) && Gapless(cfg, d, m) && Enabled(cfg, d, m, e)
    ensures CommitSafe(cfg, Persist(cfg, d, m, e))
  {
    var d' := Persist(cfg, d, m, e);
    if e.CommitOk? {
      var rows := m.mutex.phase.rows;
      forall q | q in cfg.log && q.decodable && q.offset < CommittedAt(d'.committed, q.partition)
        ensures q in d'.inserted
      {
        CommitOffsetsAreOnePastTheLargest(rows, q.partition);
        if q.partition in CommitOffsets(rows) {
          var r :| r in rows && r.partition == q.partition && CommitOffsets(rows)[q.partition] == r.offset + 1;
          assert Covered(cfg.log, r, d.inserted);
        }
      }
    }
  }

  lemma StepKeepsInv(cfg: Config, g: Group, g': Group, who: nat, e: Event)
    requires Inv(cfg, g) && Next(cfg, g, g', who, e) && !e.Lossy()
    ensures Inv(cfg, g')
  {
    var m := g.members[who];
    CommitKeepsSafe(cfg, g.durable, m, e);
    LosslessKeepsGapless(cfg, g.durable, m, e);
    forall other | other in g'.members && other != who
      ensures Gapless(cfg, g'.durable, g'.members[other])
    {
      GaplessGrows(cfg, g.durable, g'.durable, g.members[other]);
    }
  }

  // ----- Whole runs -----

  lemma {:induction false} LosslessRunKeepsInv(cfg: Config, run: seq<Group>, k: nat)
    requires Run(cfg, run, true) && Inv(cfg, run[0]) && k < |run|
    ensures Inv(cfg, run[k])
  {
    if k > 0 {
      LosslessRunKeepsInv(cfg, run, k - 1);
      assert Step(cfg, run[k - 1], run[k], true);
      var who, e :| Next(cfg, run[k - 1], run[k], who, e) && !e.Lossy();
      StepKeepsInv(cfg, run[k - 1], run[k], who, e);
    }
  }

  /** Main theorem: at no point of any interleaving has a commit passed a record that is not in the table. */
  lemma LosslessRunIsCommitSafe(cfg: Config, run: seq<Group>)
    requires Run(cfg, run, true) && Initial(run[0])
    ensures forall k :: 0 <= k < |run| ==> CommitSafe(cfg, run[k].durable)
  {
    forall k | 0 <= k < |run|
      ensures CommitSafe(cfg, run[k].durable)
    {
      LosslessRunKeepsInv(cfg, run, k);
    }
  }

  // ----- Backpressure -----

  function BatchBound(cfg: Config): nat {
    if cfg.maxBatchSize > 1 then cfg.maxBatchSize else 1
  }

  /** Records that have left the broker's poll and are not yet in the table. */
  function Buffered(m: Member): nat {
    |InFlight(m)| + |m.batch| + (if m.loop.Adding? then 1 else 0) + |m.queue|
  }

  predicate Bounded(cfg: Config, m: Member) {
    && |m.queue| <= cfg.queueCapacity
    && |InFlight(m)| <= BatchBound(cfg)
    && |m.batch| <= BatchBound(cfg)
    && (m.loop.Selecting? || m.loop.Adding? ==> |m.batch| < BatchBound(cfg))
    && (m.mutex.Held? && m.mutex.owner.Loop? ==> m.loop.Flushing? && (m.mutex.phase.Locked? || m.batch == []))
  }

  lemma EventKeepsBounded(cfg: Config, d: Durable, m: Member, e: Event)
    requires Bounded(cfg, m) && Enabled(cfg, d, m, e)
    ensures Bounded(cfg, ApplyTo(cfg, d, m, e))
  {
  }

  /**
    However long inserts keep failing, and whatever else happens, a process holds no more than
    the queue and two batches on top of its current poll.
   */
  lemma {:induction false} RunIsBounded(cfg: Config, run: seq<Group>, k: nat)
    requires Run(cfg, run, false) && Initial(run[0]) && k < |run|
    ensures forall who :: who in run[k].members ==>
                            && Bounded(cfg, run[k].members[who])
                            && Buffered(run[k].members[who]) <= cfg.queueCapacity + 2 * BatchBound(cfg)
  {
    if k > 0 {
      RunIsBounded(cfg, run, k - 1);
      assert Step(cfg, run[k - 1], run[k], false);
      var who, e :| Next(cfg, run[k - 1], run[k], who, e);
      EventKeepsBounded(cfg, run[k - 1].durable, run[k - 1].members[who], e);
    }
  }
}
