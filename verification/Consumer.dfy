/**
  `writer/internal/consumer`: the goroutines' code, over the real queue and batch.

  Each method is one uninterrupted stretch of a goroutine, with the outside world's answers
  as parameters.  Its contract says that what it does to the process and to the world is
  exactly what a list of protocol events does, so the protocol's theorems hold of this code.
 */
module Consumer {
  import opened BoundedQueue
  import opened Batcher
  import opened ConsumerProtocol

  /** A decoded span; `source` is the record it came from. */
  datatype Row = Row(source: Record)

  /** What an insert of these rows puts into the table. */
  function Sources(rows: seq<Row>): set<Record> {
    set row | row in rows :: row.source
  }

  lemma PairedSources(rows: seq<Row>, records: seq<Record>)
    requires |rows| == |records| && forall i :: 0 <= i < |rows| ==> rows[i].source == records[i]
    ensures Sources(rows) == Elems(records)
  {
    assert forall i | 0 <= i < |rows| :: rows[i].source == records[i] && rows[i] in rows;
  }

  /** How one flush ends, once `failures` inserts have failed. */
  datatype Outcome = Committed | CommitFailed | GaveUp

  class Consumer {
    ghost const cfg: Config
    const queue: Queue<Record>
    const batch: Batch<Row, Record>
    const initialBackoff: nat
    const maxBackoff: nat

    var inserted: set<Record>
    var committed: map<nat, nat>
    var position: map<nat, nat>
    var poll: seq<Record>
    var loop: BatchLoop
    var mutex: Mutex
    var cancelled: bool

    ghost predicate Valid()
      reads this, queue, batch
    {
      && queue.Valid() && batch.Valid()
      && queue.capacity == cfg.queueCapacity
      && batch.maxSize == cfg.maxBatchSize
      && forall i :: 0 <= i < |batch.rows| ==> batch.rows[i].source == batch.records[i]
    }

    ghost function World(): Durable
      reads this
    {
      Durable(inserted, committed)
    }

    ghost function View(): Member
      reads this, queue, batch
    {
      Member(position, poll, queue.items, loop, batch.records, mutex, cancelled)
    }

    /** `New`, before the first poll. */
    constructor (ghost cfg: Config, capacity: nat, maxSize: int, flushAfter: int, initial: nat, max: nat, now: int,
                 inserted: set<Record>, committed: map<nat, nat>)
      requires capacity == cfg.queueCapacity && maxSize == cfg.maxBatchSize
      ensures Valid() && fresh(queue) && fresh(batch) && this.cfg == cfg
      ensures View() == FRESH_MEMBER && World() == Durable(inserted, committed)
    {
      this.cfg := cfg;
      queue := new Queue(capacity);
      batch := new Batch(maxSize, flushAfter, now);
      initialBackoff, maxBackoff := initial, max;
      this.inserted, this.committed := inserted, committed;
      position, poll, loop, mutex, cancelled := map[], [], Selecting, Free, false;
    }

    /**
      One callback of `EachRecord`: decode and push, or skip (which counts as done).  A push may have
      to wait, or may lose against cancellation, and then its error is ignored and the record forgotten.
     */
    method HandleRecord(pickDone: bool) returns (r: PushResult, ghost events: seq<Event>)
      requires Valid() && poll != []
      modifies this`poll, queue
      ensures Valid() && Executes(cfg, old(World()), old(View()), events, World(), View())
      ensures r.Waits? <==> old(poll)[0].decodable && !cancelled && |old(queue.items)| == queue.capacity
      ensures poll == if r.Waits? then old(poll) else old(poll)[1..]
      ensures r.Refused? <==> events == [AbandonPush]
      ensures !r.Refused? ==> Forgetless(events)
    {
      var record := poll[0];
      if !record.decodable {
        poll := poll[1..];
        events := [SkipUndecodable];
        return Queued, events;
      }
      r := queue.Push(record, cancelled, pickDone);
      events := [];
      if r.Queued? {
        poll := poll[1..];
        events := [Push];
      } else if r.Refused? {
        poll := poll[1..];
        events := [AbandonPush];
      }
    }

    /**
      `flush`, called by `owner` with the mutex free.  `failures` inserts fail first, the i-th of
      them with `landed(i)` of its rows in the table all the same.
     */
    method Flush(owner: Flusher, now: int, failures: nat, landed: nat -> set<Record>, end: Outcome)
      returns (ghost events: seq<Event>)
      requires Valid() && mutex.Free? && (owner.Loop? ==> loop.Flushing?)
      requires forall i: nat :: landed(i) <= Elems(batch.records)
      requires end.GaveUp? ==> cancelled && !(owner.Loop? && loop == Flushing(true))
      modifies this`inserted, this`committed, this`loop, this`mutex, batch
      ensures Valid() && Executes(cfg, old(World()), old(View()), events, World(), View())
      ensures !end.GaveUp? ==> Forgetless(events)
      ensures mutex.Free? && batch.records == []
      ensures end.Committed? || end.CommitFailed? ==> Elems(old(batch.records)) <= inserted
      ensures end.Committed? ==> committed == old(committed) + CommitOffsets(old(batch.records))
      ensures !end.Committed? ==> committed == old(committed)
    {
      ghost var d0, m0 := World(), View();
      var rows, records;
      rows, records, events := Begin(owner, now);
      if |rows| == 0 {
        return;
      }
      ghost var d1, m1 := World(), View();
      var waits;
      ghost var tries;
      waits, tries := Insert(rows, failures, landed);
      ExecutesThen(cfg, d0, m0, events, d1, m1, tries, World(), View());
      events := events + tries;
      ghost var d2, m2 := World(), View();
      ghost var rest := Finish(rows, records, end);
      ExecutesThen(cfg, d0, m0, events, d2, m2, rest, World(), View());
      events := events + rest;
    }

    /** Take the mutex and drain; with nothing to flush, let go again. */
    method Begin(owner: Flusher, now: int)
      returns (rows: seq<Row>, records: seq<Record>, ghost events: seq<Event>)
      requires Valid() && mutex.Free? && (owner.Loop? ==> loop.Flushing?)
      modifies this`loop, this`mutex, batch
      ensures Valid() && Executes(cfg, old(World()), old(View()), events, World(), View())
      ensures Forgetless(events)
      ensures rows == old(batch.rows) && records == old(batch.records) && batch.records == []
      ensures Sources(rows) == Elems(records)
      ensures if rows == [] then mutex.Free? else mutex == Held(owner, Inserting(records)) && loop == old(loop)
    {
      ghost var d0, m0 := World(), View();
      mutex := Held(owner, Locked);
      ExecutesOne(cfg, d0, m0, Lock(owner));
      ghost var m1 := View();
      ExecutesOne(cfg, d0, m1, Drain);
      rows, records := batch.Drain(now);
      PairedSources(rows, records);
      if |rows| == 0 {
        assert records == [];
        Unlock();
      } else {
        mutex := Held(owner, Inserting(records));
      }
      ExecutesThen(cfg, d0, m0, [Lock(owner)], d0, m1, [Drain], World(), View());
      events := [Lock(owner)] + [Drain];
    }

    /** How long to wait after the k-th failure: doubling, and capped from the second wait on. */
    function WaitAfter(k: nat): (wait: nat)
      ensures k > 0 ==> wait <= maxBackoff
    {
      if k == 0 then initialBackoff
      else
        var twice := 2 * WaitAfter(k - 1);
        if twice > maxBackoff then maxBackoff else twice
    }

    function Waits(failures: nat): (waits: seq<nat>)
      ensures |waits| == failures && (failures > 0 ==> waits[0] == initialBackoff)
      ensures forall k :: 0 < k < failures ==> waits[k] <= maxBackoff
    {
      if failures == 0 then [] else Waits(failures - 1) + [WaitAfter(failures - 1)]
    }

    lemma {:induction false} WaitsAre(failures: nat, k: nat)
      requires k < failures
      ensures Waits(failures)[k] == WaitAfter(k)
    {
      if k == failures - 1 {
      } else {
        WaitsAre(failures - 1, k);
      }
    }

    /** Each wait is twice the one before it, or the maximum if that is less. */
    lemma WaitsDouble(failures: nat, k: nat)
      requires 0 < k < failures
      ensures var (before, wait) := (Waits(failures)[k - 1], Waits(failures)[k]);
              wait == if 2 * before > maxBackoff then maxBackoff else 2 * before
    {
      WaitsAre(failures, k - 1);
      WaitsAre(failures, k);
    }

    /** The failing rounds of the retry loop, each followed by a wait. */
    method Insert(rows: seq<Row>, failures: nat, landed: nat -> set<Record>)
      returns (waits: seq<nat>, ghost events: seq<Event>)
      requires mutex.Held? && mutex.phase.Inserting? && Sources(rows) == Elems(mutex.phase.rows)
      requires forall i: nat :: landed(i) <= Sources(rows)
      modifies this`inserted
      ensures Executes(cfg, old(World()), old(View()), events, World(), View())
      ensures |events| == failures && Forgetless(events)
      ensures old(inserted) <= inserted
      ensures waits == Waits(failures)
    {
      waits, events := [], [];
      ghost var d0, m0 := World(), View();
      var backoff := initialBackoff;
      var attempt := 0;
      while attempt < failures
        invariant 0 <= attempt <= failures
        invariant Executes(cfg, d0, m0, events, World(), View())
        invariant |events| == attempt && Forgetless(events) && old(inserted) <= inserted
        invariant waits == Waits(attempt) && backoff == WaitAfter(attempt)
      {
        events := FailOnce(landed(attempt), d0, m0, events);
        waits := waits + [backoff];
        backoff := backoff * 2;
        if backoff > maxBackoff {
          backoff := maxBackoff;
        }
        attempt := attempt + 1;
      }
    }

    /** One more insert that reports an error, whatever part of it has landed. */
    method FailOnce(landed: set<Record>, ghost d0: Durable, ghost m0: Member, ghost before: seq<Event>)
      returns (ghost events: seq<Event>)
      requires mutex.Held? && mutex.phase.Inserting? && landed <= Elems(mutex.phase.rows)
      requires Executes(cfg, d0, m0, before, World(), View())
      modifies this`inserted
      ensures Executes(cfg, d0, m0, events, World(), View())
      ensures |events| == |before| + 1 && (Forgetless(before) ==> Forgetless(events))
      ensures inserted == old(inserted) + landed
    {
      ghost var d, m := World(), View();
      inserted := inserted + landed;
      ExecutesOne(cfg, d, m, InsertFail(landed));
      ExecutesThen(cfg, d0, m0, before, d, m, [InsertFail(landed)], World(), View());
      events := before + [InsertFail(landed)];
    }

    /** What follows the failing rounds: give up, or insert and commit. */
    method Finish(rows: seq<Row>, records: seq<Record>, end: Outcome) returns (ghost events: seq<Event>)
      requires mutex.Held? && mutex.phase == Inserting(records) && Sources(rows) == Elems(records)
      requires end.GaveUp? ==> cancelled && !(mutex.owner.Loop? && loop == Flushing(true))
      modifies this`inserted, this`committed, this`loop, this`mutex
      ensures Executes(cfg, old(World()), old(View()), events, World(), View())
      ensures !end.GaveUp? ==> Forgetless(events)
      ensures mutex.Free?
      ensures inserted == if end.GaveUp? then old(inserted) else old(inserted) + Elems(records)
      ensures committed == if end.Committed? then old(committed) + CommitOffsets(records) else old(committed)
    {
      if end.GaveUp? {
        ExecutesOne(cfg, World(), View(), AbandonRetry);
        events := [AbandonRetry];
        Unlock();
        return;
      }
      ghost var d0, m0 := World(), View();
      inserted := inserted + Sources(rows);
      mutex := Held(mutex.owner, Inserted(records));
      ExecutesOne(cfg, d0, m0, InsertOk);
      ghost var d1, m1 := World(), View();
      ghost var last := Commit(records, end.Committed?);
      ExecutesThen(cfg, d0, m0, [InsertOk], d1, m1, [last], World(), View());
      events := [InsertOk] + [last];
    }

    /** `CommitRecords`, which may fail; the rows are in the table either way. */
    method Commit(records: seq<Record>, ok: bool) returns (ghost event: Event)
      requires mutex.Held? && mutex.phase == Inserted(records)
      modifies this`committed, this`loop, this`mutex
      ensures Executes(cfg, old(World()), old(View()), [event], World(), View()) && !event.Lossy()
      ensures mutex.Free?
      ensures committed == if ok then old(committed) + CommitOffsets(records) else old(committed)
    {
      if ok {
        event := CommitOk;
        ExecutesOne(cfg, World(), View(), CommitOk);
        committed := committed + CommitOffsets(records);
      } else {
        event := CommitFail;
        ExecutesOne(cfg, World(), View(), CommitFail);
      }
      Unlock();
    }

    /** The deferred unlock, and the return into `batchLoop` when it is the caller. */
    method Unlock()
      requires mutex.Held?
      modifies this`loop, this`mutex
      ensures View() == Unlocked(old(View()))
    {
      if mutex.owner.Loop? && loop.Flushing? {
        loop := if loop.final then Stopped else Selecting;
      }
      mutex := Free;
    }

    /** `batchLoop`'s receive case, up to the flush it may call for. */
    method TakeItem() returns (ok: bool, ghost events: seq<Event>)
      requires Valid() && loop.Selecting?
      modifies this`loop, queue, batch
      ensures Valid() && Executes(cfg, old(World()), old(View()), events, World(), View())
      ensures ok <==> old(queue.items) != []
      ensures ok ==> batch.records == old(batch.records) + [old(queue.items)[0]]
      ensures loop == if ok && |batch.records| >= batch.maxSize then Flushing(false) else Selecting
    {
      events := [];
      ghost var d0, m0 := World(), View();
      var got;
      ok, got := queue.Receive();
      if ok {
        loop := Adding(got[0]);
        ExecutesOne(cfg, d0, m0, Event.Receive);
        ghost var m1 := View();
        ExecutesOne(cfg, d0, m1, Event.Add);
        var full := batch.Add(Row(got[0]), got[0]);
        loop := if full then Flushing(false) else Selecting;
        ExecutesThen(cfg, d0, m0, [Event.Receive], d0, m1, [Event.Add], World(), View());
        events := [Event.Receive] + [Event.Add];
      }
    }

    /** `batchLoop`'s ticker case. */
    method OnTick(now: int) returns (ghost events: seq<Event>)
      requires Valid() && loop.Selecting?
      modifies this`loop
      ensures Valid() && Executes(cfg, old(World()), old(View()), events, World(), View())
      ensures loop == if batch.rows != [] && now >= batch.since + batch.flushAfter then Flushing(false) else Selecting
    {
      events := [];
      if batch.DueByTime(now) {
        loop := Flushing(false);
        events := [Tick];
      }
    }

    /**
      Ticks and nothing else: a pending row is flushed at the first one that comes at or after the
      end of the interval, an empty batch at none.
     */
    method AwaitFlush(clock: seq<int>) returns (ticks: nat, ghost events: seq<Event>)
      requires Valid() && loop.Selecting?
      modifies this`loop
      ensures Valid() && Executes(cfg, old(World()), old(View()), events, World(), View())
      ensures ticks <= |clock|
      ensures forall i :: 0 <= i < ticks ==> batch.rows == [] || clock[i] < batch.since + batch.flushAfter
      ensures if ticks == |clock| then loop == Selecting
              else loop == Flushing(false) && batch.rows != [] && clock[ticks] >= batch.since + batch.flushAfter
    {
      ticks, events := 0, [];
      while ticks < |clock|
        invariant Valid() && loop.Selecting? && View() == old(View()) && World() == old(World()) && events == []
        invariant ticks <= |clock|
        invariant forall i :: 0 <= i < ticks ==> batch.rows == [] || clock[i] < batch.since + batch.flushAfter
      {
        events := OnTick(clock[ticks]);
        if loop.Flushing? {
          return;
        }
        events := [];
        ticks := ticks + 1;
      }
    }

    /** `batchLoop`'s cancellation case, up to its last flush. */
    method OnDone() returns (ghost events: seq<Event>)
      requires Valid() && loop.Selecting? && cancelled
      modifies this`loop
      ensures Valid() && Executes(cfg, old(World()), old(View()), events, World(), View())
      ensures loop == Flushing(true)
    {
      ExecutesOne(cfg, World(), View(), NoticeCancel);
      loop := Flushing(true);
      events := [NoticeCancel];
    }

    /** `onPartitionsLost`, once it has the mutex. */
    method PartitionsLost(now: int) returns (dropped: nat, ghost events: seq<Event>)
      requires Valid() && mutex.Free?
      modifies this`position, batch
      ensures Valid() && Executes(cfg, old(World()), old(View()), events, World(), View())
      ensures events == [LosePartitions] && dropped == |old(batch.records)|
    {
      events := [LosePartitions];
      ExecutesOne(cfg, World(), View(), LosePartitions);
      var rows, records := batch.Drain(now);
      dropped := |rows|;
      position := map[];
    }
  }

  /** What this code does inside one process, short of forgetting records, keeps the whole group's invariant. */
  lemma {:induction false} ExecutionKeepsInv(cfg: Config, g: Group, who: nat, events: seq<Event>, d: Durable, m: Member)
    requires Inv(cfg, g) && who in g.members
    requires Executes(cfg, g.durable, g.members[who], events, d, m) && Forgetless(events)
    ensures Inv(cfg, Group(d, g.members[who := m]))
    decreases |events|
  {
    if events == [] {
      assert g.members[who := m] == g.members;
    } else {
      var (d1, m1) := Apply(cfg, g.durable, g.members[who], events[0]);
      var g1 := Group(d1, g.members[who := m1]);
      assert Next(cfg, g, g1, who, events[0]);
      StepKeepsInv(cfg, g, g1, who, events[0]);
      ExecutionKeepsInv(cfg, g1, who, events[1..], d, m);
      assert g1.members[who := m] == g.members[who := m];
    }
  }
}
