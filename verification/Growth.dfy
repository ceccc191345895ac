/**
  What `loadgen/internal/topology/generate.go` computes, as a function of the random choices, and
  what that comes to: one tidy subtree whose every call is accounted for.
 */
module Growth {
  import opened Spans
  import opened TracePlan
  import opened CallBook

  datatype State = State(plan: seq<PlannedSpan>, draws: nat, shape: Shape, book: Book)

  /** The loop over one span's calls. */
  datatype Loop = Loop(state: State, offset: int, lastEnd: int, hadChild: bool, r: Result)

  function NewRow(w: World, k: nat, parentId: string, service: string): SpanRow {
    SpanRow(w.traceId, w.newId(k), parentId, service, 0, 0, w.status(k))
  }

  function Pushed(w: World, st: State, service: string, parentId: string, path: set<string>, caller: int): State {
    State(
      st.plan + [PlannedSpan(NewRow(w, |st.plan|, parentId, service), false)], st.draws,
      Shape(st.shape.up + [caller], st.shape.above + [path]), Book(st.book.calls + [[]], st.book.log))
  }

  function Timed(st: State, k: nat, start: int, end: int): State {
    if k < |st.plan| then st.(plan := st.plan[k := st.plan[k].(row := st.plan[k].row.(start := start, end := end))]) else st
  }

  function NextDraw(st: State, k: nat): State {
    st.(draws := st.draws + 1,
        book := Book(st.book.calls, st.book.log + [(k, if k < |st.book.calls| then |st.book.calls[k]| else 0)]))
  }

  function Noted(st: State, k: nat, d: Decision): State {
    if k < |st.book.calls| then st.(book := With(st.book, k, d)) else st
  }

  function Started(w: World, st: State, k: nat, start: int): Loop {
    Loop(st, CALL_OVERHEAD, start, false, Success(w.newId(k), start))
  }

  /** `generateSubtree`. */
  ghost function Grown(w: World, st: State, service: string, parentId: string, start: int, path: set<string>, caller: int)
    : (grown: (State, Result))
    requires service !in path && path <= w.cfg.services
    ensures |grown.0.plan| >= |st.plan|
    decreases w.cfg.services - path, 2, 0
  {
    if service !in w.cfg.services then (st, UnknownService(service))
    else
      var k := |st.plan|;
      var l := CallsFrom(w, Started(w, Pushed(w, st, service, parentId, path, caller), k, start), k, service, start, path, 0);
      if l.r.UnknownService? then (l.state, l.r)
      else
        var end := EndOf(w, l, k, start);
        (Timed(l.state, k, start, end), Success(w.newId(k), end))
  }

  /** After its own latency, or with its last call. */
  function EndOf(w: World, l: Loop, k: nat, start: int): int {
    var end := start + w.latency(k);
    if l.hadChild && l.lastEnd > end then l.lastEnd else end
  }

  /** Its loop, from the c-th configured call on. */
  ghost function CallsFrom(w: World, l: Loop, k: nat, service: string, start: int, path: set<string>, c: nat): (l': Loop)
    requires service in w.cfg.services && service !in path && path <= w.cfg.services && c <= |w.cfg.CalleesOf(service)|
    ensures |l'.state.plan| >= |l.state.plan|
    decreases w.cfg.services - path, 1, |w.cfg.CalleesOf(service)| - c
  {
    if c == |w.cfg.CalleesOf(service)| || l.r.UnknownService? then l
    else CallsFrom(w, NextCall(w, l, k, service, start, path, c), k, service, start, path, c + 1)
  }

  /** One turn of the loop. */
  ghost function NextCall(w: World, l: Loop, k: nat, service: string, start: int, path: set<string>, c: nat): (l': Loop)
    requires service in w.cfg.services && service !in path && path <= w.cfg.services && c < |w.cfg.CalleesOf(service)|
    ensures |l'.state.plan| >= |l.state.plan|
    decreases w.cfg.services - path, 0, 1
  {
    var callee := w.cfg.CalleesOf(service)[c];
    if callee in path + {service} then l
    else
      var st := NextDraw(l.state, k);
      if !w.makesCall(st.draws) then l.(state := Noted(st, k, Decision(c, st.draws, -1)))
      else
        var childStart, n := start + l.offset, |st.plan|;
        var (st', r) := Grown(w, st, callee, w.newId(k), childStart, path + {service}, k);
        if r.UnknownService? then l.(state := st', r := r)
        else Loop(Noted(st', k, Decision(c, st.draws, n)), l.offset + (r.end - childStart) + CALL_GAP, r.end, true, r)
  }

  // ----- Tidy states -----

  predicate Named(w: World, plan: seq<PlannedSpan>) {
    forall j :: 0 <= j < |plan| ==>
      && plan[j].row.spanId == w.newId(j) && plan[j].row.traceId == w.traceId && plan[j].row.status == w.status(j)
      && !plan[j].drop
  }

  ghost predicate Tidy(w: World, st: State) {
    && |st.shape.up| == |st.shape.above| == |st.plan| == |st.book.calls| && |st.book.log| == st.draws
    && Named(w, st.plan) && Configured(w.cfg, st.plan, st.shape)
  }

  /** Only appended to, as far as the first n spans are concerned. */
  ghost predicate Extends(st: State, st': State, n: nat)
    requires n <= |st.plan| && n <= |st.book.calls|
  {
    && st.plan <= st'.plan && st.shape.up <= st'.shape.up && st.shape.above <= st'.shape.above
    && n <= |st'.book.calls| && st'.book.calls[..n] == st.book.calls[..n] && st.book.log <= st'.book.log
  }

  /** The root of what has been grown. */
  ghost predicate IsTop(w: World, st: State, k: nat, service: string, parentId: string, start: int, end: int, path: set<string>, caller: int)
    requires k < |st.plan| && |st.shape.up| == |st.shape.above| == |st.plan|
  {
    && st.plan[k].row == NewRow(w, k, parentId, service).(start := start, end := end)
    && st.shape.up[k] == caller && st.shape.above[k] == path
  }

  ghost predicate MayCall(w: World, st: State, caller: int, service: string) {
    caller < |st.plan| && (caller >= 0 ==> w.cfg.Allows(st.plan[caller].row.service, service))
  }

  lemma PushIsTidy(w: World, st: State, service: string, parentId: string, path: set<string>, caller: int)
    requires Tidy(w, st) && MayCall(w, st, caller, service)
    ensures Tidy(w, Pushed(w, st, service, parentId, path, caller))
  {
    var st' := Pushed(w, st, service, parentId, path, caller);
    ConfiguredOneMore(w.cfg, st.plan, st.shape, st'.plan[|st.plan|], st'.shape);
  }

  lemma TimedIsTidy(w: World, st: State, k: nat, start: int, end: int)
    requires Tidy(w, st) && k < |st.plan|
    ensures Tidy(w, Timed(st, k, start, end))
  {
    ConfiguredStays(w.cfg, st.plan, st.shape, k, st.plan[k].(row := st.plan[k].row.(start := start, end := end)));
  }

  /** The result names the failed service, or there is none to name. */
  ghost predicate Fails(w: World, r: Result) {
    r.UnknownService? ==> r.service !in w.cfg.services && !w.cfg.Valid()
  }

  lemma {:induction false} GrownIsTidy(
    w: World, st: State, service: string, parentId: string, start: int, path: set<string>, caller: int)
    requires service !in path && path <= w.cfg.services && Tidy(w, st) && MayCall(w, st, caller, service)
    ensures var (st', r) := Grown(w, st, service, parentId, start, path, caller);
            && Tidy(w, st') && Extends(st, st', |st.plan|)
            && (r.UnknownService? ==> r.service !in w.cfg.services && (service in w.cfg.services ==> !w.cfg.Valid()))
            && (r.Success? ==>
                  && service in w.cfg.services && r.id == w.newId(|st.plan|) && |st'.plan| > |st.plan|
                  && IsTop(w, st', |st.plan|, service, parentId, start, r.end, path, caller))
    decreases w.cfg.services - path, 2, 0
  {
    if service in w.cfg.services {
      var k := |st.plan|;
      var pushed := Pushed(w, st, service, parentId, path, caller);
      PushIsTidy(w, st, service, parentId, path, caller);
      var l0 := Started(w, pushed, k, start);
      CallsAreTidy(w, l0, k, service, start, path, 0);
      var l := CallsFrom(w, l0, k, service, start, path, 0);
      ExtendsPushed(w, st, service, parentId, path, caller, l.state);
      if l.r.Success? {
        var end := EndOf(w, l, k, start);
        TimedIsTidy(w, l.state, k, start, end);
        TimedTop(w, st, service, parentId, path, caller, l.state, start, end);
      }
    }
  }

  lemma ExtendsPushed(w: World, st: State, service: string, parentId: string, path: set<string>, caller: int, st': State)
    requires Tidy(w, st) && Tidy(w, st') && Extends(Pushed(w, st, service, parentId, path, caller), st', |st.plan|)
    ensures Extends(st, st', |st.plan|) && |st'.plan| > |st.plan|
    ensures IsTop(w, st', |st.plan|, service, parentId, 0, 0, path, caller)
  {
    var pushed := Pushed(w, st, service, parentId, path, caller);
    var k := |st.plan|;
    assert st.plan <= pushed.plan && st.shape.up <= pushed.shape.up && st.shape.above <= pushed.shape.above;
    assert pushed.book.calls[..k] == st.book.calls[..k];
    assert st'.plan[k] == pushed.plan[k] && st'.shape.up[k] == pushed.shape.up[k] && st'.shape.above[k] == pushed.shape.above[k];
  }

  lemma TimedTop(
    w: World, st: State, service: string, parentId: string, path: set<string>, caller: int, st': State, start: int, end: int)
    requires Tidy(w, st) && Tidy(w, st') && Extends(st, st', |st.plan|) && |st'.plan| > |st.plan|
    requires IsTop(w, st', |st.plan|, service, parentId, 0, 0, path, caller)
    ensures Extends(st, Timed(st', |st.plan|, start, end), |st.plan|)
    ensures |Timed(st', |st.plan|, start, end).plan| == |st'.plan|
    ensures IsTop(w, Timed(st', |st.plan|, start, end), |st.plan|, service, parentId, start, end, path, caller)
  {
  }

  /** What the loop relies on of the span whose calls it considers. */
  ghost predicate Considers(w: World, st: State, k: nat, service: string, path: set<string>) {
    && Tidy(w, st) && k < |st.plan| && st.plan[k].row.service == service && st.shape.above[k] == path
  }

  lemma {:induction false} CallsAreTidy(w: World, l: Loop, k: nat, service: string, start: int, path: set<string>, c: nat)
    requires service in w.cfg.services && service !in path && path <= w.cfg.services && c <= |w.cfg.CalleesOf(service)|
    requires Considers(w, l.state, k, service, path) && Fails(w, l.r)
    ensures var l' := CallsFrom(w, l, k, service, start, path, c);
            Considers(w, l'.state, k, service, path) && Extends(l.state, l'.state, k) && Fails(w, l'.r)
    decreases w.cfg.services - path, 1, |w.cfg.CalleesOf(service)| - c
  {
    if c < |w.cfg.CalleesOf(service)| && l.r.Success? {
      NextIsTidy(w, l, k, service, start, path, c);
      CallsAreTidy(w, NextCall(w, l, k, service, start, path, c), k, service, start, path, c + 1);
      ExtendsTwice(l.state, NextCall(w, l, k, service, start, path, c).state, CallsFrom(w, l, k, service, start, path, c).state, k);
    }
  }

  lemma ExtendsTwice(st: State, st': State, st'': State, n: nat)
    requires n <= |st.plan| && n <= |st.book.calls| && Extends(st, st', n) && Extends(st', st'', n)
    ensures Extends(st, st'', n)
  {
  }

  lemma {:induction false} NextIsTidy(w: World, l: Loop, k: nat, service: string, start: int, path: set<string>, c: nat)
    requires service in w.cfg.services && service !in path && path <= w.cfg.services && c < |w.cfg.CalleesOf(service)|
    requires Considers(w, l.state, k, service, path) && l.r.Success?
    ensures var l' := NextCall(w, l, k, service, start, path, c);
            Considers(w, l'.state, k, service, path) && Extends(l.state, l'.state, k) && Fails(w, l'.r)
    decreases w.cfg.services - path, 0, 1
  {
    var callee := w.cfg.CalleesOf(service)[c];
    if callee !in path + {service} {
      var st := NextDraw(l.state, k);
      assert Considers(w, st, k, service, path) && Extends(l.state, st, k);
      if w.makesCall(st.draws) {
        ChildIsTidy(w, st, k, service, start + l.offset, path, callee);
        var (st', r) := Grown(w, st, callee, w.newId(k), start + l.offset, path + {service}, k);
        ExtendsTwice(l.state, st, st', k);
        if r.Success? {
          NotedIsTidy(w, st', k, service, path, Decision(c, st.draws, |st.plan|));
          ExtendsTwice(l.state, st', Noted(st', k, Decision(c, st.draws, |st.plan|)), k);
        }
      } else {
        NotedIsTidy(w, st, k, service, path, Decision(c, st.draws, -1));
        ExtendsTwice(l.state, st, Noted(st, k, Decision(c, st.draws, -1)), k);
      }
    }
  }

  lemma NotedIsTidy(w: World, st: State, k: nat, service: string, path: set<string>, d: Decision)
    requires Considers(w, st, k, service, path)
    ensures Considers(w, Noted(st, k, d), k, service, path) && Extends(st, Noted(st, k, d), k)
  {
  }

  lemma {:induction false} ChildIsTidy(w: World, st: State, k: nat, service: string, childStart: int, path: set<string>, callee: string)
    requires service in w.cfg.services && service !in path && path <= w.cfg.services && callee !in path + {service}
    requires Considers(w, st, k, service, path) && callee in w.cfg.CalleesOf(service)
    ensures var (st', r) := Grown(w, st, callee, w.newId(k), childStart, path + {service}, k);
            && Considers(w, st', k, service, path) && Extends(st, st', |st.plan|) && Extends(st, st', k) && Fails(w, r)
            && (r.Success? ==>
                  |st'.plan| > |st.plan| && IsTop(w, st', |st.plan|, callee, w.newId(k), childStart, r.end, path + {service}, k))
    decreases w.cfg.services - path, 0, 0
  {
    GrownIsTidy(w, st, callee, w.newId(k), childStart, path + {service}, k);
    var (st', r) := Grown(w, st, callee, w.newId(k), childStart, path + {service}, k);
    ExtendsLess(st, st', |st.plan|, k);
    assert w.cfg.Valid() ==> callee in w.cfg.services;
  }

  lemma ExtendsLess(st: State, st': State, n: nat, k: nat)
    requires k <= n <= |st.plan| && n <= |st.book.calls| && Extends(st, st', n)
    ensures Extends(st, st', k)
  {
    assert st'.book.calls[..k] == st'.book.calls[..n][..k];
    assert st.book.calls[..k] == st.book.calls[..n][..k];
  }

  // ----- One subtree -----

  /** The span at k is growing, and the loop knows when its next call may start. */
  ghost predicate Grows(l: Loop, k: nat, start: int) {
    && Growing(l.state.plan, l.state.shape, k, start, l.lastEnd, start + l.offset) && l.offset >= CALL_OVERHEAD
    && (l.hadChild <==> |l.state.plan| > k + 1) && (!l.hadChild ==> l.lastEnd == start)
  }

  lemma {:induction false} GrownIsSubtree(
    w: World, st: State, service: string, parentId: string, start: int, path: set<string>, caller: int)
    requires service !in path && path <= w.cfg.services && Tidy(w, st) && MayCall(w, st, caller, service)
    requires (forall n :: w.latency(n) >= MIN_LATENCY) && Grown(w, st, service, parentId, start, path, caller).1.Success?
    ensures var st' := Grown(w, st, service, parentId, start, path, caller).0; Subtree(st'.plan, st'.shape, |st.plan|)
    decreases w.cfg.services - path, 2, 0
  {
    GrownIsTidy(w, st, service, parentId, start, path, caller);
    var k := |st.plan|;
    var pushed := Pushed(w, st, service, parentId, path, caller);
    PushIsTidy(w, st, service, parentId, path, caller);
    var l0 := Started(w, pushed, k, start);
    StartedGrows(w, st, service, parentId, start, path, caller);
    CallsAreTidy(w, l0, k, service, start, path, 0);
    CallsGrow(w, l0, k, service, start, path, 0);
    var l := CallsFrom(w, l0, k, service, start, path, 0);
    var row := l.state.plan[k].row.(start := start, end := EndOf(w, l, k, start));
    GrowthEnds(l.state.plan, l.state.shape, k, start, l.lastEnd, start + l.offset, row);
  }

  lemma StartedGrows(w: World, st: State, service: string, parentId: string, start: int, path: set<string>, caller: int)
    requires Tidy(w, st) && service !in path
    ensures Grows(Started(w, Pushed(w, st, service, parentId, path, caller), |st.plan|, start), |st.plan|, start)
  {
  }

  lemma {:induction false} CallsGrow(w: World, l: Loop, k: nat, service: string, start: int, path: set<string>, c: nat)
    requires service in w.cfg.services && service !in path && path <= w.cfg.services && c <= |w.cfg.CalleesOf(service)|
    requires Considers(w, l.state, k, service, path) && Grows(l, k, start) && l.r.Success?
    requires (forall n :: w.latency(n) >= MIN_LATENCY) && CallsFrom(w, l, k, service, start, path, c).r.Success?
    ensures Grows(CallsFrom(w, l, k, service, start, path, c), k, start)
    decreases w.cfg.services - path, 1, |w.cfg.CalleesOf(service)| - c
  {
    if c < |w.cfg.CalleesOf(service)| {
      NextIsTidy(w, l, k, service, start, path, c);
      NextGrows(w, l, k, service, start, path, c);
      CallsGrow(w, NextCall(w, l, k, service, start, path, c), k, service, start, path, c + 1);
    }
  }

  lemma {:induction false} NextGrows(w: World, l: Loop, k: nat, service: string, start: int, path: set<string>, c: nat)
    requires service in w.cfg.services && service !in path && path <= w.cfg.services && c < |w.cfg.CalleesOf(service)|
    requires Considers(w, l.state, k, service, path) && Grows(l, k, start) && l.r.Success?
    requires (forall n :: w.latency(n) >= MIN_LATENCY) && NextCall(w, l, k, service, start, path, c).r.Success?
    ensures Grows(NextCall(w, l, k, service, start, path, c), k, start)
    decreases w.cfg.services - path, 0, 1
  {
    var callee := w.cfg.CalleesOf(service)[c];
    var st := NextDraw(l.state, k);
    var l' := NextCall(w, l, k, service, start, path, c);
    if callee !in path + {service} && w.makesCall(st.draws) {
      ChildIsAppended(w, st, k, service, start, start + l.offset, path, callee);
      var (st', r) := Grown(w, st, callee, w.newId(k), start + l.offset, path + {service}, k);
      CallGrows(l, st, k, start, st', r, Decision(c, st.draws, |st.plan|), l');
    } else {
      SkipGrows(l, l', k, start);
    }
  }

  lemma SkipGrows(l: Loop, l': Loop, k: nat, start: int)
    requires Grows(l, k, start) && l'.state.plan == l.state.plan && l'.state.shape == l.state.shape
    requires l'.offset == l.offset && l'.lastEnd == l.lastEnd && l'.hadChild == l.hadChild
    ensures Grows(l', k, start)
  {
  }

  /** The loop goes on behind the child's end. */
  lemma CallGrows(l: Loop, st: State, k: nat, start: int, st': State, r: Result, d: Decision, l': Loop)
    requires Grows(l, k, start) && st.plan == l.state.plan && st.shape == l.state.shape && r.Success?
    requires Appended(st.plan, st.shape, k, start, start + l.offset, st'.plan, st'.shape)
    requires st'.plan[|st.plan|].row.end == r.end && start + l.offset <= r.end
    requires l' == Loop(Noted(st', k, d), l.offset + (r.end - (start + l.offset)) + CALL_GAP, r.end, true, r)
    ensures Grows(l', k, start)
  {
    GrowthContinues(st.plan, st.shape, k, start, l.lastEnd, start + l.offset, st'.plan, st'.shape);
    assert start + (l.offset + (r.end - (start + l.offset)) + CALL_GAP) == r.end + CALL_GAP;
  }

  lemma {:induction false} ChildIsAppended(
    w: World, st: State, k: nat, service: string, start: int, childStart: int, path: set<string>, callee: string)
    requires service in w.cfg.services && service !in path && path <= w.cfg.services && callee !in path + {service}
    requires Considers(w, st, k, service, path) && callee in w.cfg.CalleesOf(service) && start + CALL_OVERHEAD <= childStart
    requires (forall n :: w.latency(n) >= MIN_LATENCY) && Grown(w, st, callee, w.newId(k), childStart, path + {service}, k).1.Success?
    ensures var (st', r) := Grown(w, st, callee, w.newId(k), childStart, path + {service}, k);
            && Appended(st.plan, st.shape, k, start, childStart, st'.plan, st'.shape)
            && st'.plan[|st.plan|].row.service == callee && st'.plan[|st.plan|].row.end == r.end && childStart <= r.end
            && st'.shape.up[|st.plan|] == k
    decreases w.cfg.services - path, 0, 0
  {
    ChildIsTidy(w, st, k, service, childStart, path, callee);
    GrownIsSubtree(w, st, callee, w.newId(k), childStart, path + {service}, k);
  }

  // ----- All calls accounted for -----

  /** The first c calls of the span at k have been considered, and are accounted for. */
  ghost predicate Keeps(w: World, l: Loop, k: nat, service: string, start: int, c: nat)
    requires c <= |w.cfg.CalleesOf(service)|
  {
    l.state.book in Calling(w, l.state.plan, l.state.shape, k, start, w.cfg.CalleesOf(service)[..c], l.lastEnd, start + l.offset)
  }

  lemma {:induction false} GrownIsSettled(
    w: World, st: State, service: string, parentId: string, start: int, path: set<string>, caller: int)
    requires service !in path && path <= w.cfg.services && Tidy(w, st) && MayCall(w, st, caller, service) && Logged(st.book)
    requires (forall n :: w.latency(n) >= MIN_LATENCY) && Grown(w, st, service, parentId, start, path, caller).1.Success?
    ensures var st' := Grown(w, st, service, parentId, start, path, caller).0;
            st'.book in Settled(w, st'.plan, st'.shape, |st.plan|)
    decreases w.cfg.services - path, 2, 0
  {
    GrownIsTidy(w, st, service, parentId, start, path, caller);
    var k := |st.plan|;
    var pushed := Pushed(w, st, service, parentId, path, caller);
    PushIsTidy(w, st, service, parentId, path, caller);
    var l0 := Started(w, pushed, k, start);
    StartedGrows(w, st, service, parentId, start, path, caller);
    StartedKeeps(w, st, service, parentId, start, path, caller);
    CallsAreTidy(w, l0, k, service, start, path, 0);
    CallsGrow(w, l0, k, service, start, path, 0);
    CallsKeep(w, l0, k, service, start, path, 0);
    var l := CallsFrom(w, l0, k, service, start, path, 0);
    var callees := w.cfg.CalleesOf(service);
    assert callees[..|callees|] == callees;
    var row := l.state.plan[k].row.(start := start, end := EndOf(w, l, k, start));
    AllCalled(w, l.state.plan, l.state.shape, k, start, l.lastEnd, start + l.offset, l.state.book, row);
  }

  lemma StartedKeeps(w: World, st: State, service: string, parentId: string, start: int, path: set<string>, caller: int)
    requires Tidy(w, st) && MayCall(w, st, caller, service) && Logged(st.book)
    ensures Keeps(w, Started(w, Pushed(w, st, service, parentId, path, caller), |st.plan|, start), |st.plan|, service, start, 0)
  {
    var pushed, k := Pushed(w, st, service, parentId, path, caller), |st.plan|;
    NothingCalledYet(w, pushed.plan, pushed.shape, k, start, st.book, pushed.book);
    assert w.cfg.CalleesOf(service)[..0] == [];
  }

  lemma {:induction false} CallsKeep(w: World, l: Loop, k: nat, service: string, start: int, path: set<string>, c: nat)
    requires service in w.cfg.services && service !in path && path <= w.cfg.services && c <= |w.cfg.CalleesOf(service)|
    requires Considers(w, l.state, k, service, path) && Grows(l, k, start) && Keeps(w, l, k, service, start, c) && l.r.Success?
    requires (forall n :: w.latency(n) >= MIN_LATENCY) && CallsFrom(w, l, k, service, start, path, c).r.Success?
    ensures Keeps(w, CallsFrom(w, l, k, service, start, path, c), k, service, start, |w.cfg.CalleesOf(service)|)
    decreases w.cfg.services - path, 1, |w.cfg.CalleesOf(service)| - c
  {
    if c < |w.cfg.CalleesOf(service)| {
      NextIsTidy(w, l, k, service, start, path, c);
      NextGrows(w, l, k, service, start, path, c);
      NextKeeps(w, l, k, service, start, path, c);
      CallsKeep(w, NextCall(w, l, k, service, start, path, c), k, service, start, path, c + 1);
    }
  }

  lemma {:induction false} NextKeeps(w: World, l: Loop, k: nat, service: string, start: int, path: set<string>, c: nat)
    requires service in w.cfg.services && service !in path && path <= w.cfg.services && c < |w.cfg.CalleesOf(service)|
    requires Considers(w, l.state, k, service, path) && Grows(l, k, start) && Keeps(w, l, k, service, start, c) && l.r.Success?
    requires (forall n :: w.latency(n) >= MIN_LATENCY) && NextCall(w, l, k, service, start, path, c).r.Success?
    ensures Keeps(w, NextCall(w, l, k, service, start, path, c), k, service, start, c + 1)
    decreases w.cfg.services - path, 0, 1
  {
    var callees := w.cfg.CalleesOf(service);
    var seen, callee, free := callees[..c], callees[c], start + l.offset;
    assert callees[..c + 1] == seen + [callee];
    if callee in path + {service} {
      PassedOver(w, l.state.plan, l.state.shape, k, start, seen, l.lastEnd, free, l.state.book, callee);
    } else {
      var st := NextDraw(l.state, k);
      Drawn(w, l.state.plan, l.state.shape, k, start, seen, l.lastEnd, free, l.state.book, st.book);
      if !w.makesCall(st.draws) {
        SkipIsNoted(w, st.plan, st.shape, k, start, seen, l.lastEnd, free, st.book, callee, st.draws);
      } else {
        ChildIsTidy(w, st, k, service, free, path, callee);
        ChildIsAppended(w, st, k, service, start, free, path, callee);
        GrownIsSettled(w, st, callee, w.newId(k), free, path + {service}, k);
        var (st', r) := Grown(w, st, callee, w.newId(k), free, path + {service}, k);
        CallIsNoted(
          w, st.plan, st.shape, k, start, seen, l.lastEnd, free, st.book, st'.plan, st'.shape, st'.book, callee, st.draws);
      }
    }
  }

  // ----- All of it -----

  /** What growing a subtree comes to. */
  ghost predicate GrownWell(
    w: World, st: State, st': State, r: Result, service: string, parentId: string, start: int, path: set<string>, caller: int)
  {
    && Tidy(w, st) && Tidy(w, st') && Extends(st, st', |st.plan|)
    && (r.UnknownService? ==> r.service !in w.cfg.services && (service in w.cfg.services ==> !w.cfg.Valid()))
    && (r.Success? ==>
          && service in w.cfg.services && r.id == w.newId(|st.plan|) && |st'.plan| > |st.plan|
          && IsTop(w, st', |st.plan|, service, parentId, start, r.end, path, caller)
          && Subtree(st'.plan, st'.shape, |st.plan|) && st'.book in Settled(w, st'.plan, st'.shape, |st.plan|))
  }

  /** From a tidy state, along a configured call. */
  ghost predicate CanGrow(w: World, st: State, service: string, caller: int) {
    Tidy(w, st) && MayCall(w, st, caller, service) && Logged(st.book) && forall n :: w.latency(n) >= MIN_LATENCY
  }

  lemma SubtreeGrowsWell(w: World, st: State, service: string, parentId: string, start: int, path: set<string>, caller: int)
    requires service !in path && path <= w.cfg.services && CanGrow(w, st, service, caller)
    ensures var (st', r) := Grown(w, st, service, parentId, start, path, caller);
            GrownWell(w, st, st', r, service, parentId, start, path, caller)
  {
    GrownIsTidy(w, st, service, parentId, start, path, caller);
    if Grown(w, st, service, parentId, start, path, caller).1.Success? {
      GrownIsSubtree(w, st, service, parentId, start, path, caller);
      GrownIsSettled(w, st, service, parentId, start, path, caller);
    }
  }
}
