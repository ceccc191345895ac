/**
  `loadgen/internal/topology/generate.go`: one synthetic trace, grown by recursion over the
  configured call edges.  Random draws are oracles: whether the n-th considered call is made,
  the n-th span's id, own latency and status.
 */
module Generator {
  import opened Spans
  import opened TracePlan
  import opened CallBook
  import opened Growth

  class Generator {
    const cfg: Config
    const traceId: string
    const makesCall: nat -> bool
    const newId: nat -> string
    const latency: nat -> int
    const status: nat -> int

    var plan: seq<PlannedSpan>
    var draws: nat
    ghost var shape: Shape
    ghost var book: Book

    constructor (cfg: Config, traceId: string, makesCall: nat -> bool, newId: nat -> string, latency: nat -> int, status: nat -> int)
      ensures Now() == State([], 0, Shape([], []), Book([], []))
      ensures Choices() == World(cfg, traceId, makesCall, newId, latency, status)
    {
      this.cfg, this.traceId := cfg, traceId;
      this.makesCall, this.newId, this.latency, this.status := makesCall, newId, latency, status;
      plan, draws, shape, book := [], 0, Shape([], []), Book([], []);
    }

    function Choices(): World {
      World(cfg, traceId, makesCall, newId, latency, status)
    }

    ghost function Now(): State
      reads this
    {
      State(plan, draws, shape, book)
    }

    method GenerateSubtree(service: string, parentId: string, start: int, path: set<string>, ghost caller: int)
      returns (r: Result)
      requires service !in path && path <= cfg.services
      modifies this`plan, this`draws, this`shape, this`book
      ensures (Now(), r) == Grown(Choices(), old(Now()), service, parentId, start, path, caller)
      ensures CanGrow(Choices(), old(Now()), service, caller) ==>
                GrownWell(Choices(), old(Now()), Now(), r, service, parentId, start, path, caller)
      decreases cfg.services - path, 1, 0
    {
      ghost var st := Now();
      if CanGrow(Choices(), st, service, caller) {
        SubtreeGrowsWell(Choices(), st, service, parentId, start, path, caller);
      }
      if service !in cfg.services {
        return UnknownService(service);
      }
      var k := |plan|;
      var id := newId(k);
      plan := plan + [PlannedSpan(SpanRow(traceId, id, parentId, service, 0, 0, status(k)), false)];
      shape := Shape(shape.up + [caller], shape.above + [path]);
      book := Book(book.calls + [[]], book.log);
      assert Now() == Pushed(Choices(), st, service, parentId, path, caller);
      ghost var offset;
      var hadChild, lastEnd, unknown;
      hadChild, lastEnd, unknown, offset := CallDownstream(service, id, start, path, k);
      if unknown.UnknownService? {
        return unknown;
      }
      var end := start + latency(k);
      if hadChild && lastEnd > end {
        end := lastEnd;
      }
      plan := plan[k := plan[k].(row := plan[k].row.(start := start, end := end))];
      return Success(id, end);
    }

    /** The loop over one span's configured calls. */
    method CallDownstream(service: string, id: string, start: int, path: set<string>, k: nat)
      returns (hadChild: bool, lastEnd: int, r: Result, ghost offset': int)
      requires service in cfg.services && service !in path && path <= cfg.services && id == newId(k)
      modifies this`plan, this`draws, this`shape, this`book
      ensures Loop(Now(), offset', lastEnd, hadChild, r)
           == CallsFrom(Choices(), Started(Choices(), old(Now()), k, start), k, service, start, path, 0)
      decreases cfg.services - path, 0, 1
    {
      ghost var l0 := Started(Choices(), Now(), k, start);
      var offset := CALL_OVERHEAD;
      lastEnd, hadChild, r := start, false, Success(id, start);
      var callees := cfg.CalleesOf(service);
      for c := 0 to |callees|
        invariant r.Success?
        invariant CallsFrom(Choices(), l0, k, service, start, path, 0)
               == CallsFrom(Choices(), Loop(Now(), offset, lastEnd, hadChild, r), k, service, start, path, c)
      {
        var called;
        called, r := Call(service, id, start, offset, path, k, c, r, lastEnd, hadChild);
        if r.UnknownService? {
          offset' := offset;
          return;
        }
        if called {
          hadChild := true;
          offset := offset + (r.end - (start + offset)) + CALL_GAP;
          lastEnd := r.end;
        }
      }
      offset' := offset;
    }

    /** One turn of it: is this call considered, and is it drawn? */
    method Call(
      service: string, id: string, start: int, offset: int, path: set<string>, k: nat, c: nat, last: Result, ghost lastEnd: int,
      ghost hadChild: bool)
      returns (called: bool, r: Result)
      requires service in cfg.services && service !in path && path <= cfg.services && id == newId(k)
      requires c < |cfg.CalleesOf(service)| && last.Success?
      modifies this`plan, this`draws, this`shape, this`book
      ensures var before := Loop(old(Now()), offset, lastEnd, hadChild, last);
              (if called && r.Success? then Loop(Now(), offset + (r.end - (start + offset)) + CALL_GAP, r.end, true, r)
               else Loop(Now(), offset, lastEnd, hadChild, r))
              == NextCall(Choices(), before, k, service, start, path, c)
      decreases cfg.services - path, 0, 0
    {
      var callee := cfg.CalleesOf(service)[c];
      called, r := false, last;
      if callee !in path + {service} {
        ghost var st := NextDraw(Now(), k);
        draws, book := draws + 1, st.book;
        called := makesCall(draws);
        if called {
          r := GenerateSubtree(callee, id, start + offset, path + {service}, k);
        }
        if r.Success? {
          book := Noted(Now(), k, Decision(c, st.draws, if called then |st.plan| else -1)).book;
        }
      }
    }
  }

  // ----- One whole trace -----

  /** A finished trace: one tree, rooted at the first span, with distinct non-empty ids. */
  ghost predicate IsTrace(plan: seq<PlannedSpan>, shape: Shape) {
    && Subtree(plan, shape, 0) && shape.up[0] == -1 && shape.above[0] == {}
    && plan[0].row.parent == ""
    && (forall i, j :: 0 <= i < j < |plan| ==> plan[i].row.spanId != plan[j].row.spanId)
    && (forall j :: 0 <= j < |plan| ==>
          plan[j].row.spanId != "" && plan[j].row.traceId == plan[0].row.traceId && !plan[j].drop)
  }

  /** Ids and statuses as drawn, every call along a configured edge, and exactly those made that the draws say. */
  ghost predicate DrawnFrom(w: World, plan: seq<PlannedSpan>, shape: Shape) {
    Named(w, plan) && Configured(w.cfg, plan, shape) && CallsAreDrawn(w, plan, shape)
  }

  method Generate(w: World, now: int) returns (plan: seq<PlannedSpan>, ghost shape: Shape)
    requires w.cfg.Valid()
    requires forall i: nat, j: nat :: w.newId(i) != "" && (i < j ==> w.newId(i) != w.newId(j))
    requires forall n :: w.latency(n) >= MIN_LATENCY
    ensures IsTrace(plan, shape) && DrawnFrom(w, plan, shape)
    ensures plan[0].row.service == w.cfg.root && plan[0].row.start == now
  {
    var g := new Generator(w.cfg, w.traceId, w.makesCall, w.newId, w.latency, w.status);
    var r := g.GenerateSubtree(w.cfg.root, "", now, {}, -1);
    return g.plan, g.shape;
  }

  /** Who a span names as its parent is the span it hangs below. */
  lemma ParentIsUp(plan: seq<PlannedSpan>, shape: Shape, i: nat, j: nat)
    requires IsTrace(plan, shape) && i < |plan| && j < |plan| && plan[j].row.parent == plan[i].row.spanId
    ensures j > 0 && Hangs(plan, shape, j) && shape.up[j] == i
  {
    assert plan[i].row.spanId != "";
    assert j != 0 && Hangs(plan, shape, j);
    var up := shape.up[j];
    assert plan[up].row.spanId == plan[i].row.spanId;
    assert up == i;
  }

  /** i is a proper ancestor of j. */
  ghost predicate Ancestor(shape: Shape, i: int, j: int)
    requires forall l :: 0 <= l < |shape.up| ==> shape.up[l] < l
    decreases j
  {
    0 <= j < |shape.up| && shape.up[j] >= 0 && (i == shape.up[j] || Ancestor(shape, i, shape.up[j]))
  }

  /** No service appears twice on a path from the root. */
  lemma {:induction false} PathsDoNotRepeat(plan: seq<PlannedSpan>, shape: Shape, i: int, j: int)
    requires IsTrace(plan, shape) && Ancestor(shape, i, j)
    ensures 0 <= i < j && plan[i].row.service in shape.above[j]
    ensures plan[i].row.service != plan[j].row.service
    decreases j
  {
    assert Hangs(plan, shape, j);
    if i != shape.up[j] {
      PathsDoNotRepeat(plan, shape, i, shape.up[j]);
    }
  }

  /** A descendant runs inside each of its ancestors, and starts after them. */
  lemma {:induction false} DescendantsRunInside(plan: seq<PlannedSpan>, shape: Shape, i: int, j: int)
    requires IsTrace(plan, shape) && Ancestor(shape, i, j)
    ensures 0 <= i < j
    ensures plan[i].row.start + CALL_OVERHEAD <= plan[j].row.start && plan[j].row.end <= plan[i].row.end
    decreases j
  {
    assert Hangs(plan, shape, j);
    if i != shape.up[j] {
      DescendantsRunInside(plan, shape, i, shape.up[j]);
    }
  }

  /** The child of b on the way down to i. */
  lemma {:induction false} ChildTowards(shape: Shape, b: int, i: int) returns (c: int)
    requires forall l :: 0 <= l < |shape.up| ==> shape.up[l] < l
    requires Ancestor(shape, b, i)
    ensures 0 <= c < |shape.up| && shape.up[c] == b && (c == i || Ancestor(shape, c, i))
    decreases i
  {
    if shape.up[i] == b {
      c := i;
    } else {
      c := ChildTowards(shape, b, shape.up[i]);
    }
  }

  ghost predicate Disjoint(a: SpanRow, b: SpanRow) {
    a.end + CALL_GAP <= b.start || b.end + CALL_GAP <= a.start
  }

  lemma {:induction false} AncestorIsTransitive(shape: Shape, i: int, b: int, j: int)
    requires forall l :: 0 <= l < |shape.up| ==> shape.up[l] < l
    requires Ancestor(shape, i, b) && Ancestor(shape, b, j)
    ensures Ancestor(shape, i, j)
    decreases j
  {
    if b != shape.up[j] {
      AncestorIsTransitive(shape, i, b, shape.up[j]);
    }
  }

  /** Calls are sequential at every level: spans neither of which is above the other never overlap. */
  lemma {:induction false} UnrelatedSpansAreDisjoint(plan: seq<PlannedSpan>, shape: Shape, i: int, j: int)
    requires IsTrace(plan, shape) && 0 <= i < j < |plan| && !Ancestor(shape, i, j)
    ensures Disjoint(plan[i].row, plan[j].row)
    decreases i + j
  {
    assert Hangs(plan, shape, j);
    var b := shape.up[j];
    if Ancestor(shape, b, i) {
      var c := ChildTowards(shape, b, i);
      if c != i {
        DescendantsRunInside(plan, shape, c, i);
      }
    } else if b < i {
      // b is not above i, so i is not the root and the pair (b, i) is smaller
      UnrelatedSpansAreDisjoint(plan, shape, b, i);
    } else {
      UnrelatedSpansAreDisjoint(plan, shape, i, b);
    }
  }
}
