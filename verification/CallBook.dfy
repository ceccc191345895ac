/**
  Which configured calls a trace has considered, on which draw, and what became of each: the account
  that the generator keeps on the side of the plan it grows (`loadgen/internal/topology/generate.go`).
 */
module CallBook {
  import opened Spans
  import opened TracePlan

  /** The configuration, and every random choice the generator makes. */
  datatype World = World(
    cfg: Config, traceId: string, makesCall: nat -> bool, newId: nat -> string, latency: nat -> int, status: nat -> int)

  /** One configured call, by its position: the draw that decided it, and the span it became, -1 for none. */
  datatype Decision = Decision(position: nat, draw: nat, child: int)

  /** The decisions of each span, in order, and what each draw was used for. */
  datatype Book = Book(calls: seq<seq<Decision>>, log: seq<(nat, nat)>)

  function Positions(ds: seq<Decision>): (ps: seq<nat>)
    ensures |ps| == |ds|
  {
    seq(|ds|, i requires 0 <= i < |ds| => ds[i].position)
  }

  /** The configured calls that do not lead back to the path. */
  function OpenPositions(callees: seq<string>, path: set<string>): seq<nat> {
    if callees == [] then []
    else
      var n := |callees| - 1;
      OpenPositions(callees[..n], path) + if callees[n] in path then [] else [n]
  }

  predicate IsSpan(plan: seq<PlannedSpan>, child: int) {
    0 <= child < |plan|
  }

  /** When the next call may start: after the overhead, and after the gap behind the one before. */
  function FreeAfter(plan: seq<PlannedSpan>, ds: seq<Decision>, start: int): int {
    if ds == [] then start + CALL_OVERHEAD
    else
      var last := ds[|ds| - 1];
      if IsSpan(plan, last.child) then plan[last.child].row.end + CALL_GAP else FreeAfter(plan, ds[..|ds| - 1], start)
  }

  /** When the last call so far is back. */
  function LastBack(plan: seq<PlannedSpan>, ds: seq<Decision>, start: int): int {
    if ds == [] then start
    else
      var last := ds[|ds| - 1];
      if IsSpan(plan, last.child) then plan[last.child].row.end else LastBack(plan, ds[..|ds| - 1], start)
  }

  /** The i-th decision of the span at k is as drawn, and its call, if made, starts when it is due. */
  ghost predicate AsDrawn(
    makesCall: nat -> bool, callees: seq<string>, plan: seq<PlannedSpan>, up: seq<int>, ds: seq<Decision>, k: int, start: int, i: int)
    requires 0 <= i < |ds| && |up| == |plan| && 0 <= k
  {
    var d := ds[i];
    && d.position < |callees|
    && if makesCall(d.draw) then
         && k < d.child < |plan| && up[d.child] == k && plan[d.child].row.service == callees[d.position]
         && plan[d.child].row.start == FreeAfter(plan, ds[..i], start)
         && forall h :: 0 <= h < i ==> ds[h].child < d.child
       else d.child == -1
  }

  ghost predicate HasChild(ds: seq<Decision>, j: int) {
    exists i :: 0 <= i < |ds| && ds[i].child == j
  }

  /** All decisions are, and every span below k is one of these calls. */
  ghost predicate AllAsDrawn(
    makesCall: nat -> bool, callees: seq<string>, plan: seq<PlannedSpan>, up: seq<int>, ds: seq<Decision>, k: int, start: int)
    requires |up| == |plan| && 0 <= k
  {
    && (forall i :: 0 <= i < |ds| ==> AsDrawn(makesCall, callees, plan, up, ds, k, start, i))
    && forall j :: 0 <= j < |plan| && up[j] == k ==> HasChild(ds, j)
  }

  function Later(a: int, b: int): int {
    if b > a then b else a
  }

  /** The span at k has made exactly the calls drawn, one after the other, and lasts until it is done and all are back. */
  ghost predicate Accounted(w: World, plan: seq<PlannedSpan>, shape: Shape, ds: seq<Decision>, k: int)
    requires |shape.up| == |shape.above| == |plan| && 0 <= k < |plan|
  {
    var row := plan[k].row;
    var callees := w.cfg.CalleesOf(row.service);
    && Positions(ds) == OpenPositions(callees, shape.above[k] + {row.service})
    && AllAsDrawn(w.makesCall, callees, plan, shape.up, ds, k, row.start)
    && row.end == Later(row.start + w.latency(k), LastBack(plan, ds, row.start))
  }

  ghost predicate LoggedAt(book: Book, k: int, i: int)
    requires 0 <= k < |book.calls| && 0 <= i < |book.calls[k]|
  {
    var d := book.calls[k][i];
    1 <= d.draw <= |book.log| && book.log[d.draw - 1] == (k, i)
  }

  /** Every decision has a draw of its own. */
  ghost predicate Logged(book: Book) {
    forall k, i :: 0 <= k < |book.calls| && 0 <= i < |book.calls[k]| ==> LoggedAt(book, k, i)
  }

  ghost predicate AccountedFrom(w: World, plan: seq<PlannedSpan>, shape: Shape, book: Book, from: int)
    requires |shape.up| == |shape.above| == |plan| == |book.calls| && 0 <= from
  {
    forall j {:trigger book.calls[j]} :: from <= j < |plan| ==> Accounted(w, plan, shape, book.calls[j], j)
  }

  /** The books in which all spans from `from` on are accounted for. */
  ghost function Settled(w: World, plan: seq<PlannedSpan>, shape: Shape, from: int): iset<Book> {
    iset book: Book |
      && |shape.up| == |shape.above| == |plan| == |book.calls| && 0 <= from
      && AccountedFrom(w, plan, shape, book, from) && Logged(book)
  }

  /** Those of a span at k that has considered the first of its calls, while all spans after it are accounted for. */
  ghost function Calling(
    w: World, plan: seq<PlannedSpan>, shape: Shape, k: int, start: int, seen: seq<string>, lastEnd: int, free: int): iset<Book>
  {
    iset book: Book |
      && |shape.up| == |shape.above| == |plan| == |book.calls| && 0 <= k < |plan|
      && InProgress(w, plan, shape, book.calls[k], k, start, seen, lastEnd, free)
      && AccountedFrom(w, plan, shape, book, k + 1) && Logged(book)
  }

  ghost predicate InProgress(
    w: World, plan: seq<PlannedSpan>, shape: Shape, ds: seq<Decision>, k: int, start: int, seen: seq<string>, lastEnd: int, free: int)
    requires |shape.up| == |shape.above| == |plan| && 0 <= k < |plan|
  {
    && Positions(ds) == OpenPositions(seen, shape.above[k] + {plan[k].row.service})
    && AllAsDrawn(w.makesCall, seen, plan, shape.up, ds, k, start)
    && free == FreeAfter(plan, ds, start) && lastEnd == LastBack(plan, ds, start)
  }

  // ----- What does not change -----

  /** The plans agree after k, and new spans do not hang directly below it. */
  ghost predicate SameAfter(plan: seq<PlannedSpan>, up: seq<int>, plan': seq<PlannedSpan>, up': seq<int>, k: int)
    requires |up| == |plan| && |up'| == |plan'| && 0 <= k
  {
    && |plan| <= |plan'|
    && (forall j :: k < j < |plan| ==> plan'[j] == plan[j])
    && (forall j :: 0 <= j < |plan| ==> up'[j] == up[j])
  }

  predicate ChildrenWithin(ds: seq<Decision>, k: int, n: int) {
    forall i :: 0 <= i < |ds| ==> ds[i].child == -1 || k < ds[i].child < n
  }

  lemma {:induction false} TimesStay(
    plan: seq<PlannedSpan>, up: seq<int>, plan': seq<PlannedSpan>, up': seq<int>, ds: seq<Decision>, k: int, start: int)
    requires |up| == |plan| && |up'| == |plan'| && 0 <= k && SameAfter(plan, up, plan', up', k) && ChildrenWithin(ds, k, |plan|)
    ensures FreeAfter(plan', ds, start) == FreeAfter(plan, ds, start) && LastBack(plan', ds, start) == LastBack(plan, ds, start)
  {
    if ds == [] {
    } else {
      TimesStay(plan, up, plan', up', ds[..|ds| - 1], k, start);
    }
  }

  lemma DrawnChildrenAreWithin(
    makesCall: nat -> bool, callees: seq<string>, plan: seq<PlannedSpan>, up: seq<int>, ds: seq<Decision>, k: int, start: int)
    requires |up| == |plan| && 0 <= k && AllAsDrawn(makesCall, callees, plan, up, ds, k, start)
    ensures ChildrenWithin(ds, k, |plan|)
  {
    forall i | 0 <= i < |ds|
      ensures ds[i].child == -1 || k < ds[i].child < |plan|
    {
      assert AsDrawn(makesCall, callees, plan, up, ds, k, start, i);
    }
  }

  lemma DrawnStays(
    makesCall: nat -> bool, callees: seq<string>, plan: seq<PlannedSpan>, up: seq<int>, plan': seq<PlannedSpan>, up': seq<int>,
    ds: seq<Decision>, k: int, start: int, i: int)
    requires |up| == |plan| && |up'| == |plan'| && 0 <= k && SameAfter(plan, up, plan', up', k) && 0 <= i < |ds|
    requires ChildrenWithin(ds, k, |plan|) && AsDrawn(makesCall, callees, plan, up, ds, k, start, i)
    ensures AsDrawn(makesCall, callees, plan', up', ds, k, start, i)
  {
    TimesStay(plan, up, plan', up', ds[..i], k, start);
  }

  lemma AllDrawnStays(
    makesCall: nat -> bool, callees: seq<string>, plan: seq<PlannedSpan>, up: seq<int>, plan': seq<PlannedSpan>, up': seq<int>,
    ds: seq<Decision>, k: int, start: int)
    requires |up| == |plan| && |up'| == |plan'| && 0 <= k && SameAfter(plan, up, plan', up', k)
    requires AllAsDrawn(makesCall, callees, plan, up, ds, k, start)
    requires forall j :: |plan| <= j < |plan'| ==> up'[j] != k
    ensures AllAsDrawn(makesCall, callees, plan', up', ds, k, start)
    ensures FreeAfter(plan', ds, start) == FreeAfter(plan, ds, start) && LastBack(plan', ds, start) == LastBack(plan, ds, start)
  {
    DrawnChildrenAreWithin(makesCall, callees, plan, up, ds, k, start);
    TimesStay(plan, up, plan', up', ds, k, start);
    forall i | 0 <= i < |ds|
      ensures AsDrawn(makesCall, callees, plan', up', ds, k, start, i)
    {
      DrawnStays(makesCall, callees, plan, up, plan', up', ds, k, start, i);
    }
  }

  lemma AccountedStays(
    w: World, plan: seq<PlannedSpan>, shape: Shape, plan': seq<PlannedSpan>, shape': Shape, ds: seq<Decision>, k: int)
    requires |shape.up| == |shape.above| == |plan| && |shape'.up| == |shape'.above| == |plan'| && 0 <= k < |plan|
    requires SameAfter(plan, shape.up, plan', shape'.up, k) && plan'[k] == plan[k] && shape'.above[k] == shape.above[k]
    requires forall j :: |plan| <= j < |plan'| ==> shape'.up[j] != k
    requires Accounted(w, plan, shape, ds, k)
    ensures Accounted(w, plan', shape', ds, k)
  {
    var row := plan[k].row;
    AllDrawnStays(w.makesCall, w.cfg.CalleesOf(row.service), plan, shape.up, plan', shape'.up, ds, k, row.start);
  }

  // ----- One step of the loop -----

  lemma OpenOneMore(seen: seq<string>, callee: string, path: set<string>)
    ensures OpenPositions(seen + [callee], path) == OpenPositions(seen, path) + if callee in path then [] else [|seen|]
  {
    assert (seen + [callee])[..|seen|] == seen;
  }

  lemma LongerCallees(
    makesCall: nat -> bool, seen: seq<string>, callee: string, plan: seq<PlannedSpan>, up: seq<int>, ds: seq<Decision>, k: int,
    start: int)
    requires |up| == |plan| && 0 <= k && AllAsDrawn(makesCall, seen, plan, up, ds, k, start)
    ensures AllAsDrawn(makesCall, seen + [callee], plan, up, ds, k, start)
  {
    forall i | 0 <= i < |ds|
      ensures AsDrawn(makesCall, seen + [callee], plan, up, ds, k, start, i)
    {
      assert AsDrawn(makesCall, seen, plan, up, ds, k, start, i);
    }
  }

  lemma NothingCalledYet(w: World, plan: seq<PlannedSpan>, shape: Shape, k: int, start: int, before: Book, book: Book)
    requires |shape.up| == |shape.above| == |plan| == k + 1 && k >= 0 && |before.calls| == k && Logged(before)
    requires book == Book(before.calls + [[]], before.log) && forall j :: 0 <= j < |plan| ==> shape.up[j] < k
    ensures book in Calling(w, plan, shape, k, start, [], start, start + CALL_OVERHEAD)
  {
    forall j, i | 0 <= j < |book.calls| && 0 <= i < |book.calls[j]|
      ensures LoggedAt(book, j, i)
    {
      assert LoggedAt(before, j, i);
    }
    assert book.calls[k] == [];
  }

  lemma PassedOver(
    w: World, plan: seq<PlannedSpan>, shape: Shape, k: int, start: int, seen: seq<string>, lastEnd: int, free: int, book: Book,
    callee: string)
    requires book in Calling(w, plan, shape, k, start, seen, lastEnd, free)
    requires callee in shape.above[k] + {plan[k].row.service}
    ensures book in Calling(w, plan, shape, k, start, seen + [callee], lastEnd, free)
  {
    OpenOneMore(seen, callee, shape.above[k] + {plan[k].row.service});
    LongerCallees(w.makesCall, seen, callee, plan, shape.up, book.calls[k], k, start);
  }

  /** The draw is the latest, and stands for the next call of the span at k. */
  ghost predicate NowDrawn(book: Book, k: int, draw: nat) {
    0 <= k < |book.calls| && draw == |book.log| > 0 && book.log[draw - 1] == (k, |book.calls[k]|)
  }

  lemma LogGrows(book: Book, longer: Book)
    requires Logged(book) && longer.calls == book.calls && book.log <= longer.log
    ensures Logged(longer)
  {
    forall k, i | 0 <= k < |longer.calls| && 0 <= i < |longer.calls[k]|
      ensures LoggedAt(longer, k, i)
    {
      assert LoggedAt(book, k, i);
    }
  }

  lemma Drawn(
    w: World, plan: seq<PlannedSpan>, shape: Shape, k: nat, start: int, seen: seq<string>, lastEnd: int, free: int, book: Book,
    next: Book)
    requires book in Calling(w, plan, shape, k, start, seen, lastEnd, free)
    requires k < |book.calls| && next == Book(book.calls, book.log + [(k, |book.calls[k]|)])
    ensures next in Calling(w, plan, shape, k, start, seen, lastEnd, free) && NowDrawn(next, k, |next.log|) && Logged(next)
  {
    LogGrows(book, next);
  }

  function With(book: Book, k: nat, d: Decision): Book
    requires k < |book.calls|
  {
    Book(book.calls[k := book.calls[k] + [d]], book.log)
  }

  lemma WithIsLogged(book: Book, k: nat, d: Decision)
    requires k < |book.calls| && Logged(book) && 1 <= d.draw <= |book.log| && book.log[d.draw - 1] == (k, |book.calls[k]|)
    ensures Logged(With(book, k, d))
  {
    var next := With(book, k, d);
    forall j, i | 0 <= j < |next.calls| && 0 <= i < |next.calls[j]|
      ensures LoggedAt(next, j, i)
    {
      if j != k || i < |book.calls[k]| {
        assert LoggedAt(book, j, i);
      }
    }
  }

  lemma AccountedBehind(w: World, plan: seq<PlannedSpan>, shape: Shape, book: Book, next: Book, k: int)
    requires |shape.up| == |shape.above| == |plan| == |book.calls| == |next.calls| && 0 <= k
    requires AccountedFrom(w, plan, shape, book, k + 1) && forall j :: k < j < |plan| ==> next.calls[j] == book.calls[j]
    ensures AccountedFrom(w, plan, shape, next, k + 1)
  {
    forall j | k + 1 <= j < |plan|
      ensures Accounted(w, plan, shape, next.calls[j], j)
    {
      assert next.calls[j] == book.calls[j];
    }
  }

  /** One more decision at the end leaves the earlier ones as they are. */
  lemma EarlierDrawn(
    makesCall: nat -> bool, callees: seq<string>, plan: seq<PlannedSpan>, up: seq<int>, ds: seq<Decision>, d: Decision, k: int,
    start: int, i: int)
    requires |up| == |plan| && 0 <= k && 0 <= i < |ds| && AsDrawn(makesCall, callees, plan, up, ds, k, start, i)
    ensures AsDrawn(makesCall, callees, plan, up, ds + [d], k, start, i)
  {
    assert (ds + [d])[..i] == ds[..i];
  }

  lemma TimesOneMore(plan: seq<PlannedSpan>, ds: seq<Decision>, d: Decision, start: int)
    ensures FreeAfter(plan, ds + [d], start)
         == if IsSpan(plan, d.child) then plan[d.child].row.end + CALL_GAP else FreeAfter(plan, ds, start)
    ensures LastBack(plan, ds + [d], start)
         == if IsSpan(plan, d.child) then plan[d.child].row.end else LastBack(plan, ds, start)
  {
    assert (ds + [d])[..|ds|] == ds;
  }

  lemma PositionsOneMore(ds: seq<Decision>, d: Decision)
    ensures Positions(ds + [d]) == Positions(ds) + [d.position]
  {
  }

  lemma OneMoreDrawn(
    makesCall: nat -> bool, callees: seq<string>, plan: seq<PlannedSpan>, up: seq<int>, ds: seq<Decision>, d: Decision, k: int,
    start: int)
    requires |up| == |plan| && 0 <= k && forall i :: 0 <= i < |ds| ==> AsDrawn(makesCall, callees, plan, up, ds, k, start, i)
    requires AsDrawn(makesCall, callees, plan, up, ds + [d], k, start, |ds|)
    requires forall j :: 0 <= j < |plan| && up[j] == k ==> HasChild(ds, j) || j == d.child
    ensures AllAsDrawn(makesCall, callees, plan, up, ds + [d], k, start)
  {
    var more := ds + [d];
    forall i | 0 <= i < |more|
      ensures AsDrawn(makesCall, callees, plan, up, more, k, start, i)
    {
      if i < |ds| {
        EarlierDrawn(makesCall, callees, plan, up, ds, d, k, start, i);
      }
    }
    forall j | 0 <= j < |plan| && up[j] == k
      ensures HasChild(more, j)
    {
      if HasChild(ds, j) {
        var i :| 0 <= i < |ds| && ds[i].child == j;
        assert more[i].child == j;
      } else {
        assert more[|ds|].child == j;
      }
    }
  }

  /** A call that was not drawn. */
  lemma SkipIsNoted(
    w: World, plan: seq<PlannedSpan>, shape: Shape, k: nat, start: int, seen: seq<string>, lastEnd: int, free: int, book: Book,
    callee: string, draw: nat)
    requires book in Calling(w, plan, shape, k, start, seen, lastEnd, free)
    requires callee !in shape.above[k] + {plan[k].row.service} && !w.makesCall(draw) && NowDrawn(book, k, draw)
    ensures With(book, k, Decision(|seen|, draw, -1)) in Calling(w, plan, shape, k, start, seen + [callee], lastEnd, free)
  {
    var ds, d := book.calls[k], Decision(|seen|, draw, -1);
    WithIsLogged(book, k, d);
    AccountedBehind(w, plan, shape, book, With(book, k, d), k);
    OpenOneMore(seen, callee, shape.above[k] + {plan[k].row.service});
    LongerCallees(w.makesCall, seen, callee, plan, shape.up, ds, k, start);
    PositionsOneMore(ds, d);
    TimesOneMore(plan, ds, d, start);
    OneMoreDrawn(w.makesCall, seen + [callee], plan, shape.up, ds, d, k, start);
  }

  /** The decisions of the span at k, once its child's subtree has been appended. */
  lemma CalledIsDrawn(
    w: World, plan: seq<PlannedSpan>, shape: Shape, k: nat, start: int, seen: seq<string>, lastEnd: int, free: int,
    ds: seq<Decision>, plan': seq<PlannedSpan>, shape': Shape, callee: string, draw: nat)
    requires Appended(plan, shape, k, start, free, plan', shape') && |shape'.up| == |shape'.above| == |plan'|
    requires InProgress(w, plan, shape, ds, k, start, seen, lastEnd, free)
    requires callee !in shape.above[k] + {plan[k].row.service} && w.makesCall(draw) && plan'[|plan|].row.service == callee
    ensures var end := plan'[|plan|].row.end;
            InProgress(w, plan', shape', ds + [Decision(|seen|, draw, |plan|)], k, start, seen + [callee], end, end + CALL_GAP)
  {
    var d, n := Decision(|seen|, draw, |plan|), |plan|;
    DrawnChildrenAreWithin(w.makesCall, seen, plan, shape.up, ds, k, start);
    LongerCallees(w.makesCall, seen, callee, plan, shape.up, ds, k, start);
    forall i | 0 <= i < |ds|
      ensures AsDrawn(w.makesCall, seen + [callee], plan', shape'.up, ds, k, start, i)
    {
      DrawnStays(w.makesCall, seen + [callee], plan, shape.up, plan', shape'.up, ds, k, start, i);
    }
    TimesStay(plan, shape.up, plan', shape'.up, ds, k, start);
    assert (ds + [d])[..|ds|] == ds;
    assert AsDrawn(w.makesCall, seen + [callee], plan', shape'.up, ds + [d], k, start, |ds|);
    forall j | 0 <= j < |plan'| && shape'.up[j] == k
      ensures HasChild(ds, j) || j == n
    {
      if j < n {
        assert shape.up[j] == k;
      }
    }
    OneMoreDrawn(w.makesCall, seen + [callee], plan', shape'.up, ds, d, k, start);
    OpenOneMore(seen, callee, shape.above[k] + {plan[k].row.service});
    PositionsOneMore(ds, d);
    TimesOneMore(plan', ds, d, start);
  }

  /** And the spans between k and the child stay accounted for. */
  lemma AccountedAround(
    w: World, plan: seq<PlannedSpan>, shape: Shape, k: nat, start: int, free: int, before: Book,
    plan': seq<PlannedSpan>, shape': Shape, after: Book)
    requires Appended(plan, shape, k, start, free, plan', shape') && |before.calls| == |plan|
    requires |shape'.up| == |shape'.above| == |plan'| == |after.calls| && before.calls <= after.calls
    requires AccountedFrom(w, plan, shape, before, k + 1) && AccountedFrom(w, plan', shape', after, |plan|)
    ensures AccountedFrom(w, plan', shape', after, k + 1)
  {
    forall j | k + 1 <= j < |plan'|
      ensures Accounted(w, plan', shape', after.calls[j], j)
    {
      if j < |plan| {
        assert after.calls[j] == before.calls[j];
        AccountedStays(w, plan, shape, plan', shape', before.calls[j], j);
      }
    }
  }

  /** A call that was drawn, once its subtree is there. */
  lemma CallIsNoted(
    w: World, plan: seq<PlannedSpan>, shape: Shape, k: nat, start: int, seen: seq<string>, lastEnd: int, free: int, before: Book,
    plan': seq<PlannedSpan>, shape': Shape, after: Book, callee: string, draw: nat)
    requires Appended(plan, shape, k, start, free, plan', shape') && before in Calling(w, plan, shape, k, start, seen, lastEnd, free)
    requires after in Settled(w, plan', shape', |plan|) && before.calls <= after.calls && before.log <= after.log
    requires callee !in shape.above[k] + {plan[k].row.service} && w.makesCall(draw) && NowDrawn(before, k, draw)
    requires plan'[|plan|].row.service == callee
    ensures var end := plan'[|plan|].row.end;
            With(after, k, Decision(|seen|, draw, |plan|)) in Calling(w, plan', shape', k, start, seen + [callee], end, end + CALL_GAP)
  {
    var ds, d := before.calls[k], Decision(|seen|, draw, |plan|);
    assert after.calls[k] == ds;
    WithIsLogged(after, k, d);
    CalledIsDrawn(w, plan, shape, k, start, seen, lastEnd, free, ds, plan', shape', callee, draw);
    AccountedAround(w, plan, shape, k, start, free, before, plan', shape', after);
    AccountedBehind(w, plan', shape', after, With(after, k, d), k);
  }

  /** All calls considered: the span's end completes its account. */
  lemma AllCalled(
    w: World, plan: seq<PlannedSpan>, shape: Shape, k: nat, start: int, lastEnd: int, free: int, book: Book, row: SpanRow)
    requires k < |plan| && book in Calling(w, plan, shape, k, start, w.cfg.CalleesOf(plan[k].row.service), lastEnd, free)
    requires row == plan[k].row.(start := start, end := row.end) && row.end == Later(start + w.latency(k), lastEnd)
    requires forall j :: 0 <= j < |plan| ==> shape.up[j] < j
    ensures book in Settled(w, plan[k := plan[k].(row := row)], shape, k)
  {
    var plan' := plan[k := plan[k].(row := row)];
    AllDrawnStays(
      w.makesCall, w.cfg.CalleesOf(row.service), plan, shape.up, plan', shape.up, book.calls[k], k, start);
    forall j | k <= j < |plan'|
      ensures Accounted(w, plan', shape, book.calls[j], j)
    {
      if j > k {
        AccountedStays(w, plan, shape, plan', shape, book.calls[j], j);
      }
    }
  }

  /** The whole trace is accounted for. */
  ghost predicate CallsAreDrawn(w: World, plan: seq<PlannedSpan>, shape: Shape) {
    exists book :: book in Settled(w, plan, shape, 0)
  }
}
