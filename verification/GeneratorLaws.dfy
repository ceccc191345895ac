/**
  What being drawn means for the spans of a trace: which calls each span makes, in which order and
  when (`loadgen/internal/topology/generate.go`).
 */
module GeneratorLaws {
  import opened Spans
  import opened TracePlan
  import opened CallBook

  /** The spans of the calls made, and the positions of these calls in the configuration. */
  function Kids(ds: seq<Decision>): seq<int> {
    if ds == [] then []
    else
      var last := ds[|ds| - 1];
      Kids(ds[..|ds| - 1]) + if last.child >= 0 then [last.child] else []
  }

  function At(ds: seq<Decision>): (at: seq<nat>)
    ensures |at| == |Kids(ds)|
  {
    if ds == [] then []
    else
      var last := ds[|ds| - 1];
      At(ds[..|ds| - 1]) + if last.child >= 0 then [last.position] else []
  }

  // ----- Positions -----

  lemma {:induction false} OpenPositionsAre(callees: seq<string>, path: set<string>, p: nat)
    ensures p in OpenPositions(callees, path) <==> p < |callees| && callees[p] !in path
  {
    if callees == [] {
    } else {
      OpenPositionsAre(callees[..|callees| - 1], path, p);
    }
  }

  lemma {:induction false} OpenPositionsIncrease(callees: seq<string>, path: set<string>)
    ensures Increasing(OpenPositions(callees, path))
  {
    if callees == [] {
    } else {
      var n := |callees| - 1;
      OpenPositionsIncrease(callees[..n], path);
      forall x | 0 <= x < |OpenPositions(callees[..n], path)|
        ensures OpenPositions(callees[..n], path)[x] < n
      {
        OpenPositionsAre(callees[..n], path, OpenPositions(callees[..n], path)[x]);
      }
    }
  }

  predicate Increasing(ps: seq<int>) {
    forall x, y :: 0 <= x < y < |ps| ==> ps[x] < ps[y]
  }

  // ----- The calls made -----

  /**
    These are all the calls of the span at k: some of its configured ones, in their order and each
    at most once, to services not on its path, one after the other.
   */
  ghost predicate CalledInOrder(
    callees: seq<string>, path: set<string>, plan: seq<PlannedSpan>, k: nat, start: int, kids: seq<int>, at: seq<nat>)
  {
    && |kids| == |at| && Increasing(kids) && Increasing(at)
    && (forall x :: 0 <= x < |kids| ==>
          && k < kids[x] < |plan| && at[x] < |callees|
          && plan[kids[x]].row.service == callees[at[x]] && callees[at[x]] !in path
          && plan[kids[x]].row.start == DueAfter(plan, kids[..x], start))
  }

  /** The first call is due after the overhead, each other one behind the one before. */
  function DueAfter(plan: seq<PlannedSpan>, kids: seq<int>, start: int): int {
    if kids == [] || !IsSpan(plan, kids[|kids| - 1]) then start + CALL_OVERHEAD
    else plan[kids[|kids| - 1]].row.end + CALL_GAP
  }

  function BackAfter(plan: seq<PlannedSpan>, kids: seq<int>, start: int): int {
    if kids == [] || !IsSpan(plan, kids[|kids| - 1]) then start else plan[kids[|kids| - 1]].row.end
  }

  lemma {:induction false} KidsAre(ds: seq<Decision>, j: int)
    ensures j in Kids(ds) <==> j >= 0 && HasChild(ds, j)
  {
    if ds == [] {
    } else {
      var n := |ds| - 1;
      KidsAre(ds[..n], j);
      if HasChild(ds, j) {
        var i :| 0 <= i < |ds| && ds[i].child == j;
        assert i == n || ds[..n][i].child == j;
      }
      if HasChild(ds[..n], j) {
        var i :| 0 <= i < n && ds[..n][i].child == j;
        assert ds[i].child == j;
      }
    }
  }

  lemma KidsOneMore(ds: seq<Decision>, d: Decision)
    ensures Kids(ds + [d]) == Kids(ds) + if d.child >= 0 then [d.child] else []
  {
    assert (ds + [d])[..|ds|] == ds;
  }

  lemma {:induction false} TimesOfKids(plan: seq<PlannedSpan>, ds: seq<Decision>, k: nat, start: int)
    requires ChildrenWithin(ds, k, |plan|)
    ensures FreeAfter(plan, ds, start) == DueAfter(plan, Kids(ds), start)
    ensures LastBack(plan, ds, start) == BackAfter(plan, Kids(ds), start)
  {
    if ds == [] {
    } else {
      var init, last := ds[..|ds| - 1], ds[|ds| - 1];
      TimesOfKids(plan, init, k, start);
      assert ds == init + [last];
      KidsOneMore(init, last);
      TimesOneMore(plan, init, last, start);
    }
  }

  /** The positions of the calls made are among those considered, before the last of them. */
  lemma {:induction false} AtIsWithin(ds: seq<Decision>)
    requires Increasing(Positions(ds))
    ensures Increasing(At(ds)) && forall p :: p in At(ds) ==> p in Positions(ds)
  {
    if ds == [] {
    } else {
      var init, last := ds[..|ds| - 1], ds[|ds| - 1];
      assert Positions(ds)[..|ds| - 1] == Positions(init) && Positions(ds)[|ds| - 1] == last.position;
      assert forall x :: 0 <= x < |init| ==> Positions(ds)[x] == Positions(init)[x];
      AtIsWithin(init);
      forall x | 0 <= x < |At(init)|
        ensures At(init)[x] < last.position
      {
        assert At(init)[x] in At(init);
        var y :| 0 <= y < |init| && Positions(init)[y] == At(init)[x];
        assert Positions(ds)[y] < Positions(ds)[|ds| - 1];
      }
    }
  }

  ghost predicate EachAsDrawn(
    makesCall: nat -> bool, callees: seq<string>, plan: seq<PlannedSpan>, up: seq<int>, ds: seq<Decision>, k: nat, start: int)
    requires |up| == |plan|
  {
    forall i :: 0 <= i < |ds| ==> AsDrawn(makesCall, callees, plan, up, ds, k, start, i)
  }

  lemma {:induction false} KidsIncrease(
    makesCall: nat -> bool, callees: seq<string>, plan: seq<PlannedSpan>, up: seq<int>, ds: seq<Decision>, k: nat, start: int)
    requires |up| == |plan| && EachAsDrawn(makesCall, callees, plan, up, ds, k, start)
    ensures Increasing(Kids(ds))
  {
    if ds == [] {
    } else {
      var n := |ds| - 1;
      var init, last := ds[..n], ds[n];
      DrawnInit(makesCall, callees, plan, up, ds, k, start);
      KidsIncrease(makesCall, callees, plan, up, init, k, start);
      assert AsDrawn(makesCall, callees, plan, up, ds, k, start, n);
      if last.child >= 0 {
        forall x | 0 <= x < |Kids(init)|
          ensures Kids(init)[x] < last.child
        {
          KidsAre(init, Kids(init)[x]);
          assert Kids(init)[x] in Kids(init);
          var h :| 0 <= h < n && init[h].child == Kids(init)[x];
          assert ds[h].child == init[h].child;
        }
      }
    }
  }

  lemma DrawnInit(
    makesCall: nat -> bool, callees: seq<string>, plan: seq<PlannedSpan>, up: seq<int>, ds: seq<Decision>, k: nat, start: int)
    requires |up| == |plan| && ds != [] && EachAsDrawn(makesCall, callees, plan, up, ds, k, start)
    ensures EachAsDrawn(makesCall, callees, plan, up, ds[..|ds| - 1], k, start)
  {
    var init := ds[..|ds| - 1];
    forall i | 0 <= i < |init|
      ensures AsDrawn(makesCall, callees, plan, up, init, k, start, i)
    {
      assert AsDrawn(makesCall, callees, plan, up, ds, k, start, i);
      assert init[..i] == ds[..i];
    }
  }

  lemma {:induction false} KidsAreCalls(
    makesCall: nat -> bool, callees: seq<string>, plan: seq<PlannedSpan>, up: seq<int>, ds: seq<Decision>, k: nat, start: int, x: nat)
    requires |up| == |plan| && EachAsDrawn(makesCall, callees, plan, up, ds, k, start)
    requires x < |Kids(ds)|
    ensures k < Kids(ds)[x] < |plan| && At(ds)[x] < |callees| && plan[Kids(ds)[x]].row.service == callees[At(ds)[x]]
    ensures plan[Kids(ds)[x]].row.start == DueAfter(plan, Kids(ds)[..x], start)
  {
    var n := |ds| - 1;
    var init := ds[..n];
    DrawnInit(makesCall, callees, plan, up, ds, k, start);
    assert AsDrawn(makesCall, callees, plan, up, ds, k, start, n);
    if x < |Kids(init)| {
      KidsAreCalls(makesCall, callees, plan, up, init, k, start, x);
      assert Kids(ds)[..x] == Kids(init)[..x];
    } else {
      assert Kids(ds)[..x] == Kids(init);
      forall i | 0 <= i < |init|
        ensures init[i].child == -1 || k < init[i].child < |plan|
      {
        assert AsDrawn(makesCall, callees, plan, up, init, k, start, i);
      }
      TimesOfKids(plan, init, k, start);
    }
  }

  lemma {:induction false} AllDrawnAllMade(
    makesCall: nat -> bool, callees: seq<string>, plan: seq<PlannedSpan>, up: seq<int>, ds: seq<Decision>, k: nat, start: int)
    requires |up| == |plan| && EachAsDrawn(makesCall, callees, plan, up, ds, k, start)
    requires forall n :: makesCall(n)
    ensures At(ds) == Positions(ds)
  {
    if ds == [] {
    } else {
      var n := |ds| - 1;
      DrawnInit(makesCall, callees, plan, up, ds, k, start);
      AllDrawnAllMade(makesCall, callees, plan, up, ds[..n], k, start);
      assert AsDrawn(makesCall, callees, plan, up, ds, k, start, n);
      assert Positions(ds) == Positions(ds[..n]) + [ds[n].position];
    }
  }

  lemma {:induction false} NoneDrawnNoneMade(
    makesCall: nat -> bool, callees: seq<string>, plan: seq<PlannedSpan>, up: seq<int>, ds: seq<Decision>, k: nat, start: int)
    requires |up| == |plan| && EachAsDrawn(makesCall, callees, plan, up, ds, k, start)
    requires forall n :: !makesCall(n)
    ensures Kids(ds) == []
  {
    if ds == [] {
    } else {
      DrawnInit(makesCall, callees, plan, up, ds, k, start);
      NoneDrawnNoneMade(makesCall, callees, plan, up, ds[..|ds| - 1], k, start);
      assert AsDrawn(makesCall, callees, plan, up, ds, k, start, |ds| - 1);
    }
  }

  /**
    The spans directly below the one at k are its calls in order, started one behind the other; it
    ends when its own latency is over and the last of them is back.  If all draws say so it makes
    every configured call that does not lead back to its path, and if none does, none.
   */
  lemma CallsOfSpan(w: World, plan: seq<PlannedSpan>, shape: Shape, k: nat) returns (kids: seq<int>, at: seq<nat>)
    requires CallsAreDrawn(w, plan, shape) && k < |plan|
    ensures |shape.up| == |shape.above| == |plan|
    ensures var (row, callees) := (plan[k].row, w.cfg.CalleesOf(plan[k].row.service));
            && CalledInOrder(callees, shape.above[k] + {row.service}, plan, k, row.start, kids, at)
            && row.end == Later(row.start + w.latency(k), BackAfter(plan, kids, row.start))
            && ((forall n :: w.makesCall(n)) ==> at == OpenPositions(callees, shape.above[k] + {row.service}))
            && ((forall n :: !w.makesCall(n)) ==> kids == [])
    ensures forall j :: j in kids <==> 0 <= j < |plan| && shape.up[j] == k
  {
    var book :| book in Settled(w, plan, shape, 0);
    var ds := book.calls[k];
    assert Accounted(w, plan, shape, ds, k);
    kids, at := Kids(ds), At(ds);
    AccountedInOrder(w, plan, shape, ds, k);
    ChildrenAreKids(w, plan, shape, ds, k);
    var (row, callees) := (plan[k].row, w.cfg.CalleesOf(plan[k].row.service));
    DrawnChildrenAreWithin(w.makesCall, callees, plan, shape.up, ds, k, row.start);
    TimesOfKids(plan, ds, k, row.start);
    if forall n :: w.makesCall(n) {
      AllDrawnAllMade(w.makesCall, callees, plan, shape.up, ds, k, row.start);
    }
    if forall n :: !w.makesCall(n) {
      NoneDrawnNoneMade(w.makesCall, callees, plan, shape.up, ds, k, row.start);
    }
  }

  lemma ChildrenAreKids(w: World, plan: seq<PlannedSpan>, shape: Shape, ds: seq<Decision>, k: nat)
    requires |shape.up| == |shape.above| == |plan| && k < |plan| && Accounted(w, plan, shape, ds, k)
    ensures forall j :: j in Kids(ds) <==> 0 <= j < |plan| && shape.up[j] == k
  {
    var (row, callees) := (plan[k].row, w.cfg.CalleesOf(plan[k].row.service));
    forall j
      ensures j in Kids(ds) <==> 0 <= j < |plan| && shape.up[j] == k
    {
      KidsAre(ds, j);
      if j >= 0 && HasChild(ds, j) {
        var i :| 0 <= i < |ds| && ds[i].child == j;
        assert AsDrawn(w.makesCall, callees, plan, shape.up, ds, k, row.start, i);
      }
    }
  }

  lemma AccountedInOrder(w: World, plan: seq<PlannedSpan>, shape: Shape, ds: seq<Decision>, k: nat)
    requires |shape.up| == |shape.above| == |plan| && k < |plan| && Accounted(w, plan, shape, ds, k)
    ensures var (row, callees) := (plan[k].row, w.cfg.CalleesOf(plan[k].row.service));
            CalledInOrder(callees, shape.above[k] + {row.service}, plan, k, row.start, Kids(ds), At(ds))
  {
    var (row, callees) := (plan[k].row, w.cfg.CalleesOf(plan[k].row.service));
    var path := shape.above[k] + {row.service};
    OpenPositionsIncrease(callees, path);
    AtIsWithin(ds);
    KidsIncrease(w.makesCall, callees, plan, shape.up, ds, k, row.start);
    forall x | 0 <= x < |Kids(ds)|
      ensures k < Kids(ds)[x] < |plan| && At(ds)[x] < |callees| && plan[Kids(ds)[x]].row.service == callees[At(ds)[x]]
      ensures callees[At(ds)[x]] !in path && plan[Kids(ds)[x]].row.start == DueAfter(plan, Kids(ds)[..x], row.start)
    {
      KidsAreCalls(w.makesCall, callees, plan, shape.up, ds, k, row.start, x);
      assert At(ds)[x] in At(ds);
      OpenPositionsAre(callees, path, At(ds)[x]);
    }
  }

  /** No two calls of a trace share a draw. */
  lemma DrawsAreUsedOnce(book: Book, k: nat, i: nat, l: nat, j: nat)
    requires Logged(book) && k < |book.calls| && i < |book.calls[k]| && l < |book.calls| && j < |book.calls[l]|
    requires book.calls[k][i].draw == book.calls[l][j].draw
    ensures k == l && i == j
  {
    assert LoggedAt(book, k, i) && LoggedAt(book, l, j);
  }
}
