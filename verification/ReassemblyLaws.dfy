/** What the specification of reassembly means: which traces are complete, which spans are cyclic, what row order can change. */
module ReassemblyLaws {
  import opened Collections
  import opened Spans
  import opened ParentChain
  import opened Reassembly

  /** `cycle_rejected` is exactly the chain that is still going after as many links as the trace has rows. */
  lemma CycleRejectedIffStillClimbing(rows: seq<SpanRow>, id: string)
    requires UniqueIds(rows) && id in Parents(rows)
    ensures LabelOf(Parents(rows), id) == CycleRejected <==> StillClimbing(Parents(rows), id, |rows|)
  {
    var par := Parents(rows);
    UnanchoredIffStillClimbing(par, id);
    WhereAllCounts(rows);
    if IsOrphan(par, id) {
      SeedIsAnchored(par, id);
    }
  }

  lemma WhereAllCounts(rows: seq<SpanRow>)
    requires UniqueIds(rows)
    ensures |Parents(rows)| == |rows|
  {
    WhereCounts(rows, Ids(rows));
    WhereAll(rows, Ids(rows));
    assert |Parents(rows)| == |Parents(rows).Keys|;
  }

  lemma {:induction false} WhereAll(rows: seq<SpanRow>, ids: set<string>)
    requires Ids(rows) <= ids
    ensures Where(rows, ids) == rows
  {
    if rows == [] {
    } else {
      var init, last := rows[..|rows| - 1], rows[|rows| - 1];
      assert rows == init + [last];
      assert last in rows && forall r :: r in init ==> r in rows;
      WhereAll(init, ids);
    }
  }

  // ----- Complete traces -----

  /** Every chain ends at this one root. */
  ghost predicate TreeRootedAt(par: map<string, string>, root: string) {
    && root in par && IsRoot(par, root)
    && forall id :: id in par ==> exists n: nat :: Climbs(par, id, n, root)
  }

  ghost predicate OneTree(par: map<string, string>) {
    exists root :: TreeRootedAt(par, root)
  }

  lemma CompleteIffOneTree(rows: seq<SpanRow>)
    requires UniqueIds(rows)
    ensures Summarize(rows).reason == Complete <==> OneTree(Parents(rows))
  {
    var par := Parents(rows);
    assert Summarize(rows).reason == ReasonFor(rows);
    if ReasonFor(rows) == Complete {
      CompleteHasOneSeed(rows);
      OneSeedIsTree(par, RootRows(rows)[0].spanId);
    } else if root :| TreeRootedAt(par, root) {
      TreeHasOneSeed(par, root);
      OneSeedIsComplete(rows, root);
    }
  }

  ghost predicate OneSeed(par: map<string, string>, root: string) {
    && root in par && IsRoot(par, root) && !HasCycle(par)
    && forall id :: id in par && IsSeed(par, id) ==> id == root
  }

  lemma OneSeedIsTree(par: map<string, string>, root: string)
    requires OneSeed(par, root)
    ensures TreeRootedAt(par, root)
  {
    forall id | id in par
      ensures exists n: nat :: Climbs(par, id, n, root)
    {
      assert Anchored(par, id);
      var n: nat, seed :| Climbs(par, id, n, seed);
      ClimbEndsAtSeed(par, id, n, seed);
    }
  }

  lemma TreeHasOneSeed(par: map<string, string>, root: string)
    requires TreeRootedAt(par, root)
    ensures OneSeed(par, root)
  {
    forall id | id in par && IsSeed(par, id)
      ensures id == root
    {
      var n: nat :| Climbs(par, id, n, root);
      ClimbIsUnique(par, id, n, root, 0, id);
    }
  }

  lemma CompleteHasOneSeed(rows: seq<SpanRow>)
    requires UniqueIds(rows) && ReasonFor(rows) == Complete
    ensures |RootRows(rows)| == 1 && OneSeed(Parents(rows), RootRows(rows)[0].spanId)
  {
    var par, roots := Parents(rows), RootRows(rows);
    RootRowsAre(rows, roots[0]);
    ParentsOfUnique(rows, roots[0]);
    SeedsAre(rows);
    assert roots == [roots[0]] && roots + OrphanRows(rows, Ids(rows)) == [roots[0]];
    forall id | id in par && IsSeed(par, id)
      ensures id == roots[0].spanId
    {
      assert HasId([roots[0]], id);
    }
  }

  lemma OneSeedIsComplete(rows: seq<SpanRow>, root: string)
    requires UniqueIds(rows) && OneSeed(Parents(rows), root)
    ensures ReasonFor(rows) == Complete
  {
    OneSeedRows(rows, root);
  }

  lemma OneSeedRows(rows: seq<SpanRow>, root: string)
    requires UniqueIds(rows) && OneSeed(Parents(rows), root)
    ensures |RootRows(rows)| == 1 && OrphanRows(rows, Ids(rows)) == []
  {
    ParentsAreLinks(rows);
    RootsAreRows(rows);
    OrphansAreRows(rows);
    OneSeedOfRows(rows, Parents(rows), root);
  }

  lemma OneSeedOfRows(rows: seq<SpanRow>, par: map<string, string>, root: string)
    requires LinksOf(rows, par) && OneSeed(par, root)
    ensures HasRoot(rows) && !HasTwoRoots(rows) && !HasOrphan(rows)
  {
    assert HasId(rows, root);
    forall r, s | r in rows && s in rows && r.parent == "" && s.parent == ""
      ensures r == s
    {
      assert IsSeed(par, r.spanId) && IsSeed(par, s.spanId);
      RowsById(rows, r, s);
    }
    forall c | c in rows
      ensures !NamesAbsent(rows, c)
    {
      OrphanIsRow(rows, par, c);
      assert IsOrphan(par, c.spanId) ==> IsSeed(par, c.spanId);
    }
  }

  lemma {:induction false} RootRowsAreWhere(rows: seq<SpanRow>, roots: set<string>)
    requires forall r :: r in rows ==> (r.spanId in roots <==> r.parent == "")
    ensures RootRows(rows) == Where(rows, roots)
  {
    if rows == [] {
    } else {
      var init, last := rows[..|rows| - 1], rows[|rows| - 1];
      assert rows == init + [last];
      RootRowsAreWhere(init, roots);
    }
  }

  // ----- What the results say of the rows alone -----

  ghost predicate IsParentOf(p: SpanRow, c: SpanRow) {
    c.parent != "" && p.spanId == c.parent
  }

  /** The row names a parent that is not there. */
  ghost predicate NamesAbsent(rows: seq<SpanRow>, c: SpanRow) {
    c.parent != "" && forall p :: p in rows ==> !IsParentOf(p, c)
  }

  /** From r the parent can be looked up k times running. */
  ghost predicate Follows(rows: seq<SpanRow>, r: SpanRow, k: nat)
    decreases k
  {
    r in rows && (k == 0 || exists p :: p in rows && IsParentOf(p, r) && Follows(rows, p, k - 1))
  }

  /** Looking it up n times leads to the given root. */
  ghost predicate Reaches(rows: seq<SpanRow>, r: SpanRow, n: nat, root: SpanRow)
    decreases n
  {
    r in rows && if n == 0 then r == root else exists p :: p in rows && IsParentOf(p, r) && Reaches(rows, p, n - 1, root)
  }

  /** The links are those of the rows. */
  ghost predicate LinksOf(rows: seq<SpanRow>, par: map<string, string>) {
    && UniqueIds(rows)
    && (forall r :: r in rows ==> r.spanId in par && par[r.spanId] == r.parent)
    && (forall id :: id in par ==> HasId(rows, id))
  }

  lemma ParentsAreLinks(rows: seq<SpanRow>)
    requires UniqueIds(rows)
    ensures LinksOf(rows, Parents(rows))
  {
    forall r | r in rows
      ensures r.spanId in Parents(rows) && Parents(rows)[r.spanId] == r.parent
    {
      ParentsOfUnique(rows, r);
    }
  }

  lemma ParentIsRow(rows: seq<SpanRow>, par: map<string, string>, r: SpanRow) returns (p: SpanRow)
    requires LinksOf(rows, par) && r in rows && r.parent != "" && r.parent in par
    ensures p in rows && IsParentOf(p, r)
    ensures forall q :: q in rows && IsParentOf(q, r) ==> q == p
  {
    assert HasId(rows, r.parent);
    p :| p in rows && p.spanId == r.parent;
    forall q | q in rows && IsParentOf(q, r)
      ensures q == p
    {
      RowsById(rows, p, q);
    }
  }

  lemma OrphanIsRow(rows: seq<SpanRow>, par: map<string, string>, r: SpanRow)
    requires LinksOf(rows, par) && r in rows
    ensures IsOrphan(par, r.spanId) <==> NamesAbsent(rows, r)
  {
    if r.parent != "" && r.parent in par {
      var p := ParentIsRow(rows, par, r);
    }
  }

  lemma {:induction false} FollowsIff(rows: seq<SpanRow>, par: map<string, string>, r: SpanRow, k: nat)
    requires LinksOf(rows, par) && r in rows
    ensures Follows(rows, r, k) <==> StillClimbing(par, r.spanId, k)
    decreases k
  {
    OrphanIsRow(rows, par, r);
    if k == 0 {
    } else if r.parent != "" && r.parent in par {
      var p := ParentIsRow(rows, par, r);
      FollowsIff(rows, par, p, k - 1);
    }
  }

  lemma {:induction false} ReachesIff(rows: seq<SpanRow>, par: map<string, string>, r: SpanRow, n: nat, root: SpanRow)
    requires LinksOf(rows, par) && r in rows && root in rows && root.parent == ""
    ensures Reaches(rows, r, n, root) <==> Climbs(par, r.spanId, n, root.spanId)
    decreases n
  {
    OrphanIsRow(rows, par, r);
    if n == 0 {
      if r.spanId == root.spanId {
        RowsById(rows, r, root);
      }
    } else if r.parent != "" && r.parent in par {
      var p := ParentIsRow(rows, par, r);
      ReachesIff(rows, par, p, n - 1, root);
    }
  }

  /** Each label, as the rows have it. */
  lemma LabelIs(rows: seq<SpanRow>, r: SpanRow)
    requires UniqueIds(rows) && r in rows
    ensures r.spanId in Parents(rows)
    ensures LabelOf(Parents(rows), r.spanId)
         == if NamesAbsent(rows, r) then OrphanMissingParent else if Follows(rows, r, |rows|) then CycleRejected else Ok
    ensures !(NamesAbsent(rows, r) && Follows(rows, r, |rows|))
  {
    ParentsAreLinks(rows);
    OrphanIsRow(rows, Parents(rows), r);
    FollowsIff(rows, Parents(rows), r, |rows|);
    CycleRejectedIffStillClimbing(rows, r.spanId);
    assert |rows| > 0;
  }

  ghost predicate HasRoot(rows: seq<SpanRow>) {
    exists r :: r in rows && r.parent == ""
  }

  ghost predicate HasTwoRoots(rows: seq<SpanRow>) {
    exists r, s :: r in rows && s in rows && r != s && r.parent == "" && s.parent == ""
  }

  ghost predicate HasOrphan(rows: seq<SpanRow>) {
    exists c :: c in rows && NamesAbsent(rows, c)
  }

  ghost predicate GoesRound(rows: seq<SpanRow>) {
    exists r :: r in rows && Follows(rows, r, |rows|)
  }

  lemma RootRowsAreUnique(rows: seq<SpanRow>)
    requires UniqueIds(rows)
    ensures UniqueIds(RootRows(rows))
  {
    var roots := set r | r in rows && r.parent == "" :: r.spanId;
    forall r | r in rows
      ensures r.spanId in roots <==> r.parent == ""
    {
      if q :| q in rows && q.parent == "" && q.spanId == r.spanId {
        RowsById(rows, q, r);
      }
    }
    RootRowsAreWhere(rows, roots);
    WhereIs(rows, roots);
  }

  lemma RootsAreRows(rows: seq<SpanRow>)
    requires UniqueIds(rows)
    ensures RootRows(rows) == [] <==> !HasRoot(rows)
    ensures |RootRows(rows)| > 1 <==> HasTwoRoots(rows)
  {
    var roots := RootRows(rows);
    RootRowsAreUnique(rows);
    forall r
      ensures r in roots <==> r in rows && r.parent == ""
    {
      RootRowsAre(rows, r);
    }
    if roots != [] {
      assert roots[0] in roots;
    }
    if |roots| > 1 {
      assert roots[0] in roots && roots[1] in roots && roots[0].spanId != roots[1].spanId;
    }
  }

  lemma OrphansAreRows(rows: seq<SpanRow>)
    ensures OrphanRows(rows, Ids(rows)) == [] <==> !HasOrphan(rows)
    ensures forall c :: c in OrphanRows(rows, Ids(rows)) <==> c in rows && NamesAbsent(rows, c)
  {
    var orphans := OrphanRows(rows, Ids(rows));
    forall c
      ensures c in orphans <==> c in rows && NamesAbsent(rows, c)
    {
      OrphanRowsAre(rows, Ids(rows), c);
      if c.parent in Ids(rows) && c.parent != "" {
        var p :| p in rows && p.spanId == c.parent;
        assert IsParentOf(p, c);
      }
    }
    if orphans != [] {
      assert orphans[0] in orphans;
    }
  }

  lemma CyclesAreRows(rows: seq<SpanRow>, par: map<string, string>)
    requires LinksOf(rows, par) && |par| == |rows|
    ensures HasCycle(par) <==> GoesRound(rows)
  {
    forall r | r in rows
      ensures Follows(rows, r, |rows|) <==> !Anchored(par, r.spanId)
    {
      FollowsIff(rows, par, r, |rows|);
      UnanchoredIffStillClimbing(par, r.spanId);
    }
    if id :| id in par && !Anchored(par, id) {
      assert HasId(rows, id);
      var r :| r in rows && r.spanId == id;
      assert Follows(rows, r, |rows|);
    }
    if r :| r in rows && Follows(rows, r, |rows|) {
      assert !Anchored(par, r.spanId);
    }
  }

  /** Each reason, exactly when the rows give it. */
  lemma ReasonIs(rows: seq<SpanRow>)
    requires UniqueIds(rows)
    ensures var reason := Summarize(rows).reason;
            && (reason == MissingRoot <==> !HasRoot(rows))
            && (reason == MultipleRoots <==> HasTwoRoots(rows))
            && (reason == Orphaned <==> HasRoot(rows) && !HasTwoRoots(rows) && HasOrphan(rows))
            && (reason == Cyclic <==> HasRoot(rows) && !HasTwoRoots(rows) && !HasOrphan(rows) && GoesRound(rows))
            && (reason == Complete <==> HasRoot(rows) && !HasTwoRoots(rows) && !HasOrphan(rows) && !GoesRound(rows))
  {
    RootsAreRows(rows);
    OrphansAreRows(rows);
    ParentsAreLinks(rows);
    WhereAllCounts(rows);
    CyclesAreRows(rows, Parents(rows));
  }

  // ----- Row order -----

  /** Labels never depend on row order. */
  lemma LabelsIgnoreOrder(rows: seq<SpanRow>, rows': seq<SpanRow>, labels: seq<Classification>)
    requires UniqueIds(rows) && multiset(rows) == multiset(rows') && OneLabelEach(rows, labels)
    ensures OneLabelEach(rows', labels)
  {
    UniqueIdsOfPermutation(rows, rows');
    ParentsOfPermutation(rows, rows');
    assert Ids(rows) == Parents(rows).Keys == Parents(rows').Keys == Ids(rows');
  }

  ghost predicate StartsFirst(rows: seq<SpanRow>, r: SpanRow) {
    && r in rows && r.parent == ""
    && forall s :: s in rows && s.parent == "" ==> r.start <= s.start
  }

  /** The i-th row is the root a summary describes: of those that start first, the first. */
  ghost predicate IsCanonical(rows: seq<SpanRow>, i: nat) {
    i < |rows| && StartsFirst(rows, rows[i]) && forall j :: 0 <= j < i ==> !StartsFirst(rows, rows[j])
  }

  lemma EarliestOneMore(roots: seq<SpanRow>, last: SpanRow)
    requires roots != []
    ensures Earliest(roots + [last]) == if last.start < Earliest(roots).start then last else Earliest(roots)
  {
    assert (roots + [last])[..|roots|] == roots;
  }

  lemma RootRowsOneMore(rows: seq<SpanRow>, last: SpanRow)
    ensures RootRows(rows + [last]) == RootRows(rows) + if last.parent == "" then [last] else []
  {
    assert (rows + [last])[..|rows|] == rows;
  }

  /** One more row takes over exactly if it is a root that starts earlier. */
  lemma CanonicalOneMore(rows: seq<SpanRow>, i: nat, last: SpanRow)
    requires IsCanonical(rows, i)
    ensures if last.parent == "" && last.start < rows[i].start then IsCanonical(rows + [last], |rows|)
            else IsCanonical(rows + [last], i)
  {
    var all := rows + [last];
    assert forall r :: r in all <==> r in rows || r == last;
    if last.parent == "" && last.start < rows[i].start {
      assert StartsFirst(all, last);
      forall j | 0 <= j < |rows|
        ensures !StartsFirst(all, all[j])
      {
        assert all[j] == rows[j] && all[j] in rows && last in all;
      }
    } else {
      assert StartsFirst(all, rows[i]);
      forall j | 0 <= j < i
        ensures !StartsFirst(all, all[j])
      {
        assert all[j] == rows[j] && rows[i] in all && !StartsFirst(rows, rows[j]);
      }
    }
  }

  lemma FirstCanonical(rows: seq<SpanRow>, last: SpanRow)
    requires last.parent == "" && forall r :: r in rows ==> r.parent != ""
    ensures IsCanonical(rows + [last], |rows|)
  {
    var all := rows + [last];
    forall j | 0 <= j < |rows|
      ensures !StartsFirst(all, all[j])
    {
      assert all[j] in rows;
    }
  }

  lemma {:induction false} EarliestIsCanonical(rows: seq<SpanRow>) returns (i: nat)
    requires RootRows(rows) != []
    ensures IsCanonical(rows, i) && rows[i] == Earliest(RootRows(rows))
  {
    var init, last := rows[..|rows| - 1], rows[|rows| - 1];
    assert rows == init + [last];
    RootRowsOneMore(init, last);
    if RootRows(init) == [] {
      i := |init|;
      assert RootRows(rows) == [last];
      forall r | r in init
        ensures r.parent != ""
      {
        RootRowsAre(init, r);
      }
      FirstCanonical(init, last);
    } else {
      i := EarliestIsCanonical(init);
      CanonicalOneMore(init, i, last);
      EarliestOneMore(RootRows(init), last);
      if last.parent == "" && last.start < init[i].start {
        i := |init|;
      } else if last.parent != "" {
        assert RootRows(rows) == RootRows(init);
      }
    }
  }

  /** A root's depth: one more than the longest way up to it. */
  ghost predicate IsDepth(rows: seq<SpanRow>, root: SpanRow, depth: nat) {
    && depth > 0
    && (exists r :: r in rows && Reaches(rows, r, depth - 1, root))
    && forall r, n: nat :: Reaches(rows, r, n, root) ==> n < depth
  }

  lemma DepthOfRows(rows: seq<SpanRow>, par: map<string, string>, root: SpanRow, depth: nat)
    requires LinksOf(rows, par) && root in rows && root.parent == "" && depth == Depth(par, root.spanId)
    ensures IsDepth(rows, root, depth)
  {
    DepthIsReached(par, root.spanId);
    var id :| Climbs(par, id, depth - 1, root.spanId);
    assert HasId(rows, id);
    var r :| r in rows && r.spanId == id;
    ReachesIff(rows, par, r, depth - 1, root);
    forall q, n: nat | Reaches(rows, q, n, root)
      ensures n < depth
    {
      ReachesIff(rows, par, q, n, root);
    }
  }

  lemma OrphansAreCounted(rows: seq<SpanRow>, orphans: set<SpanRow>)
    requires UniqueIds(rows) && orphans == set c | c in rows && NamesAbsent(rows, c)
    ensures |OrphanRows(rows, Ids(rows))| == |orphans|
  {
    var os := OrphanRows(rows, Ids(rows));
    OrphansAreRows(rows);
    OrphanIdsAre(rows);
    WhereIs(rows, Ids(os));
    DistinctIsCardinality(os);
    assert Elements(os) == orphans;
  }

  /** All the other fields of a summary, as the rows have them. */
  lemma SummaryIs(rows: seq<SpanRow>)
    requires UniqueIds(rows)
    ensures var s := Summarize(rows);
            && s.spanCount == |rows| && s.orphanCount == |set c | c in rows && NamesAbsent(rows, c)|
            && (!HasRoot(rows) ==> s.depth == 0 && s.rootService == "")
            && (HasRoot(rows) ==>
                  exists i: nat :: IsCanonical(rows, i) && s.rootService == rows[i].service && IsDepth(rows, rows[i], s.depth))
  {
    RootsAreRows(rows);
    OrphansAreCounted(rows, set c | c in rows && NamesAbsent(rows, c));
    if HasRoot(rows) {
      var i := EarliestIsCanonical(rows);
      ParentsAreLinks(rows);
      DepthOfRows(rows, Parents(rows), rows[i], Summarize(rows).depth);
    }
  }

  /** Roots that tie for the earliest start look the same to a summary. */
  ghost predicate FirstRootsAgree(rows: seq<SpanRow>) {
    forall r, s :: StartsFirst(rows, r) && StartsFirst(rows, s) ==>
                     r.service == s.service && Depth(Parents(rows), r.spanId) == Depth(Parents(rows), s.spanId)
  }

  ghost predicate OrderIndependent(rows: seq<SpanRow>) {
    forall rows' :: multiset(rows') == multiset(rows) ==> Summarize(rows') == Summarize(rows)
  }

  /** The summary is free of row order exactly when the earliest roots agree. */
  lemma SummaryIgnoresOrderIff(rows: seq<SpanRow>)
    requires UniqueIds(rows)
    ensures OrderIndependent(rows) <==> FirstRootsAgree(rows)
  {
    if FirstRootsAgree(rows) {
      forall rows' | multiset(rows') == multiset(rows)
        ensures Summarize(rows') == Summarize(rows)
      {
        AgreeingSummaries(rows, rows');
      }
    }
    if OrderIndependent(rows) {
      forall r, s | StartsFirst(rows, r) && StartsFirst(rows, s)
        ensures r.service == s.service && Depth(Parents(rows), r.spanId) == Depth(Parents(rows), s.spanId)
      {
        BroughtForward(rows, r);
        BroughtForward(rows, s);
      }
    }
  }

  /** It can happen that they do not: two roots of different services start together. */
  lemma SummaryCanDependOnOrder() returns (rows: seq<SpanRow>)
    ensures UniqueIds(rows) && !OrderIndependent(rows)
  {
    var r, s := SpanRow("t", "1", "", "a", 0, 1, 0), SpanRow("t", "2", "", "b", 0, 1, 0);
    rows := [r, s];
    assert StartsFirst(rows, r) && StartsFirst(rows, s);
    SummaryIgnoresOrderIff(rows);
  }

  lemma {:induction false} RootRowsCount(rows: seq<SpanRow>, r: SpanRow)
    ensures multiset(RootRows(rows))[r] == if r.parent == "" then multiset(rows)[r] else 0
  {
    if rows == [] {
    } else {
      var init, last := rows[..|rows| - 1], rows[|rows| - 1];
      assert rows == init + [last];
      RootRowsCount(init, r);
    }
  }

  lemma {:induction false} OrphanRowsCount(rows: seq<SpanRow>, ids: set<string>, r: SpanRow)
    ensures multiset(OrphanRows(rows, ids))[r] == if r.parent != "" && r.parent !in ids then multiset(rows)[r] else 0
  {
    if rows == [] {
    } else {
      var init, last := rows[..|rows| - 1], rows[|rows| - 1];
      assert rows == init + [last];
      OrphanRowsCount(init, ids, r);
    }
  }

  lemma SameRoots(rows: seq<SpanRow>, rows': seq<SpanRow>)
    requires multiset(rows) == multiset(rows')
    ensures |RootRows(rows)| == |RootRows(rows')|
  {
    forall r
      ensures multiset(RootRows(rows))[r] == multiset(RootRows(rows'))[r]
    {
      RootRowsCount(rows, r);
      RootRowsCount(rows', r);
    }
    assert multiset(RootRows(rows)) == multiset(RootRows(rows'));
    assert |multiset(RootRows(rows))| == |RootRows(rows)| && |multiset(RootRows(rows'))| == |RootRows(rows')|;
  }

  lemma SameOrphans(rows: seq<SpanRow>, rows': seq<SpanRow>, ids: set<string>)
    requires multiset(rows) == multiset(rows')
    ensures |OrphanRows(rows, ids)| == |OrphanRows(rows', ids)|
  {
    var o, o' := OrphanRows(rows, ids), OrphanRows(rows', ids);
    forall r
      ensures multiset(o)[r] == multiset(o')[r]
    {
      OrphanRowsCount(rows, ids, r);
      OrphanRowsCount(rows', ids, r);
    }
    assert multiset(o) == multiset(o');
    assert |multiset(o)| == |o| && |multiset(o')| == |o'|;
  }

  lemma SameMembers(rows: seq<SpanRow>, rows': seq<SpanRow>)
    requires multiset(rows) == multiset(rows')
    ensures |rows| == |rows'| && forall r :: r in rows <==> r in rows'
  {
    assert |multiset(rows)| == |rows| && |multiset(rows')| == |rows'|;
    forall r
      ensures r in rows <==> r in rows'
    {
      assert r in rows <==> r in multiset(rows);
      assert r in rows' <==> r in multiset(rows');
    }
  }

  /** All of a summary but its first root is a function of the set of rows. */
  lemma SameButFirstRoot(rows: seq<SpanRow>, rows': seq<SpanRow>)
    requires UniqueIds(rows) && multiset(rows) == multiset(rows')
    ensures Parents(rows) == Parents(rows')
    ensures RootRows(rows) == [] <==> RootRows(rows') == []
    ensures Summarize(rows').spanCount == Summarize(rows).spanCount
    ensures Summarize(rows').orphanCount == Summarize(rows).orphanCount
    ensures Summarize(rows').reason == Summarize(rows).reason
  {
    UniqueIdsOfPermutation(rows, rows');
    ParentsOfPermutation(rows, rows');
    SameMembers(rows, rows');
    SameRoots(rows, rows');
    assert Ids(rows) == Parents(rows).Keys && Ids(rows') == Parents(rows').Keys;
    SameOrphans(rows, rows', Ids(rows));
  }

  lemma EarliestStartsFirst(rows: seq<SpanRow>)
    requires RootRows(rows) != []
    ensures StartsFirst(rows, Earliest(RootRows(rows)))
  {
    EarliestIs(RootRows(rows));
    forall s
      ensures s in RootRows(rows) <==> s in rows && s.parent == ""
    {
      RootRowsAre(rows, s);
    }
  }

  lemma AgreeingSummaries(rows: seq<SpanRow>, rows': seq<SpanRow>)
    requires UniqueIds(rows) && multiset(rows) == multiset(rows') && FirstRootsAgree(rows)
    ensures Summarize(rows') == Summarize(rows)
  {
    SameButFirstRoot(rows, rows');
    if RootRows(rows) != [] {
      EarliestStartsFirst(rows);
      EarliestStartsFirst(rows');
      SameMembers(rows, rows');
      assert StartsFirst(rows, Earliest(RootRows(rows')));
    }
  }

  /** Moving an earliest root to the front makes it the one the summary describes. */
  lemma BroughtForward(rows: seq<SpanRow>, r: SpanRow)
    requires UniqueIds(rows) && OrderIndependent(rows) && StartsFirst(rows, r)
    ensures Summarize(rows).rootService == r.service && Summarize(rows).depth == Depth(Parents(rows), r.spanId)
  {
    var rest := Without(rows, r);
    var rows' := [r] + rest;
    SameMembers(rows', rows);
    assert StartsFirst(rows', r);
    FirstInFront(r, rest);
    ParentsOfPermutation(rows, rows');
    ReorderedSummary(rows, rows');
  }

  lemma ReorderedSummary(rows: seq<SpanRow>, rows': seq<SpanRow>)
    requires OrderIndependent(rows) && multiset(rows') == multiset(rows)
    ensures Summarize(rows') == Summarize(rows)
  {
  }

  lemma Without(rows: seq<SpanRow>, r: SpanRow) returns (rest: seq<SpanRow>)
    requires UniqueIds(rows) && r in rows
    ensures multiset([r] + rest) == multiset(rows) && UniqueIds([r] + rest)
  {
    var i :| 0 <= i < |rows| && rows[i] == r;
    rest := rows[..i] + rows[i + 1..];
    assert rows == rows[..i] + [r] + rows[i + 1..];
    UniqueIdsOfPermutation(rows, [r] + rest);
  }

  lemma FirstInFront(r: SpanRow, rest: seq<SpanRow>)
    requires StartsFirst([r] + rest, r)
    ensures Summarize([r] + rest).rootService == r.service
    ensures Summarize([r] + rest).depth == Depth(Parents([r] + rest), r.spanId)
  {
    var rows := [r] + rest;
    FrontRoot(r, rest);
    var roots := RootRows(rows);
    assert roots[0] == r;
    forall s | s in roots
      ensures r.start <= s.start
    {
      RootRowsAre(rows, s);
    }
    EarliestKeepsFirst(roots);
  }

  lemma {:induction false} FrontRoot(r: SpanRow, rest: seq<SpanRow>)
    requires r.parent == ""
    ensures RootRows([r] + rest) == [r] + RootRows(rest)
  {
    if rest == [] {
      assert [r] + rest == [r] && [r][..0] == [];
    } else {
      var init := rest[..|rest| - 1];
      assert ([r] + rest)[..|rest|] == [r] + init;
      FrontRoot(r, init);
    }
  }

  lemma {:induction false} EarliestKeepsFirst(rows: seq<SpanRow>)
    requires rows != [] && forall s :: s in rows ==> rows[0].start <= s.start
    ensures Earliest(rows) == rows[0]
  {
    if |rows| > 1 {
      EarliestKeepsFirst(rows[..|rows| - 1]);
    }
  }
}
