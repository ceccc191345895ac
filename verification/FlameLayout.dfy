/** `dashboard/src/lib/flameGraphLayout.ts`: which flame nodes are drawn, and what each placeholder stands for. */
module FlameLayout {
  import opened Collections
  import opened FlameGraph
  import opened ParentChain
  import opened Reassembly
  import opened ReassemblyLaws
  import opened Spans

  const MAX_DEPTH := 8
  const MAX_RENDERED_NODES := 500

  datatype VisibleNode = VisibleNode(node: FlameNode, hiddenDescendantCount: nat)

  /** What the layout asks of its input: parents before children, one level up; depth 0 has no parent here. */
  ghost predicate Layered(nodes: seq<FlameNode>) {
    && UniqueNodes(nodes)
    && forall j {:trigger Up(nodes, j)} :: 0 <= j < |nodes| ==>
         if nodes[j].depth == 0 then nodes[j].span.parent == "" || nodes[j].span.parent !in NodeIds(nodes)
         else nodes[j].span.parent != "" && 0 <= Up(nodes, j) < j
              && nodes[Up(nodes, j)].Id() == nodes[j].span.parent && nodes[Up(nodes, j)].depth + 1 == nodes[j].depth
  }

  /** The index of the node with this id, or -1. */
  function IndexOf(nodes: seq<FlameNode>, id: string): (i: int)
    ensures -1 <= i < |nodes|
    ensures i >= 0 ==> nodes[i].Id() == id
    ensures i < 0 ==> forall k :: 0 <= k < |nodes| ==> nodes[k].Id() != id
  {
    if nodes == [] then -1
    else if nodes[|nodes| - 1].Id() == id then |nodes| - 1
    else IndexOf(nodes[..|nodes| - 1], id)
  }

  /** The index of j's parent. */
  function Up(nodes: seq<FlameNode>, j: int): int
    requires 0 <= j < |nodes|
  {
    IndexOf(nodes, nodes[j].span.parent)
  }

  /** A node too deep to be drawn unless its parent was expanded. */
  predicate Cut(n: FlameNode, expanded: set<string>) {
    n.depth > MAX_DEPTH && n.span.parent !in expanded
  }

  /** Drawn: neither this node nor any node above it is cut. */
  ghost predicate Visible(nodes: seq<FlameNode>, expanded: set<string>, j: int)
    requires Layered(nodes) && 0 <= j < |nodes|
    decreases j
  {
    var up := Up(nodes, j);
    !Cut(nodes[j], expanded) && (nodes[j].depth == 0 || Visible(nodes, expanded, up))
  }

  /** i is j or above j. */
  ghost predicate AtOrAbove(nodes: seq<FlameNode>, i: int, j: int)
    requires Layered(nodes) && 0 <= j < |nodes|
    decreases j
  {
    var up := Up(nodes, j);
    i == j || (nodes[j].depth > 0 && AtOrAbove(nodes, i, up))
  }

  /** The lowest drawn node at or above j: the one whose bar or placeholder stands for j. */
  ghost function Owner(nodes: seq<FlameNode>, expanded: set<string>, j: int): (o: int)
    requires Layered(nodes) && 0 <= j < |nodes|
    ensures 0 <= o <= j && AtOrAbove(nodes, o, j)
    ensures Visible(nodes, expanded, o) && (o == j <==> Visible(nodes, expanded, j))
    decreases j
  {
    var up := Up(nodes, j);
    if Visible(nodes, expanded, j) then j
    else if nodes[j].depth > 0 then Owner(nodes, expanded, up)
    else j
  }

  /** Visibility in terms of the whole path, as the layout documents it. */
  lemma {:induction false} VisibleIffNoCutAbove(nodes: seq<FlameNode>, expanded: set<string>, j: int)
    requires Layered(nodes) && 0 <= j < |nodes|
    ensures Visible(nodes, expanded, j) <==>
            forall i :: 0 <= i < |nodes| && AtOrAbove(nodes, i, j) ==> !Cut(nodes[i], expanded)
    decreases j
  {
    var up := Up(nodes, j);
    assert AtOrAbove(nodes, j, j);
    if nodes[j].depth > 0 {
      VisibleIffNoCutAbove(nodes, expanded, up);
      assert forall i :: AtOrAbove(nodes, i, up) ==> AtOrAbove(nodes, i, j);
    }
  }

  /** As a condition on the spans above: whoever is deeper than eight has an expanded parent. */
  lemma VisibleIffExpanded(nodes: seq<FlameNode>, expanded: set<string>, j: int)
    requires Layered(nodes) && 0 <= j < |nodes|
    ensures Visible(nodes, expanded, j) <==>
            forall i :: 0 <= i < |nodes| && AtOrAbove(nodes, i, j) && nodes[i].depth > 8 ==> nodes[i].span.parent in expanded
  {
    VisibleIffNoCutAbove(nodes, expanded, j);
  }

  /** With nothing expanded, the first eight levels below the top are drawn and nothing else. */
  lemma {:induction false} ShallowIsVisible(nodes: seq<FlameNode>, j: int)
    requires Layered(nodes) && 0 <= j < |nodes|
    ensures Visible(nodes, {}, j) <==> nodes[j].depth <= 8
    decreases j
  {
    var up := Up(nodes, j);
    if nodes[j].depth > 0 {
      ShallowIsVisible(nodes, up);
    }
  }

  /** Expanding more never hides anything. */
  lemma {:induction false} ExpandingReveals(nodes: seq<FlameNode>, expanded: set<string>, more: set<string>, j: int)
    requires Layered(nodes) && 0 <= j < |nodes| && expanded <= more && Visible(nodes, expanded, j)
    ensures Visible(nodes, more, j)
    decreases j
  {
    var up := Up(nodes, j);
    if nodes[j].depth > 0 {
      ExpandingReveals(nodes, expanded, more, up);
    }
  }

  // ----- Counting descendants -----

  function Kids(childrenOf: map<string, seq<int>>, id: string): seq<int> {
    if id in childrenOf then childrenOf[id] else []
  }

  /** The nodes that name this one as parent, in order. */
  function KidsOf(nodes: seq<FlameNode>, id: string): seq<int> {
    if nodes == [] then []
    else
      var last := nodes[|nodes| - 1];
      KidsOf(nodes[..|nodes| - 1], id) + if last.span.parent == id && id != "" then [|nodes| - 1] else []
  }

  lemma {:induction false} KidsOfAre(nodes: seq<FlameNode>, id: string)
    ensures forall j :: j in KidsOf(nodes, id) <==> 0 <= j < |nodes| && nodes[j].span.parent == id && id != ""
    ensures Distinct(KidsOf(nodes, id))
  {
    if nodes == [] {
    } else {
      var init, last := nodes[..|nodes| - 1], nodes[|nodes| - 1];
      var kids := KidsOf(init, id);
      KidsOfAre(init, id);
      assert |init| !in kids;
      assert KidsOf(nodes, id) == if last.span.parent == id && id != "" then kids + [|init|] else kids;
      forall j
        ensures j in KidsOf(nodes, id) <==> j in kids || (j == |init| && last.span.parent == id && id != "")
      {
      }
    }
  }

  lemma KidsOfOneMore(nodes: seq<FlameNode>, n: FlameNode, id: string)
    ensures KidsOf(nodes + [n], id) == KidsOf(nodes, id) + if n.span.parent == id && id != "" then [|nodes|] else []
  {
    assert (nodes + [n])[..|nodes|] == nodes;
  }

  /** Node k hangs directly below v. */
  ghost predicate HangsBelow(nodes: seq<FlameNode>, v: int, k: int)
    requires Layered(nodes)
  {
    0 <= v < k < |nodes| && nodes[k].depth > 0 && Up(nodes, k) == v
  }

  ghost predicate AllBelow(nodes: seq<FlameNode>, v: int, kids: seq<int>)
    requires Layered(nodes)
  {
    forall m :: 0 <= m < |kids| ==> v < kids[m] < |nodes| && HangsBelow(nodes, v, kids[m])
  }

  lemma KidsHangBelow(nodes: seq<FlameNode>, v: int)
    requires Layered(nodes) && 0 <= v < |nodes|
    ensures forall k :: k in KidsOf(nodes, nodes[v].Id()) <==> HangsBelow(nodes, v, k)
    ensures AllBelow(nodes, v, KidsOf(nodes, nodes[v].Id()))
  {
    KidsOfAre(nodes, nodes[v].Id());
    forall k | k in KidsOf(nodes, nodes[v].Id())
      ensures HangsBelow(nodes, v, k)
    {
      assert nodes[v] in nodes && nodes[v].Id() in NodeIds(nodes);
      var up := Up(nodes, k);
    }
    forall k | HangsBelow(nodes, v, k)
      ensures k in KidsOf(nodes, nodes[v].Id())
    {
      var up := Up(nodes, k);
    }
    var kids := KidsOf(nodes, nodes[v].Id());
    forall m | 0 <= m < |kids|
      ensures v < kids[m] < |nodes| && HangsBelow(nodes, v, kids[m])
    {
      assert kids[m] in kids;
    }
  }

  ghost predicate IndexesKids(nodes: seq<FlameNode>, childrenOf: map<string, seq<int>>) {
    forall id :: Kids(childrenOf, id) == KidsOf(nodes, id)
  }

  function CountAllDescendants(nodes: seq<FlameNode>, childrenOf: map<string, seq<int>>, v: int): nat
    requires Layered(nodes) && IndexesKids(nodes, childrenOf) && 0 <= v < |nodes|
    decreases |nodes| - v, 0
  {
    KidsHangBelow(nodes, v);
    var kids := Kids(childrenOf, nodes[v].Id());
    |kids| + CountEach(nodes, childrenOf, v, kids)
  }

  function CountEach(nodes: seq<FlameNode>, childrenOf: map<string, seq<int>>, v: int, kids: seq<int>): nat
    requires Layered(nodes) && IndexesKids(nodes, childrenOf) && 0 <= v < |nodes|
    requires forall m :: 0 <= m < |kids| ==> v < kids[m] < |nodes|
    decreases |nodes| - v - 1, |kids| + 1
  {
    if kids == [] then 0
    else
      CountEach(nodes, childrenOf, v, kids[..|kids| - 1]) + CountAllDescendants(nodes, childrenOf, kids[|kids| - 1])
  }

  ghost function Below(nodes: seq<FlameNode>, v: int): set<int>
    requires Layered(nodes)
  {
    set j | 0 <= j < |nodes| && j != v && AtOrAbove(nodes, v, j)
  }

  ghost function BelowAny(nodes: seq<FlameNode>, kids: seq<int>): set<int>
    requires Layered(nodes)
  {
    set j | 0 <= j < |nodes| && BelowSome(nodes, kids, j)
  }

  ghost predicate BelowSome(nodes: seq<FlameNode>, kids: seq<int>, j: int)
    requires Layered(nodes) && 0 <= j < |nodes|
  {
    exists k :: k in kids && AtOrAbove(nodes, k, j)
  }

  lemma {:induction false} AboveIsEarlier(nodes: seq<FlameNode>, i: int, j: int)
    requires Layered(nodes) && 0 <= j < |nodes| && AtOrAbove(nodes, i, j)
    ensures 0 <= i <= j
    decreases j
  {
    var up := Up(nodes, j);
    if i != j {
      AboveIsEarlier(nodes, i, up);
    }
  }

  /** The path to the root has no branches. */
  lemma {:induction false} PathIsLinear(nodes: seq<FlameNode>, a: int, b: int, j: int)
    requires Layered(nodes) && 0 <= j < |nodes| && AtOrAbove(nodes, a, j) && AtOrAbove(nodes, b, j) && a <= b
    ensures 0 <= b < |nodes| && AtOrAbove(nodes, a, b)
    decreases j
  {
    var up := Up(nodes, j);
    AboveIsEarlier(nodes, b, j);
    if b != j {
      AboveIsEarlier(nodes, a, j);
      PathIsLinear(nodes, a, b, up);
    }
  }

  lemma SiblingsApart(nodes: seq<FlameNode>, v: int, a: int, b: int, j: int)
    requires Layered(nodes) && HangsBelow(nodes, v, a) && HangsBelow(nodes, v, b)
    requires 0 <= j < |nodes| && AtOrAbove(nodes, a, j) && AtOrAbove(nodes, b, j)
    ensures a == b
  {
    var lo, hi := if a <= b then a else b, if a <= b then b else a;
    PathIsLinear(nodes, lo, hi, j);
    if lo != hi {
      AboveIsEarlier(nodes, lo, v);
    }
  }

  /** What is below v is what is at or below its kids. */
  lemma {:induction false} BelowThroughKids(nodes: seq<FlameNode>, v: int, j: int)
    requires Layered(nodes) && 0 <= v < |nodes| && 0 <= j < |nodes|
    ensures v != j && AtOrAbove(nodes, v, j) <==> exists k :: HangsBelow(nodes, v, k) && AtOrAbove(nodes, k, j)
    decreases j
  {
    var up := Up(nodes, j);
    if nodes[j].depth > 0 {
      BelowThroughKids(nodes, v, up);
      if v != j && AtOrAbove(nodes, v, j) {
        if v == up {
          assert HangsBelow(nodes, v, j) && AtOrAbove(nodes, j, j);
        } else {
          var k :| HangsBelow(nodes, v, k) && AtOrAbove(nodes, k, up);
          assert AtOrAbove(nodes, k, j);
        }
      }
    }
    if k :| HangsBelow(nodes, v, k) && AtOrAbove(nodes, k, j) {
      AboveIsEarlier(nodes, k, j);
      assert k == j || AtOrAbove(nodes, k, up);
    }
  }

  /** The recursive count is the number of nodes strictly below. */
  lemma {:induction false} CountIsBelow(nodes: seq<FlameNode>, childrenOf: map<string, seq<int>>, v: int)
    requires Layered(nodes) && IndexesKids(nodes, childrenOf) && 0 <= v < |nodes|
    ensures CountAllDescendants(nodes, childrenOf, v) == |Below(nodes, v)|
    decreases |nodes| - v, 0
  {
    var kids := Kids(childrenOf, nodes[v].Id());
    KidsHangBelow(nodes, v);
    KidsOfAre(nodes, nodes[v].Id());
    CountEachIsBelow(nodes, childrenOf, v, kids);
    BelowIsKids(nodes, v, kids);
  }

  lemma BelowIsKids(nodes: seq<FlameNode>, v: int, kids: seq<int>)
    requires Layered(nodes) && 0 <= v < |nodes| && forall k :: k in kids <==> HangsBelow(nodes, v, k)
    ensures Below(nodes, v) == BelowAny(nodes, kids)
  {
    forall j | 0 <= j < |nodes|
      ensures j in BelowAny(nodes, kids) <==> j != v && AtOrAbove(nodes, v, j)
    {
      BelowThroughKids(nodes, v, j);
    }
  }

  lemma {:induction false} CountEachIsBelow(nodes: seq<FlameNode>, childrenOf: map<string, seq<int>>, v: int, kids: seq<int>)
    requires Layered(nodes) && IndexesKids(nodes, childrenOf) && 0 <= v < |nodes|
    requires Distinct(kids) && AllBelow(nodes, v, kids)
    ensures |kids| + CountEach(nodes, childrenOf, v, kids) == |BelowAny(nodes, kids)|
    decreases |nodes| - v - 1, |kids| + 1
  {
    if kids == [] {
      assert BelowAny(nodes, kids) == {};
    } else {
      var init, last := kids[..|kids| - 1], kids[|kids| - 1];
      assert kids == init + [last];
      assert last !in init && HangsBelow(nodes, v, last);
      assert Distinct(init) && AllBelow(nodes, v, init);
      BelowOneMore(nodes, v, init, last);
      CountEachIsBelow(nodes, childrenOf, v, init);
      CountIsBelow(nodes, childrenOf, last);
    }
  }

  lemma BelowOneMore(nodes: seq<FlameNode>, v: int, kids: seq<int>, last: int)
    requires Layered(nodes) && last !in kids && HangsBelow(nodes, v, last) && AllBelow(nodes, v, kids)
    ensures |BelowAny(nodes, kids + [last])| == |BelowAny(nodes, kids)| + |Below(nodes, last)| + 1
  {
    var atLast := Below(nodes, last) + {last};
    forall j | 0 <= j < |nodes|
      ensures BelowSome(nodes, kids + [last], j) <==> BelowSome(nodes, kids, j) || j in atLast
      ensures !(BelowSome(nodes, kids, j) && j in atLast)
    {
      BelowLast(nodes, v, kids, last, j);
    }
    assert BelowAny(nodes, kids + [last]) == BelowAny(nodes, kids) + atLast;
    assert BelowAny(nodes, kids) !! atLast;
  }

  lemma BelowLast(nodes: seq<FlameNode>, v: int, kids: seq<int>, last: int, j: int)
    requires Layered(nodes) && last !in kids && HangsBelow(nodes, v, last) && AllBelow(nodes, v, kids)
    requires 0 <= j < |nodes|
    ensures BelowSome(nodes, kids + [last], j) <==> BelowSome(nodes, kids, j) || AtOrAbove(nodes, last, j)
    ensures !(BelowSome(nodes, kids, j) && AtOrAbove(nodes, last, j))
  {
    assert last in kids + [last];
    if k :| k in kids && AtOrAbove(nodes, k, j) {
      assert k in kids + [last];
      if AtOrAbove(nodes, last, j) {
        SiblingsApart(nodes, v, k, last, j);
      }
    }
  }

  // ----- Owners -----

  /** The hidden nodes v stands for. */
  ghost function HiddenUnder(nodes: seq<FlameNode>, expanded: set<string>, v: int): set<int>
    requires Layered(nodes)
  {
    set j | 0 <= j < |nodes| && j != v && Owner(nodes, expanded, j) == v
  }

  /** v's children, if it has any, are all cut. */
  predicate Cutoff(n: FlameNode, expanded: set<string>) {
    n.depth + 1 > MAX_DEPTH && n.Id() !in expanded
  }

  lemma {:induction false} BelowCutoffIsOwned(nodes: seq<FlameNode>, expanded: set<string>, v: int, j: int)
    requires Layered(nodes) && 0 <= v < |nodes| && Visible(nodes, expanded, v) && Cutoff(nodes[v], expanded)
    requires 0 <= j < |nodes| && AtOrAbove(nodes, v, j)
    ensures Owner(nodes, expanded, j) == v
    decreases j
  {
    var up := Up(nodes, j);
    if j != v {
      BelowCutoffIsOwned(nodes, expanded, v, up);
    }
  }

  lemma {:induction false} OthersOwnThemselves(nodes: seq<FlameNode>, expanded: set<string>, v: int, j: int)
    requires Layered(nodes) && 0 <= v < |nodes| && !Cutoff(nodes[v], expanded)
    requires 0 <= j < |nodes| && Owner(nodes, expanded, j) == v
    ensures j == v
    decreases j
  {
    var up := Up(nodes, j);
    if j != v {
      OthersOwnThemselves(nodes, expanded, v, up);
    }
  }

  /** A drawn node stands for everything below it if it is a cutoff, and for nothing else if not. */
  lemma HiddenUnderIs(nodes: seq<FlameNode>, expanded: set<string>, v: int)
    requires Layered(nodes) && 0 <= v < |nodes| && Visible(nodes, expanded, v)
    ensures HiddenUnder(nodes, expanded, v) == if Cutoff(nodes[v], expanded) then Below(nodes, v) else {}
  {
    forall j | 0 <= j < |nodes| && j != v
      ensures Owner(nodes, expanded, j) == v <==> Cutoff(nodes[v], expanded) && AtOrAbove(nodes, v, j)
    {
      if Cutoff(nodes[v], expanded) && AtOrAbove(nodes, v, j) {
        BelowCutoffIsOwned(nodes, expanded, v, j);
      }
      if !Cutoff(nodes[v], expanded) && Owner(nodes, expanded, j) == v {
        OthersOwnThemselves(nodes, expanded, v, j);
      }
    }
  }

  // ----- The drawing -----

  /** The drawn nodes in order, `at[k]` being the index of the k-th, each with the number of hidden nodes it stands for. */
  ghost predicate Drawing(nodes: seq<FlameNode>, expanded: set<string>, full: seq<VisibleNode>, at: seq<int>)
    requires Layered(nodes)
  {
    && |at| == |full|
    && (forall k, l :: 0 <= k < l < |at| ==> at[k] < at[l])
    && (forall j :: j in at <==> 0 <= j < |nodes| && Visible(nodes, expanded, j))
    && (forall k :: 0 <= k < |at| ==>
          at[k] in at && full[k] == VisibleNode(nodes[at[k]], |HiddenUnder(nodes, expanded, at[k])|))
  }

  function Drawn(full: seq<VisibleNode>): nat {
    if full == [] then 0 else Drawn(full[..|full| - 1]) + 1 + full[|full| - 1].hiddenDescendantCount
  }

  ghost function Owners(nodes: seq<FlameNode>, expanded: set<string>): map<int, int>
    requires Layered(nodes)
  {
    map j | 0 <= j < |nodes| :: Owner(nodes, expanded, j)
  }

  lemma {:induction false} DrawnIsOwned(owners: map<int, int>, full: seq<VisibleNode>, at: seq<int>)
    requires |at| == |full| && Distinct(at)
    requires forall k :: 0 <= k < |at| ==> full[k].hiddenDescendantCount + 1 == |Fibre(owners, at[k])|
    ensures Drawn(full) == |Preimage(owners, at)|
  {
    if at == [] {
      assert Preimage(owners, at) == {};
    } else {
      var n := |at| - 1;
      DrawnIsOwned(owners, full[..n], at[..n]);
      PreimageOneMore(owners, at[..n], at[n]);
      assert at == at[..n] + [at[n]];
    }
  }

  ghost function Indices(n: nat): (s: set<int>)
    ensures |s| == n && forall j :: j in s <==> 0 <= j < n
  {
    if n == 0 then {} else Indices(n - 1) + {n - 1}
  }

  /** Conservation: drawn bars and the counts on their placeholders add up to the whole trace. */
  lemma DrawingConservesNodes(nodes: seq<FlameNode>, expanded: set<string>, full: seq<VisibleNode>, at: seq<int>)
    requires Layered(nodes) && Drawing(nodes, expanded, full, at)
    ensures Drawn(full) == |nodes|
  {
    var owners := Owners(nodes, expanded);
    forall k | 0 <= k < |at|
      ensures full[k].hiddenDescendantCount + 1 == |Fibre(owners, at[k])|
    {
      var v := at[k];
      assert Owner(nodes, expanded, v) == v;
      assert Fibre(owners, v) == HiddenUnder(nodes, expanded, v) + {v};
    }
    DrawnIsOwned(owners, full, at);
    assert Preimage(owners, at) == Indices(|nodes|);
  }

  // ----- visibleFlameNodes -----

  /** v has a child among the first i nodes. */
  ghost predicate SeenKid(nodes: seq<FlameNode>, v: int, i: int)
    requires Layered(nodes)
  {
    exists k :: k < i && HangsBelow(nodes, v, k)
  }

  /** The placeholder count of v once the first i nodes have been looked at. */
  ghost function HiddenSoFar(nodes: seq<FlameNode>, expanded: set<string>, v: int, i: int): nat
    requires Layered(nodes) && 0 <= v < |nodes|
  {
    if Cutoff(nodes[v], expanded) && SeenKid(nodes, v, i) then |Below(nodes, v)| else 0
  }

  /** `at` lists the drawn nodes among the first i. */
  ghost predicate DrawnSoFar(nodes: seq<FlameNode>, expanded: set<string>, i: nat, at: seq<int>)
    requires Layered(nodes) && i <= |nodes|
  {
    && (forall k, l :: 0 <= k < l < |at| ==> at[k] < at[l])
    && (forall j :: j in at <==> 0 <= j < i && Visible(nodes, expanded, j))
    && (forall k :: 0 <= k < |at| ==> at[k] in at)
  }

  ghost predicate CountedSoFar(nodes: seq<FlameNode>, expanded: set<string>, i: nat, result: seq<VisibleNode>, at: seq<int>)
    requires Layered(nodes) && i <= |nodes| && DrawnSoFar(nodes, expanded, i, at)
  {
    && |at| == |result|
    && (forall k :: 0 <= k < |at| ==> result[k] == VisibleNode(nodes[at[k]], HiddenSoFar(nodes, expanded, at[k], i)))
  }

  ghost predicate MarkedSoFar(
    nodes: seq<FlameNode>, expanded: set<string>, i: nat, visible: set<string>, counted: set<string>, at: seq<int>)
    requires Layered(nodes)
  {
    && (forall j :: 0 <= j < |nodes| ==> (nodes[j].Id() in visible <==> j in at))
    && (forall j :: 0 <= j < |nodes| ==>
          (nodes[j].Id() in counted <==> j in at && Cutoff(nodes[j], expanded) && SeenKid(nodes, j, i)))
  }

  ghost predicate SoFar(
    nodes: seq<FlameNode>, expanded: set<string>, i: nat, visible: set<string>, counted: set<string>,
    result: seq<VisibleNode>, at: seq<int>)
    requires Layered(nodes) && i <= |nodes|
  {
    && DrawnSoFar(nodes, expanded, i, at)
    && CountedSoFar(nodes, expanded, i, result, at)
    && MarkedSoFar(nodes, expanded, i, visible, counted, at)
  }

  lemma IndexedOneMore(nodes: seq<FlameNode>, childrenOf: map<string, seq<int>>, n: FlameNode)
    requires IndexesKids(nodes, childrenOf)
    ensures if n.span.parent == "" then IndexesKids(nodes + [n], childrenOf)
            else IndexesKids(nodes + [n], childrenOf[n.span.parent := Kids(childrenOf, n.span.parent) + [|nodes|]])
  {
    forall id
      ensures KidsOf(nodes + [n], id) == KidsOf(nodes, id) + if n.span.parent == id && id != "" then [|nodes|] else []
    {
      KidsOfOneMore(nodes, n, id);
    }
  }

  method IndexChildren(nodes: seq<FlameNode>) returns (childrenOf: map<string, seq<int>>)
    ensures IndexesKids(nodes, childrenOf)
  {
    childrenOf := map[];
    for i := 0 to |nodes|
      invariant IndexesKids(nodes[..i], childrenOf)
    {
      var parentId := nodes[i].span.parent;
      IndexedOneMore(nodes[..i], childrenOf, nodes[i]);
      assert nodes[..i + 1] == nodes[..i] + [nodes[i]];
      if parentId == "" {
        continue;
      }
      childrenOf := childrenOf[parentId := Kids(childrenOf, parentId) + [i]];
    }
    assert nodes[..|nodes|] == nodes;
  }

  /** The index `find` would return, for an id that is there. */
  method Find(result: seq<VisibleNode>, id: string) returns (p: nat)
    requires exists k :: 0 <= k < |result| && result[k].node.Id() == id
    ensures p < |result| && result[p].node.Id() == id
  {
    p := 0;
    while result[p].node.Id() != id
      invariant p < |result| && exists k :: p <= k < |result| && result[k].node.Id() == id
      decreases |result| - p
    {
      p := p + 1;
    }
  }

  // How looking at node i changes the state of the pass.

  lemma SeenKidOneMore(nodes: seq<FlameNode>, v: int, i: nat)
    requires Layered(nodes) && i < |nodes|
    ensures SeenKid(nodes, v, i + 1) <==> SeenKid(nodes, v, i) || HangsBelow(nodes, v, i)
  {
  }

  /** The parent's part of the state decides what happens to node i. */
  lemma ParentState(
    nodes: seq<FlameNode>, expanded: set<string>, i: nat, visible: set<string>, counted: set<string>,
    result: seq<VisibleNode>, at: seq<int>)
    requires Layered(nodes) && i < |nodes| && SoFar(nodes, expanded, i, visible, counted, result, at)
    ensures nodes[i].depth > 0 ==>
              var up := Up(nodes, i);
              && HangsBelow(nodes, up, i)
              && (nodes[i].span.parent in visible <==> Visible(nodes, expanded, up))
              && (Cut(nodes[i], expanded) <==> Cutoff(nodes[up], expanded))
  {
    var up := Up(nodes, i);
  }

  /** The two tests of the pass tell the three cases apart. */
  lemma PassCases(
    nodes: seq<FlameNode>, expanded: set<string>, i: nat, visible: set<string>, counted: set<string>,
    result: seq<VisibleNode>, at: seq<int>)
    requires Layered(nodes) && i < |nodes| && SoFar(nodes, expanded, i, visible, counted, result, at)
    ensures nodes[i].depth > 0 && nodes[i].span.parent !in visible ==> !Visible(nodes, expanded, Up(nodes, i))
    ensures nodes[i].depth > 0 && nodes[i].span.parent in visible ==> Visible(nodes, expanded, Up(nodes, i))
    ensures nodes[i].depth == 0 || nodes[i].span.parent in visible ==> (Visible(nodes, expanded, i) <==> !Cut(nodes[i], expanded))
  {
    ParentState(nodes, expanded, i, visible, counted, result, at);
  }

  lemma HangsBelowIs(nodes: seq<FlameNode>, v: int, i: nat)
    requires Layered(nodes) && i < |nodes|
    ensures HangsBelow(nodes, v, i) <==> nodes[i].depth > 0 && v == Up(nodes, i)
  {
    var up := Up(nodes, i);
  }

  /** Below a hidden parent nothing changes. */
  lemma PassHidden(
    nodes: seq<FlameNode>, expanded: set<string>, i: nat, visible: set<string>, counted: set<string>,
    result: seq<VisibleNode>, at: seq<int>)
    requires Layered(nodes) && i < |nodes| && SoFar(nodes, expanded, i, visible, counted, result, at)
    requires nodes[i].depth > 0 && !Visible(nodes, expanded, Up(nodes, i))
    ensures SoFar(nodes, expanded, i + 1, visible, counted, result, at)
  {
    ParentState(nodes, expanded, i, visible, counted, result, at);
    forall v
      ensures v in at ==> (SeenKid(nodes, v, i + 1) <==> SeenKid(nodes, v, i))
    {
      SeenKidOneMore(nodes, v, i);
      HangsBelowIs(nodes, v, i);
    }
    assert !Visible(nodes, expanded, i);
    PassHiddenCounts(nodes, expanded, i, result, at);
    PassHiddenMarks(nodes, expanded, i, visible, counted, at);
  }

  lemma PassHiddenCounts(nodes: seq<FlameNode>, expanded: set<string>, i: nat, result: seq<VisibleNode>, at: seq<int>)
    requires Layered(nodes) && i < |nodes| && DrawnSoFar(nodes, expanded, i, at) && !Visible(nodes, expanded, i)
    requires CountedSoFar(nodes, expanded, i, result, at)
    requires forall v :: v in at ==> (SeenKid(nodes, v, i + 1) <==> SeenKid(nodes, v, i))
    ensures DrawnSoFar(nodes, expanded, i + 1, at) && CountedSoFar(nodes, expanded, i + 1, result, at)
  {
    forall k | 0 <= k < |at|
      ensures HiddenSoFar(nodes, expanded, at[k], i + 1) == HiddenSoFar(nodes, expanded, at[k], i)
    {
      assert at[k] in at;
    }
  }

  lemma PassHiddenMarks(
    nodes: seq<FlameNode>, expanded: set<string>, i: nat, visible: set<string>, counted: set<string>, at: seq<int>)
    requires Layered(nodes) && i < |nodes| && MarkedSoFar(nodes, expanded, i, visible, counted, at)
    requires forall v :: v in at ==> (SeenKid(nodes, v, i + 1) <==> SeenKid(nodes, v, i))
    ensures MarkedSoFar(nodes, expanded, i + 1, visible, counted, at)
  {
  }

  /** A drawn node is appended with an empty placeholder. */
  lemma PassVisible(
    nodes: seq<FlameNode>, expanded: set<string>, i: nat, visible: set<string>, counted: set<string>,
    result: seq<VisibleNode>, at: seq<int>)
    requires Layered(nodes) && i < |nodes| && SoFar(nodes, expanded, i, visible, counted, result, at)
    requires Visible(nodes, expanded, i)
    ensures SoFar(nodes, expanded, i + 1, visible + {nodes[i].Id()}, counted, result + [VisibleNode(nodes[i], 0)], at + [i])
  {
    ParentState(nodes, expanded, i, visible, counted, result, at);
    forall v
      ensures 0 <= v < |nodes| && Cutoff(nodes[v], expanded) ==> (SeenKid(nodes, v, i + 1) <==> SeenKid(nodes, v, i))
    {
      SeenKidOneMore(nodes, v, i);
      HangsBelowIs(nodes, v, i);
    }
    assert !SeenKid(nodes, i, i);
    assert forall j :: j in at + [i] <==> j in at || j == i;
  }

  /** A cut node puts the count on its parent's placeholder, if it is not there yet. */
  lemma PassCut(
    nodes: seq<FlameNode>, expanded: set<string>, i: nat, visible: set<string>, counted: set<string>,
    result: seq<VisibleNode>, at: seq<int>, p: nat)
    requires Layered(nodes) && i < |nodes| && SoFar(nodes, expanded, i, visible, counted, result, at)
    requires nodes[i].depth > 0 && Visible(nodes, expanded, Up(nodes, i)) && Cut(nodes[i], expanded)
    requires p < |at| && at[p] == Up(nodes, i)
    ensures SoFar(nodes, expanded, i + 1, visible, counted + {nodes[i].span.parent},
                  result[p := VisibleNode(nodes[at[p]], |Below(nodes, at[p])|)], at)
  {
    ParentState(nodes, expanded, i, visible, counted, result, at);
    forall v
      ensures SeenKid(nodes, v, i + 1) <==> SeenKid(nodes, v, i) || v == at[p]
    {
      SeenKidOneMore(nodes, v, i);
      HangsBelowIs(nodes, v, i);
    }
    assert !Visible(nodes, expanded, i);
    PassCutMarks(nodes, expanded, i, visible, counted, at, p);
    PassCutCounts(nodes, expanded, i, result, at, p);
  }

  lemma PassCutCounts(nodes: seq<FlameNode>, expanded: set<string>, i: nat, result: seq<VisibleNode>, at: seq<int>, p: nat)
    requires Layered(nodes) && i < |nodes| && DrawnSoFar(nodes, expanded, i, at) && !Visible(nodes, expanded, i)
    requires CountedSoFar(nodes, expanded, i, result, at)
    requires p < |at| && Cutoff(nodes[at[p]], expanded)
    requires forall v {:trigger SeenKid(nodes, v, i + 1)} :: SeenKid(nodes, v, i + 1) <==> SeenKid(nodes, v, i) || v == at[p]
    ensures DrawnSoFar(nodes, expanded, i + 1, at)
    ensures CountedSoFar(nodes, expanded, i + 1, result[p := VisibleNode(nodes[at[p]], |Below(nodes, at[p])|)], at)
  {
    assert DrawnSoFar(nodes, expanded, i + 1, at);
    var result' := result[p := VisibleNode(nodes[at[p]], |Below(nodes, at[p])|)];
    forall k | 0 <= k < |at|
      ensures result'[k] == VisibleNode(nodes[at[k]], HiddenSoFar(nodes, expanded, at[k], i + 1))
    {
      if k != p {
        assert at[k] != at[p];
        assert HiddenSoFar(nodes, expanded, at[k], i + 1) == HiddenSoFar(nodes, expanded, at[k], i);
      }
    }
  }

  lemma PassCutMarks(
    nodes: seq<FlameNode>, expanded: set<string>, i: nat, visible: set<string>, counted: set<string>, at: seq<int>, p: nat)
    requires Layered(nodes) && i < |nodes| && MarkedSoFar(nodes, expanded, i, visible, counted, at)
    requires p < |at| && at[p] in at && 0 <= at[p] < |nodes| && Cutoff(nodes[at[p]], expanded)
    requires nodes[at[p]].Id() == nodes[i].span.parent
    requires forall v {:trigger SeenKid(nodes, v, i + 1)} :: SeenKid(nodes, v, i + 1) <==> SeenKid(nodes, v, i) || v == at[p]
    ensures MarkedSoFar(nodes, expanded, i + 1, visible, counted + {nodes[i].span.parent}, at)
  {
    forall j | 0 <= j < |nodes|
      ensures nodes[j].Id() == nodes[i].span.parent <==> j == at[p]
    {
    }
  }

  /** The placeholder of a cut node's parent gets its count; once there, the count does not change. */
  method CountCutoff(
    nodes: seq<FlameNode>, expanded: set<string>, childrenOf: map<string, seq<int>>, i: nat, ghost visible: set<string>,
    counted0: set<string>, result0: seq<VisibleNode>, ghost at: seq<int>)
    returns (counted: set<string>, result: seq<VisibleNode>)
    requires Layered(nodes) && IndexesKids(nodes, childrenOf) && i < |nodes|
    requires SoFar(nodes, expanded, i, visible, counted0, result0, at)
    requires nodes[i].depth > 0 && Visible(nodes, expanded, Up(nodes, i)) && Cut(nodes[i], expanded)
    ensures SoFar(nodes, expanded, i + 1, visible, counted, result, at)
  {
    var parentId := nodes[i].span.parent;
    ghost var up := Up(nodes, i);
    ghost var q := PlaceholderOf(nodes, expanded, i, visible, counted0, result0, at);
    PassCut(nodes, expanded, i, visible, counted0, result0, at, q);
    counted, result := counted0, result0;
    if parentId !in counted {
      counted := counted + {parentId};
      var p := Find(result, parentId);
      CountIsBelow(nodes, childrenOf, up);
      result := result[p := result[p].(hiddenDescendantCount := CountAllDescendants(nodes, childrenOf, IndexOf(nodes, parentId)))];
    } else {
      AlreadyCounted(nodes, expanded, i, visible, counted0, result0, at, q);
    }
  }

  lemma AlreadyCounted(
    nodes: seq<FlameNode>, expanded: set<string>, i: nat, visible: set<string>, counted: set<string>,
    result: seq<VisibleNode>, at: seq<int>, q: nat)
    requires Layered(nodes) && i < |nodes| && SoFar(nodes, expanded, i, visible, counted, result, at)
    requires nodes[i].depth > 0 && nodes[i].span.parent in counted && q < |at| && at[q] == Up(nodes, i)
    ensures counted + {nodes[i].span.parent} == counted
    ensures result[q := VisibleNode(nodes[at[q]], |Below(nodes, at[q])|)] == result
  {
    var up := Up(nodes, i);
    assert nodes[up].Id() in counted;
    assert result[q] == VisibleNode(nodes[up], |Below(nodes, up)|);
  }

  lemma PlaceholderOf(
    nodes: seq<FlameNode>, expanded: set<string>, i: nat, visible: set<string>, counted: set<string>,
    result: seq<VisibleNode>, at: seq<int>) returns (q: nat)
    requires Layered(nodes) && i < |nodes| && SoFar(nodes, expanded, i, visible, counted, result, at)
    requires nodes[i].depth > 0 && Visible(nodes, expanded, Up(nodes, i))
    ensures q < |at| && at[q] == Up(nodes, i) && result[q].node.Id() == nodes[i].span.parent
    ensures forall k :: 0 <= k < |result| && result[k].node.Id() == nodes[i].span.parent ==> k == q
  {
    var up := Up(nodes, i);
    assert up in at;
    q :| 0 <= q < |at| && at[q] == up;
    forall k | 0 <= k < |result| && result[k].node.Id() == nodes[i].span.parent
      ensures k == q
    {
      assert at[k] == up;
    }
  }

  function Capped(full: seq<VisibleNode>): seq<VisibleNode> {
    if |full| > MAX_RENDERED_NODES then full[..MAX_RENDERED_NODES] else full
  }

  /** What is drawn is the whole drawing, or its first five hundred nodes. */
  lemma CappedIs(full: seq<VisibleNode>)
    ensures Capped(full) <= full && |Capped(full)| == if |full| > 500 then 500 else |full|
  {
  }

  ghost predicate IsDrawing(nodes: seq<FlameNode>, expanded: set<string>, full: seq<VisibleNode>)
    requires Layered(nodes)
  {
    exists at :: Drawing(nodes, expanded, full, at)
  }

  method VisibleFlameNodes(nodes: seq<FlameNode>, expanded: set<string>) returns (drawn: seq<VisibleNode>)
    requires Layered(nodes)
    ensures exists full :: IsDrawing(nodes, expanded, full) && drawn == Capped(full)
  {
    var full := DrawAll(nodes, expanded);
    drawn := if |full| > MAX_RENDERED_NODES then full[..MAX_RENDERED_NODES] else full;
    assert drawn == Capped(full);
  }

  lemma NothingSoFar(
    nodes: seq<FlameNode>, expanded: set<string>, visible: set<string>, counted: set<string>, result: seq<VisibleNode>, at: seq<int>)
    requires Layered(nodes) && visible == {} && counted == {} && result == [] && at == []
    ensures SoFar(nodes, expanded, 0, visible, counted, result, at)
  {
  }

  /** The pass over the nodes, before the render cap. */
  method DrawAll(nodes: seq<FlameNode>, expanded: set<string>) returns (result: seq<VisibleNode>)
    requires Layered(nodes)
    ensures IsDrawing(nodes, expanded, result)
  {
    var childrenOf := IndexChildren(nodes);
    var visible, counted: set<string> := {}, {};
    result := [];
    ghost var at := [];
    NothingSoFar(nodes, expanded, visible, counted, result, at);
    for i := 0 to |nodes|
      invariant SoFar(nodes, expanded, i, visible, counted, result, at)
    {
      var n := nodes[i];
      var parentId := n.span.parent;
      PassCases(nodes, expanded, i, visible, counted, result, at);
      var parentVisible := n.depth == 0 || parentId in visible;
      if !parentVisible {
        PassHidden(nodes, expanded, i, visible, counted, result, at);
        continue;
      }
      var isCutoff := n.depth > MAX_DEPTH && parentId !in expanded;
      if isCutoff {
        counted, result := CountCutoff(nodes, expanded, childrenOf, i, visible, counted, result, at);
        continue;
      }
      PassVisible(nodes, expanded, i, visible, counted, result, at);
      visible := visible + {n.Id()};
      result := result + [VisibleNode(n, 0)];
      at := at + [i];
    }
    FinishedPass(nodes, expanded, visible, counted, result, at);
  }

  lemma FinishedPass(
    nodes: seq<FlameNode>, expanded: set<string>, visible: set<string>, counted: set<string>,
    result: seq<VisibleNode>, at: seq<int>)
    requires Layered(nodes) && SoFar(nodes, expanded, |nodes|, visible, counted, result, at)
    ensures Drawing(nodes, expanded, result, at)
  {
    forall k | 0 <= k < |at|
      ensures result[k] == VisibleNode(nodes[at[k]], |HiddenUnder(nodes, expanded, at[k])|)
    {
      var v := at[k];
      HiddenUnderIs(nodes, expanded, v);
      if !SeenKid(nodes, v, |nodes|) && Below(nodes, v) != {} {
        var j :| j in Below(nodes, v);
        BelowThroughKids(nodes, v, j);
      }
    }
  }

  // ----- From spans to the drawing -----

  /** What `buildFlameNodes` returns is what the layout asks for. */
  lemma BuiltNodesAreLayered(par: map<string, string>, nodes: seq<FlameNode>)
    requires UniqueNodes(nodes) && PreOrdered(nodes)
    requires forall n :: n in nodes ==> Faithful(par, n)
    ensures Layered(nodes)
  {
    forall n | n in nodes
      ensures n.Id() in par
    {
      assert Faithful(par, n);
    }
    forall j | 0 <= j < |nodes|
      ensures if nodes[j].depth == 0 then nodes[j].span.parent == "" || nodes[j].span.parent !in NodeIds(nodes)
              else nodes[j].span.parent != "" && ParentAt(nodes, Up(nodes, j), j)
    {
      var n := nodes[j];
      assert n in nodes && Faithful(par, n);
      var seed :| Climbs(par, n.Id(), n.depth, seed);
      if n.depth > 0 {
        assert Placed(nodes, j);
        var i :| ParentAt(nodes, i, j);
        assert i == Up(nodes, j);
      }
    }
  }

  ghost function RejectedIds(par: map<string, string>): set<string> {
    set id | id in par && LabelOf(par, id) == CycleRejected
  }

  /** Drawn nodes, the hidden ones that their placeholders count, and the rejected spans are all spans. */
  ghost predicate ShowsAllBut(spans: seq<SpanRow>, full: seq<VisibleNode>, rejected: set<string>) {
    Drawn(full) + |rejected| == |spans|
  }

  /** The flame graph shows a trace's every span but those that reassembly rejects as cyclic. */
  method DrawTrace(spans: seq<SpanRow>, expanded: set<string>) returns (nodes: seq<FlameNode>, drawn: seq<VisibleNode>)
    requires UniqueIds(spans)
    ensures UniqueNodes(nodes) && NodeIds(nodes) == Ids(spans) - RejectedIds(Parents(spans))
    ensures Layered(nodes)
    ensures exists full :: IsDrawing(nodes, expanded, full) && drawn == Capped(full)
                           && ShowsAllBut(spans, full, RejectedIds(Parents(spans)))
  {
    nodes := BuildFlameNodes(spans);
    BuiltNodesAreLayered(Parents(spans), nodes);
    drawn := VisibleFlameNodes(nodes, expanded);
    ghost var full :| IsDrawing(nodes, expanded, full) && drawn == Capped(full);
    ghost var at :| Drawing(nodes, expanded, full, at);
    DrawingConservesNodes(nodes, expanded, full, at);
    ShownAndRejected(spans, nodes);
  }

  lemma ShownAndRejected(spans: seq<SpanRow>, nodes: seq<FlameNode>)
    requires UniqueIds(spans) && UniqueNodes(nodes)
    requires forall id :: id in NodeIds(nodes) <==> Anchored(Parents(spans), id)
    ensures NodeIds(nodes) == Ids(spans) - RejectedIds(Parents(spans))
    ensures |nodes| + |RejectedIds(Parents(spans))| == |spans|
  {
    var par := Parents(spans);
    ShownIffAnchored(par, NodeIds(nodes));
    NodesAreCounted(nodes);
    WhereAllCounts(spans);
    assert |par| == |par.Keys|;
  }

  lemma ShownIffAnchored(par: map<string, string>, shown: set<string>)
    requires forall id :: id in shown <==> Anchored(par, id)
    ensures shown == par.Keys - RejectedIds(par) && |shown| + |RejectedIds(par)| == |par.Keys|
  {
    forall id | id in par
      ensures id in shown <==> LabelOf(par, id) != CycleRejected
    {
      if IsOrphan(par, id) {
        SeedIsAnchored(par, id);
      }
    }
    assert shown !! RejectedIds(par) && par.Keys == shown + RejectedIds(par);
  }

  lemma {:induction false} NodesAreCounted(nodes: seq<FlameNode>)
    requires UniqueNodes(nodes)
    ensures |NodeIds(nodes)| == |nodes|
  {
    if nodes == [] {
    } else {
      var init, last := nodes[..|nodes| - 1], nodes[|nodes| - 1];
      NodesAreCounted(init);
      assert nodes == init + [last];
      assert NodeIds(nodes) == NodeIds(init) + {last.Id()};
    }
  }
}
