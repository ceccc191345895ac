/** Facts about finite collections that several components share. */
module Collections {

  datatype Option<+T> = None | Some(value: T)

  ghost predicate Distinct<T>(s: seq<T>) {
    forall i, j :: 0 <= i < j < |s| ==> s[i] != s[j]
  }

  function Last<T>(s: seq<T>): T
    requires s != []
  {
    s[|s| - 1]
  }

  lemma SplitLast<T>(s: seq<T>)
    requires s != []
    ensures s == s[..|s| - 1] + [Last(s)]
  {
  }

  function Flatten<T>(parts: seq<seq<T>>): seq<T> {
    if parts == [] then [] else Flatten(parts[..|parts| - 1]) + Last(parts)
  }

  lemma FlattenOneMore<T>(parts: seq<seq<T>>, part: seq<T>)
    ensures Flatten(parts + [part]) == Flatten(parts) + part
  {
    assert (parts + [part])[..|parts|] == parts;
  }

  ghost function Elements<T>(s: seq<T>): set<T> {
    set x | x in s
  }

  ghost function Satisfying<T>(s: seq<T>, p: T -> bool): set<T> {
    set x | x in s && p(x)
  }

  lemma {:induction false} DistinctIsCardinality<T>(s: seq<T>)
    requires Distinct(s)
    ensures |s| == |Elements(s)|
  {
    if s == [] {
    } else {
      var init, last := s[..|s| - 1], s[|s| - 1];
      assert s == init + [last];
      DistinctIsCardinality(init);
      assert Elements(s) == Elements(init) + {last};
    }
  }

  lemma {:induction false} DistinctOccursOnce<T>(s: seq<T>, x: T)
    requires Distinct(s)
    ensures multiset(s)[x] == if x in s then 1 else 0
  {
    if s == [] {
    } else {
      var init, last := s[..|s| - 1], s[|s| - 1];
      assert s == init + [last];
      DistinctOccursOnce(init, x);
    }
  }

  /** Two listings of one set are permutations of each other. */
  lemma DistinctListingsAgree<T>(s: seq<T>, t: seq<T>)
    requires Distinct(s) && Distinct(t) && forall x :: x in s <==> x in t
    ensures multiset(s) == multiset(t)
  {
    forall x
      ensures multiset(s)[x] == multiset(t)[x]
    {
      DistinctOccursOnce(s, x);
      DistinctOccursOnce(t, x);
    }
  }

  /** A permutation holds the last element somewhere, and the rest is a permutation of the rest. */
  lemma LastIsSomewhere<T>(s: seq<T>, t: seq<T>) returns (k: nat)
    requires multiset(s) == multiset(t) && s != []
    ensures k < |t| && t[k] == s[|s| - 1] && multiset(s[..|s| - 1]) == multiset(t[..k] + t[k + 1..])
  {
    var init, last := s[..|s| - 1], s[|s| - 1];
    assert s == init + [last];
    assert last in multiset(t);
    k :| 0 <= k < |t| && t[k] == last;
    assert t == t[..k] + [last] + t[k + 1..];
    assert multiset(init) == multiset(s) - multiset{last};
    assert multiset(t[..k] + t[k + 1..]) == multiset(t) - multiset{last};
  }

  lemma {:induction false} SubsetIsSmaller<T>(a: set<T>, b: set<T>)
    requires a <= b
    ensures |a| <= |b|
    ensures |a| == |b| ==> a == b
  {
    if a == {} {
    } else {
      var x :| x in a;
      SubsetIsSmaller(a - {x}, b - {x});
    }
  }

  /** How many elements satisfy p. */
  function Count<T>(s: seq<T>, p: T -> bool): nat {
    if s == [] then 0 else Count(s[..|s| - 1], p) + if p(s[|s| - 1]) then 1 else 0
  }

  /** Two counts over the same elements agree exactly when the narrower test never fails. */
  lemma {:induction false} CountsAgreeIff<T>(s: seq<T>, p: T -> bool, q: T -> bool)
    requires forall x :: x in s && q(x) ==> p(x)
    ensures Count(s, q) <= Count(s, p)
    ensures Count(s, q) == Count(s, p) <==> forall x :: x in s && p(x) ==> q(x)
  {
    if s == [] {
    } else {
      var init, last := s[..|s| - 1], s[|s| - 1];
      assert s == init + [last];
      CountsAgreeIff(init, p, q);
    }
  }

  function Without<T>(p: T -> bool, q: T -> bool): T -> bool {
    (x: T) => p(x) && !q(x)
  }

  /** By how much the narrower count falls short. */
  lemma {:induction false} CountShortfall<T>(s: seq<T>, p: T -> bool, q: T -> bool)
    requires forall x :: x in s && q(x) ==> p(x)
    ensures Count(s, p) == Count(s, q) + Count(s, Without(p, q))
  {
    if s == [] {
    } else {
      CountShortfall(s[..|s| - 1], p, q);
    }
  }

  lemma CountOneMore<T>(s: seq<T>, x: T, p: T -> bool)
    ensures Count(s + [x], p) == Count(s, p) + if p(x) then 1 else 0
  {
    assert (s + [x])[..|s|] == s;
  }

  /** Counting in a list without repetitions is counting a set. */
  lemma {:induction false} CountIsCardinality<T>(s: seq<T>, p: T -> bool)
    requires Distinct(s)
    ensures Count(s, p) == |Satisfying(s, p)|
  {
    if s == [] {
    } else {
      var init, last := s[..|s| - 1], s[|s| - 1];
      assert s == init + [last];
      CountIsCardinality(init, p);
      assert Satisfying(s, p) == Satisfying(init, p) + if p(last) then {last} else {};
    }
  }

  /** The keys a map sends to y. */
  function Fibre(m: map<int, int>, y: int): set<int> {
    set x | x in m && m[x] == y
  }

  function Preimage(m: map<int, int>, ys: seq<int>): set<int> {
    set x | x in m && m[x] in ys
  }

  lemma PreimageOneMore(m: map<int, int>, ys: seq<int>, y: int)
    requires y !in ys
    ensures |Preimage(m, ys + [y])| == |Preimage(m, ys)| + |Fibre(m, y)|
  {
    assert Preimage(m, ys + [y]) == Preimage(m, ys) + Fibre(m, y);
    assert Preimage(m, ys) !! Fibre(m, y);
  }
}
