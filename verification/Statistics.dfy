/** `analyzer/statutil.py`: percentiles, median and median absolute deviation. */
module Statistics {
  import opened Collections

  // ----- Sorting -----

  predicate Sorted(s: seq<real>) {
    forall i, j :: 0 <= i < j < |s| ==> s[i] <= s[j]
  }

  function Insert(s: seq<real>, x: real): seq<real> {
    if s == [] || s[|s| - 1] <= x then s + [x] else Insert(s[..|s| - 1], x) + [s[|s| - 1]]
  }

  function Sort(s: seq<real>): seq<real> {
    if s == [] then [] else Insert(Sort(s[..|s| - 1]), s[|s| - 1])
  }

  lemma {:induction false} InsertAdds(s: seq<real>, x: real)
    ensures multiset(Insert(s, x)) == multiset(s) + multiset{x}
  {
    if s == [] || s[|s| - 1] <= x {
    } else {
      InsertAdds(s[..|s| - 1], x);
      assert s == s[..|s| - 1] + [s[|s| - 1]];
    }
  }

  lemma {:induction false} InsertSorts(s: seq<real>, x: real)
    requires Sorted(s)
    ensures Sorted(Insert(s, x)) && forall y :: y in Insert(s, x) ==> y in s || y == x
  {
    if s == [] || s[|s| - 1] <= x {
    } else {
      var init, last := s[..|s| - 1], s[|s| - 1];
      InsertSorts(init, x);
      SortedOneMore(Insert(init, x), last);
    }
  }

  lemma SortedOneMore(s: seq<real>, x: real)
    requires Sorted(s) && forall y :: y in s ==> y <= x
    ensures Sorted(s + [x])
  {
    forall i | 0 <= i < |s|
      ensures s[i] <= x
    {
      assert s[i] in s;
    }
  }

  lemma {:induction false} SortSorts(s: seq<real>)
    ensures Sorted(Sort(s)) && multiset(Sort(s)) == multiset(s) && |Sort(s)| == |s|
  {
    if s != [] {
      SortSorts(s[..|s| - 1]);
      InsertSorts(Sort(s[..|s| - 1]), s[|s| - 1]);
      InsertAdds(Sort(s[..|s| - 1]), s[|s| - 1]);
      assert s == s[..|s| - 1] + [s[|s| - 1]];
    }
    assert |multiset(Sort(s))| == |multiset(s)|;
  }

  /** A multiset has one sorted listing. */
  lemma {:induction false} SortedIsUnique(s: seq<real>, t: seq<real>)
    requires Sorted(s) && Sorted(t) && multiset(s) == multiset(t)
    ensures s == t
  {
    assert |multiset(s)| == |multiset(t)|;
    if s != [] {
      SameLast(s, t);
      SortedIsUnique(s[..|s| - 1], t[..|t| - 1]);
      assert s == s[..|s| - 1] + [s[|s| - 1]] && t == t[..|t| - 1] + [t[|t| - 1]];
    }
  }

  lemma SameLast(s: seq<real>, t: seq<real>)
    requires Sorted(s) && Sorted(t) && multiset(s) == multiset(t) && s != [] && t != []
    ensures s[|s| - 1] == t[|t| - 1] && multiset(s[..|s| - 1]) == multiset(t[..|t| - 1])
  {
    var a, b := s[|s| - 1], t[|t| - 1];
    assert a in multiset(t) && b in multiset(s);
    LastIsGreatest(s, b);
    LastIsGreatest(t, a);
    InitMultiset(s);
    InitMultiset(t);
  }

  lemma InitMultiset(s: seq<real>)
    requires s != []
    ensures multiset(s[..|s| - 1]) == multiset(s) - multiset{s[|s| - 1]}
  {
    assert s == s[..|s| - 1] + [s[|s| - 1]];
  }

  lemma LastIsGreatest(s: seq<real>, x: real)
    requires Sorted(s) && x in s
    ensures x <= s[|s| - 1]
  {
  }

  // ----- Median -----

  /** The middle of the sorted values, or the mean of the two in the middle. */
  function Middle(s: seq<real>): real
    requires s != []
  {
    var n := |s|;
    if n % 2 == 1 then s[n / 2] else (s[n / 2 - 1] + s[n / 2]) / 2.0
  }

  function Median(values: seq<real>): real {
    if values == [] then 0.0 else
      SortSorts(values);
      Middle(Sort(values))
  }

  lemma MedianIgnoresOrder(s: seq<real>, t: seq<real>)
    requires multiset(s) == multiset(t)
    ensures Median(s) == Median(t)
  {
    assert |multiset(s)| == |multiset(t)|;
    SortSorts(s);
    SortSorts(t);
    SortedIsUnique(Sort(s), Sort(t));
  }

  function Shift(s: seq<real>, d: real): (r: seq<real>)
    ensures |r| == |s|
  {
    seq(|s|, i requires 0 <= i < |s| => s[i] + d)
  }

  lemma {:induction false} InsertShifts(s: seq<real>, x: real, d: real)
    ensures Insert(Shift(s, d), x + d) == Shift(Insert(s, x), d)
  {
    if s == [] || s[|s| - 1] <= x {
    } else {
      InsertShifts(s[..|s| - 1], x, d);
      assert Shift(s, d)[..|s| - 1] == Shift(s[..|s| - 1], d);
    }
  }

  lemma {:induction false} SortShifts(s: seq<real>, d: real)
    ensures Sort(Shift(s, d)) == Shift(Sort(s), d)
  {
    if s == [] {
    } else {
      SortShifts(s[..|s| - 1], d);
      InsertShifts(Sort(s[..|s| - 1]), s[|s| - 1], d);
      assert Shift(s, d)[..|s| - 1] == Shift(s[..|s| - 1], d);
    }
  }

  /** Moving every sample moves the median by as much. */
  lemma MedianShifts(s: seq<real>, d: real)
    requires s != []
    ensures Median(Shift(s, d)) == Median(s) + d
  {
    SortShifts(s, d);
    SortSorts(s);
  }

  // ----- Robustness -----

  function Within(lo: real, hi: real): real -> bool {
    (x: real) => lo <= x <= hi
  }

  predicate Majority(s: seq<real>, lo: real, hi: real) {
    2 * Count(s, Within(lo, hi)) > |s|
  }

  lemma {:induction false} CountOfFew<T>(s: seq<T>, p: T -> bool, k: nat)
    requires k <= |s|
    ensures (forall i :: k <= i < |s| ==> !p(s[i])) ==> Count(s, p) <= k
    ensures (forall i :: 0 <= i < k ==> !p(s[i])) ==> Count(s, p) <= |s| - k
  {
    if s == [] {
    } else {
      CountOfFew(s[..|s| - 1], p, if k == |s| then k - 1 else k);
    }
  }

  lemma {:induction false} CountOfInsert(s: seq<real>, x: real, p: real -> bool)
    ensures Count(Insert(s, x), p) == Count(s, p) + if p(x) then 1 else 0
  {
    if s == [] || s[|s| - 1] <= x {
      CountOneMore(s, x, p);
    } else {
      CountOfInsert(s[..|s| - 1], x, p);
      CountOneMore(Insert(s[..|s| - 1], x), s[|s| - 1], p);
    }
  }

  lemma {:induction false} CountOfSort(s: seq<real>, p: real -> bool)
    ensures Count(Sort(s), p) == Count(s, p)
  {
    if s == [] {
    } else {
      CountOfSort(s[..|s| - 1], p);
      CountOfInsert(Sort(s[..|s| - 1]), s[|s| - 1], p);
    }
  }

  /** If more than half of the samples lie in an interval, so does the median, whatever the others are. */
  lemma MedianIsInMajority(values: seq<real>, lo: real, hi: real)
    requires Majority(values, lo, hi)
    ensures lo <= Median(values) <= hi
  {
    var s := Sort(values);
    SortSorts(values);
    CountOfSort(values, Within(lo, hi));
    MiddleIsInMajority(s, lo, hi);
  }

  lemma MiddleIsInMajority(s: seq<real>, lo: real, hi: real)
    requires Sorted(s) && Majority(s, lo, hi)
    ensures s != [] && lo <= Middle(s) <= hi
  {
    var n := |s|;
    if s[n / 2] > hi {
      assert forall i :: n / 2 <= i < n ==> !Within(lo, hi)(s[i]);
      CountOfFew(s, Within(lo, hi), n / 2);
    }
    var k := (n - 1) / 2;
    if s[k] < lo {
      assert forall i :: 0 <= i < k + 1 ==> !Within(lo, hi)(s[i]);
      CountOfFew(s, Within(lo, hi), k + 1);
    }
  }

  function Abs(x: real): real {
    if x < 0.0 then -x else x
  }

  function Deviations(values: seq<real>, m: real): (r: seq<real>)
    ensures |r| == |values|
  {
    seq(|values|, i requires 0 <= i < |values| => Abs(values[i] - m))
  }

  function Mad(values: seq<real>): real {
    Median(Deviations(values, Median(values)))
  }

  lemma {:induction false} DeviationsOfMajority(values: seq<real>, lo: real, hi: real, m: real)
    requires lo <= m <= hi
    ensures Count(Deviations(values, m), Within(0.0, hi - lo)) >= Count(values, Within(lo, hi))
  {
    if values == [] {
    } else {
      DeviationsOfMajority(values[..|values| - 1], lo, hi, m);
      assert Deviations(values, m)[..|values| - 1] == Deviations(values[..|values| - 1], m);
    }
  }

  /** And the median absolute deviation is no wider than the interval. */
  lemma MadIsWithinMajority(values: seq<real>, lo: real, hi: real)
    requires Majority(values, lo, hi)
    ensures 0.0 <= Mad(values) <= hi - lo
  {
    MedianIsInMajority(values, lo, hi);
    DeviationsOfMajority(values, lo, hi, Median(values));
    MedianIsInMajority(Deviations(values, Median(values)), 0.0, hi - lo);
  }

  // ----- Percentiles of sorted values -----

  function Times(a: real, x: real): real {
    a * x
  }

  /** The value at a fractional position, interpolated between its neighbours. */
  function At(s: seq<real>, rank: real): real
    requires s != [] && 0.0 <= rank <= (|s| - 1) as real
  {
    var lo := rank.Floor;
    var hi := if lo + 1 < |s| then lo + 1 else |s| - 1;
    s[lo] + Times(rank - lo as real, s[hi] - s[lo])
  }

  function RankOf(n: nat, pct: real): (rank: real)
    requires n > 0 && 0.0 <= pct <= 100.0
    ensures 0.0 <= rank <= (n - 1) as real
  {
    ScaleDown((n - 1) as real, pct);
    Times(pct / 100.0, (n - 1) as real)
  }

  lemma ScaleDown(x: real, pct: real)
    requires x >= 0.0 && 0.0 <= pct <= 100.0
    ensures 0.0 <= Times(pct / 100.0, x) <= x
  {
    Mul(pct / 100.0, 1.0, x);
    Mul(0.0, pct / 100.0, x);
  }

  lemma Mul(a: real, b: real, x: real)
    requires a <= b && x >= 0.0
    ensures Times(a, x) <= Times(b, x)
  {
    assert (b - a) * x >= 0.0;
  }

  lemma RankIsMonotone(n: nat, p: real, q: real)
    requires n > 0 && 0.0 <= p <= q <= 100.0
    ensures RankOf(n, p) <= RankOf(n, q)
  {
    Mul(p / 100.0, q / 100.0, (n - 1) as real);
  }

  function Percentile(s: seq<real>, pct: real): real
    requires 0.0 <= pct <= 100.0
  {
    if s == [] then 0.0 else if |s| == 1 then s[0] else At(s, RankOf(|s|, pct))
  }

  lemma Interpolated(a: real, b: real, f: real)
    requires a <= b && 0.0 <= f <= 1.0
    ensures a <= a + Times(f, b - a) <= b
  {
    Mul(f, 1.0, b - a);
    Mul(0.0, f, b - a);
  }

  lemma AtIsBetween(s: seq<real>, rank: real)
    requires Sorted(s) && s != [] && 0.0 <= rank <= (|s| - 1) as real
    ensures s[rank.Floor] <= At(s, rank)
    ensures rank.Floor + 1 < |s| ==> At(s, rank) <= s[rank.Floor + 1]
    ensures rank.Floor + 1 == |s| ==> At(s, rank) == s[rank.Floor]
  {
    var lo := rank.Floor;
    if lo + 1 < |s| {
      Interpolated(s[lo], s[lo + 1], rank - lo as real);
    }
  }

  lemma AtIsMonotone(s: seq<real>, a: real, b: real)
    requires Sorted(s) && s != [] && 0.0 <= a <= b <= (|s| - 1) as real
    ensures At(s, a) <= At(s, b)
  {
    AtIsBetween(s, a);
    AtIsBetween(s, b);
    var lo := a.Floor;
    if lo == b.Floor {
      if lo + 1 < |s| {
        Mul(a - lo as real, b - lo as real, s[lo + 1] - s[lo]);
      }
    }
  }

  /** A higher percentile is never a smaller value; all lie between the least and the largest sample. */
  lemma PercentilesAreOrdered(s: seq<real>, p: real, q: real)
    requires Sorted(s) && s != [] && 0.0 <= p <= q <= 100.0
    ensures s[0] <= Percentile(s, p) <= Percentile(s, q) <= s[|s| - 1]
  {
    if |s| > 1 {
      var n := |s| - 1;
      RankIsMonotone(|s|, p, q);
      AtIsMonotone(s, RankOf(|s|, p), RankOf(|s|, q));
      AtIsMonotone(s, 0.0, RankOf(|s|, p));
      AtIsMonotone(s, RankOf(|s|, q), n as real);
      AtIsBetween(s, n as real);
    }
  }

  lemma HalfRank(n: nat)
    requires n > 0
    ensures RankOf(n, 50.0) == if n % 2 == 1 then (n / 2) as real else (n / 2 - 1) as real + 0.5
  {
    assert RankOf(n, 50.0) == 0.5 * (n - 1) as real;
    assert n == 2 * (n / 2) + n % 2;
  }

  lemma AtTheMiddle(s: seq<real>)
    requires s != []
    ensures At(s, RankOf(|s|, 50.0)) == Middle(s)
  {
    HalfRank(|s|);
    var half := |s| / 2;
    if |s| % 2 == 1 {
      assert RankOf(|s|, 50.0).Floor == half;
    } else {
      assert RankOf(|s|, 50.0).Floor == half - 1;
    }
  }

  /** The interpolated 50th percentile is the median, computed the other way. */
  lemma FiftiethPercentileIsMedian(values: seq<real>)
    ensures Percentile(Sort(values), 50.0) == Median(values)
  {
    SortSorts(values);
    if values != [] {
      AtTheMiddle(Sort(values));
    }
  }

  // ----- What pins these down -----

  /** The k-th of n samples is their 100k/(n-1)-th percentile. */
  lemma PercentileAtSample(s: seq<real>, k: nat, pct: real)
    requires k < |s| && |s| > 1 && pct == 100.0 * (k as real / (|s| - 1) as real)
    ensures 0.0 <= pct <= 100.0 && Percentile(s, pct) == s[k]
  {
    Proportion(k as real, (|s| - 1) as real);
    assert pct / 100.0 == k as real / (|s| - 1) as real;
    assert RankOf(|s|, pct) == k as real;
    assert (k as real).Floor == k;
  }

  lemma Proportion(x: real, n: real)
    requires n > 0.0 && 0.0 <= x <= n
    ensures 0.0 <= x / n <= 1.0 && Times(x / n, n) == x
  {
    var q := x / n;
    assert q * n == x;
  }

  /** In between, values lie on the straight line from one sample to the next. */
  lemma AtIsLinear(s: seq<real>, k: nat, x: real)
    requires k + 1 < |s| && k as real <= x <= (k + 1) as real
    ensures At(s, x) == s[k] + Times(x - k as real, s[k + 1] - s[k])
  {
    if x == (k + 1) as real {
      assert x.Floor == k + 1;
    } else {
      assert x.Floor == k;
    }
  }

  function AtMost(m: real): real -> bool {
    (x: real) => x <= m
  }

  function AtLeast(m: real): real -> bool {
    (x: real) => x >= m
  }

  lemma {:induction false} CountOfMany<T>(s: seq<T>, p: T -> bool, k: nat)
    requires k <= |s|
    ensures (forall i :: 0 <= i < k ==> p(s[i])) ==> Count(s, p) >= k
    ensures (forall i :: k <= i < |s| ==> p(s[i])) ==> Count(s, p) >= |s| - k
  {
    if s == [] {
    } else {
      CountOfMany(s[..|s| - 1], p, if k == |s| then k - 1 else k);
    }
  }

  /** At least half of the values are no more than m, and at least half no less. */
  predicate Splits(values: seq<real>, m: real) {
    2 * Count(values, AtMost(m)) >= |values| && 2 * Count(values, AtLeast(m)) >= |values|
  }

  lemma MiddleSplits(s: seq<real>, m: real)
    requires Sorted(s) && s != [] && m == Middle(s)
    ensures Splits(s, m)
  {
    var n := |s|;
    var lo, hi := (n - 1) / 2, n / 2;
    MiddleIsBetween(s, lo, hi);
    CountOfMany(s, AtMost(m), hi + n % 2);
    CountOfMany(s, AtLeast(m), hi);
    assert forall i :: 0 <= i <= lo ==> s[i] <= s[lo];
    assert forall i :: hi <= i < n ==> s[hi] <= s[i];
  }

  lemma MiddleIsBetween(s: seq<real>, lo: nat, hi: nat)
    requires Sorted(s) && s != [] && lo == (|s| - 1) / 2 && hi == |s| / 2
    ensures s[lo] <= Middle(s) <= s[hi]
  {
  }

  lemma MedianSplits(values: seq<real>)
    ensures Splits(values, Median(values))
  {
    if values != [] {
      var m := Median(values);
      SortSorts(values);
      CountOfSort(values, AtMost(m));
      CountOfSort(values, AtLeast(m));
      MiddleSplits(Sort(values), m);
    }
  }

  function NoFurther(m: real, d: real): real -> bool {
    (x: real) => Abs(x - m) <= d
  }

  function NoCloser(m: real, d: real): real -> bool {
    (x: real) => Abs(x - m) >= d
  }

  /** At least half of the values are within d of m, and at least half no closer. */
  predicate SplitsAround(values: seq<real>, m: real, d: real) {
    2 * Count(values, NoFurther(m, d)) >= |values| && 2 * Count(values, NoCloser(m, d)) >= |values|
  }

  lemma {:induction false} CountOfDeviations(values: seq<real>, m: real, d: real)
    ensures Count(Deviations(values, m), AtMost(d)) == Count(values, NoFurther(m, d))
    ensures Count(Deviations(values, m), AtLeast(d)) == Count(values, NoCloser(m, d))
  {
    if values == [] {
    } else {
      CountOfDeviations(values[..|values| - 1], m, d);
      assert Deviations(values, m)[..|values| - 1] == Deviations(values[..|values| - 1], m);
    }
  }

  lemma MadSplits(values: seq<real>)
    ensures SplitsAround(values, Median(values), Mad(values))
  {
    var m := Median(values);
    MedianSplits(Deviations(values, m));
    CountOfDeviations(values, m, Mad(values));
  }
}
