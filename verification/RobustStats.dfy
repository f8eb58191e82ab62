/** Median and median absolute deviation of timing samples (int64 nanoseconds),
    with Go's wrap-around addition and truncating division. */
module RobustStats {
  import opened GoInt
  import opened Sorting

  function AtMost(): (int64, int64) -> bool {
    (x, y) => x <= y
  }

  function MedianOf(xs: seq<int64>): int64 {
    if xs == [] then
      0
    else
      var s := Sort(xs, AtMost());
      if |s| % 2 == 1 then s[|s| / 2] else Half(Add(s[|s| / 2 - 1], s[|s| / 2]))
  }

  function Deviation(x: int64, centre: int64): int64 {
    var d := Sub(x, centre);
    if d < 0 then Sub(0, d) else d
  }

  function Deviations(xs: seq<int64>, centre: int64): (r: seq<int64>)
    ensures |r| == |xs|
    ensures forall i :: 0 <= i < |xs| ==> r[i] == Deviation(xs[i], centre)
  {
    seq(|xs|, i requires 0 <= i < |xs| => Deviation(xs[i], centre))
  }

  function MADOf(xs: seq<int64>): int64 {
    MedianOf(Deviations(xs, MedianOf(xs)))
  }

  method Median(xs: seq<int64>) returns (m: int64)
    ensures m == MedianOf(xs)
  {
    if |xs| == 0 {
      return 0;
    }
    var s := new int64[|xs|](i requires 0 <= i < |xs| => xs[i]);
    assert s[..] == xs;
    SortArray(s, AtMost());
    var mid := s.Length / 2;
    assert s[..][mid] == s[mid];
    if s.Length % 2 == 1 {
      return s[mid];
    }
    assert s[..][mid - 1] == s[mid - 1];
    m := Half(Add(s[mid - 1], s[mid]));
  }

  method MAD(xs: seq<int64>) returns (m: int64)
    ensures m == MADOf(xs)
  {
    if |xs| == 0 {
      return 0;
    }
    var med := Median(xs);
    var dev := new int64[|xs|];
    for i := 0 to |xs|
      invariant forall k :: 0 <= k < i ==> dev[k] == Deviation(xs[k], med)
    {
      var d := Sub(xs[i], med);
      if d < 0 {
        d := Sub(0, d);
      }
      dev[i] := d;
    }
    assert dev[..] == Deviations(xs, med);
    m := Median(dev[..]);
  }

  /* ---- How many samples lie in a range ---- */

  ghost function CountIn(s: seq<int64>, lo: int, hi: int): (n: nat)
    ensures n <= |s|
  {
    if s == [] then 0
    else (if lo <= s[|s| - 1] <= hi then 1 else 0) + CountIn(s[..|s| - 1], lo, hi)
  }

  lemma {:induction false} CountSplit(a: seq<int64>, b: seq<int64>, lo: int, hi: int)
    ensures CountIn(a + b, lo, hi) == CountIn(a, lo, hi) + CountIn(b, lo, hi)
  {
    if b == [] {
      assert a + b == a;
    } else {
      assert (a + b)[..|a + b| - 1] == a + b[..|b| - 1];
      CountSplit(a, b[..|b| - 1], lo, hi);
    }
  }

  lemma {:induction false} CountInsert(x: int64, s: seq<int64>, lo: int, hi: int)
    ensures CountIn(Insert(x, s, AtMost()), lo, hi) == CountIn([x], lo, hi) + CountIn(s, lo, hi)
  {
    if s == [] || AtMost()(x, s[0]) {
      CountSplit([x], s, lo, hi);
    } else {
      CountInsert(x, s[1..], lo, hi);
      CountSplit([s[0]], Insert(x, s[1..], AtMost()), lo, hi);
      CountSplit([s[0]], s[1..], lo, hi);
      assert s == [s[0]] + s[1..];
    }
  }

  lemma {:induction false} CountSort(s: seq<int64>, lo: int, hi: int)
    ensures CountIn(Sort(s, AtMost()), lo, hi) == CountIn(s, lo, hi)
  {
    if s != [] {
      CountSort(s[..|s| - 1], lo, hi);
      CountInsert(s[|s| - 1], Sort(s[..|s| - 1], AtMost()), lo, hi);
      CountSplit(s[..|s| - 1], [s[|s| - 1]], lo, hi);
      assert s == s[..|s| - 1] + [s[|s| - 1]];
    }
  }

  lemma {:induction false} CountNone(s: seq<int64>, lo: int, hi: int)
    requires forall i :: 0 <= i < |s| ==> !(lo <= s[i] <= hi)
    ensures CountIn(s, lo, hi) == 0
  {
    if s != [] {
      CountNone(s[..|s| - 1], lo, hi);
    }
  }

  /** All samples outside `replaced` are in range, so at least that many are. */
  lemma {:induction false} CountKept(s: seq<int64>, replaced: set<nat>, lo: int, hi: int)
    requires forall i :: 0 <= i < |s| && i !in replaced ==> lo <= s[i] <= hi
    ensures CountIn(s, lo, hi) >= |s| - |replaced|
  {
    if s != [] {
      var last := |s| - 1;
      if last in replaced {
        assert |replaced - {last}| == |replaced| - 1;
      }
      CountKept(s[..last], replaced - {last}, lo, hi);
    }
  }

  /* ---- Main results ---- */

  function LowerMid(xs: seq<int64>): int64
    requires xs != []
  {
    Sort(xs, AtMost())[(|xs| - 1) / 2]
  }

  function UpperMid(xs: seq<int64>): int64
    requires xs != []
  {
    Sort(xs, AtMost())[|xs| / 2]
  }

  lemma FewAboveUpperMid(s: seq<int64>, q: nat, lo: int, hi: int)
    requires Sorted(s, AtMost()) && q < |s| && s[q] > hi
    ensures CountIn(s, lo, hi) <= q
  {
    forall i | q <= i < |s|
      ensures s[i] > hi
    {
      assert i == q || AtMost()(s[q], s[i]);
    }
    CountNone(s[q..], lo, hi);
    CountSplit(s[..q], s[q..], lo, hi);
    assert s == s[..q] + s[q..];
  }

  lemma FewBelowLowerMid(s: seq<int64>, p: nat, lo: int, hi: int)
    requires Sorted(s, AtMost()) && p < |s| && s[p] < lo
    ensures CountIn(s, lo, hi) <= |s| - p - 1
  {
    forall i | 0 <= i <= p
      ensures s[i] < lo
    {
      assert i == p || AtMost()(s[i], s[p]);
    }
    CountNone(s[..p + 1], lo, hi);
    CountSplit(s[..p + 1], s[p + 1..], lo, hi);
    assert s == s[..p + 1] + s[p + 1..];
  }

  /** The two middle order statistics survive floor((n-1)/2) arbitrary
      replacements: they stay in any interval that holds the other samples. */
  lemma MiddlesResistReplacement(xs: seq<int64>, replaced: set<nat>, lo: int, hi: int)
    requires xs != [] && |replaced| <= (|xs| - 1) / 2
    requires forall i :: 0 <= i < |xs| && i !in replaced ==> lo <= xs[i] <= hi
    ensures lo <= LowerMid(xs) <= UpperMid(xs) <= hi
  {
    var n, s := |xs|, Sort(xs, AtMost());
    SortIsSorted(xs, AtMost());
    CountKept(xs, replaced, lo, hi);
    CountSort(xs, lo, hi);
    var p, q := (n - 1) / 2, n / 2;
    assert p == q || AtMost()(s[p], s[q]);
    if s[q] > hi {
      FewAboveUpperMid(s, q, lo, hi);
    } else if s[p] < lo {
      FewBelowLowerMid(s, p, lo, hi);
    }
  }

  /** `Median` lies between the two middle samples exactly when their sum does
      not wrap around; for an odd number of samples there is no sum. */
  lemma MedianBetweenMiddlesIff(xs: seq<int64>)
    requires xs != []
    ensures LowerMid(xs) <= MedianOf(xs) <= UpperMid(xs) <==> MiddlesAdd(xs)
  {
    SortIsSorted(xs, AtMost());
    var a, b := LowerMid(xs), UpperMid(xs);
    if |xs| % 2 == 0 {
      EvenMedian(xs);
      assert AtMost()(a, b);
    } else {
      assert (|xs| - 1) / 2 == |xs| / 2;
    }
  }

  /** A concrete overflow: two samples of 2^62 ns have median -2^62. */
  lemma MedianCanWrap()
    ensures MedianOf([TWO62, TWO62]) == -TWO62
  {
    var xs: seq<int64> := [TWO62, TWO62];
    assert xs[..1] == [TWO62] && xs[..1][..0] == [];
    assert Sort(xs[..1], AtMost()) == [TWO62];
    assert Sort(xs, AtMost()) == [TWO62, TWO62];
  }

  /** The two middle samples can be added without wrapping around. */
  predicate MiddlesAdd(xs: seq<int64>)
    requires xs != []
  {
    |xs| % 2 == 1 || -TWO63 <= LowerMid(xs) as int + UpperMid(xs) as int < TWO63
  }

  /** Breakdown point of the median: it stays in any interval that holds the
      untouched samples unless the middle ones wrap around, which they cannot
      for samples below 2^62 ns (146 years). */
  lemma MedianBreakdown(xs: seq<int64>, replaced: set<nat>, lo: int, hi: int)
    requires xs != [] && |replaced| <= (|xs| - 1) / 2
    requires forall i :: 0 <= i < |xs| && i !in replaced ==> lo <= xs[i] <= hi
    ensures MiddlesAdd(xs) ==> lo <= MedianOf(xs) <= hi
    ensures -TWO62 <= lo && hi < TWO62 ==> MiddlesAdd(xs)
  {
    MiddlesResistReplacement(xs, replaced, lo, hi);
    MedianBetweenMiddlesIff(xs);
  }

  /** A sum of two non-negative numbers that wraps around is negative. */
  lemma MedianOfMagnitudesIff(xs: seq<int64>)
    requires xs != [] && LowerMid(xs) >= 0
    ensures MedianOf(xs) >= 0 <==> MiddlesAdd(xs)
  {
    MedianBetweenMiddlesIff(xs);
    SortIsSorted(xs, AtMost());
    if |xs| % 2 == 0 {
      EvenMedian(xs);
      assert AtMost()(LowerMid(xs), UpperMid(xs));
    }
  }

  /** Breakdown point of the MAD: with the median sound, and the untouched
      samples within 2^63 ns (292 years) of each other, it is at most their
      range exactly when the two middle deviations can be added, whatever the
      replaced samples are (even if x - median wraps).  They always can for an
      odd number of samples, and for a range below 2^62 ns. */
  lemma MADBreakdown(xs: seq<int64>, replaced: set<nat>, lo: int, hi: int)
    requires xs != [] && |replaced| <= (|xs| - 1) / 2
    requires forall i :: 0 <= i < |xs| && i !in replaced ==> lo <= xs[i] <= hi
    ensures MiddlesAdd(xs) && hi - lo < TWO63 ==>
      (0 <= MADOf(xs) <= hi - lo <==> MiddlesAdd(Deviations(xs, MedianOf(xs))))
    ensures MiddlesAdd(xs) && hi - lo < TWO63 && (|xs| % 2 == 1 || hi - lo < TWO62) ==> 0 <= MADOf(xs) <= hi - lo
    ensures -TWO62 <= lo && hi < TWO62 ==> MiddlesAdd(xs)
  {
    MedianBreakdown(xs, replaced, lo, hi);
    if MiddlesAdd(xs) && hi - lo < TWO63 {
      var deviations := Deviations(xs, MedianOf(xs));
      MiddlesResistReplacement(deviations, replaced, 0, hi - lo);
      MedianBreakdown(deviations, replaced, 0, hi - lo);
      MedianOfMagnitudesIff(deviations);
    }
  }

  /** Beyond that the bound fails: four samples of six lie within 2^62 ns, the
      median is one of them, and the MAD is -2^62. */
  lemma MADCanWrap()
    ensures var xs: seq<int64> := [-TWO62, -TWO62, 0, 0, TWO62, TWO62];
      MedianOf(xs) == 0 && MADOf(xs) == -TWO62
  {
    var xs: seq<int64> := [-TWO62, -TWO62, 0, 0, TWO62, TWO62];
    MiddlesResistReplacement(xs, {0, 1}, 0, TWO62);
    MiddlesResistReplacement(xs, {4, 5}, -TWO62, 0);
    MedianBetweenMiddlesIff(xs);
    var deviations := Deviations(xs, 0);
    MiddlesResistReplacement(deviations, {2, 3}, TWO62, TWO62);
    EvenMedian(deviations);
  }

  lemma EvenMedian(xs: seq<int64>)
    requires xs != [] && |xs| % 2 == 0
    ensures MedianOf(xs) == Half(Add(LowerMid(xs), UpperMid(xs)))
  {
    assert (|xs| - 1) / 2 == |xs| / 2 - 1;
  }

  /* ---- Order of the samples does not matter ---- */

  lemma MedianOrderIrrelevant(xs: seq<int64>, ys: seq<int64>)
    requires multiset(xs) == multiset(ys)
    ensures MedianOf(xs) == MedianOf(ys)
  {
    SameElements(xs, ys);
    SortDependsOnMultiset(xs, ys, AtMost());
  }

  ghost function Without<T>(s: seq<T>, k: nat): (r: seq<T>)
    requires k < |s|
    ensures |r| == |s| - 1
  {
    s[..k] + s[k + 1..]
  }

  lemma Peel<T>(s: seq<T>, k: nat)
    requires k < |s|
    ensures multiset(s) == multiset(Without(s, k)) + multiset{s[k]}
  {
    assert s == s[..k] + [s[k]] + s[k + 1..];
  }

  /** Removing one copy of the same element keeps two lists permutations. */
  lemma PeelBoth<T>(a: seq<T>, i: nat, b: seq<T>, j: nat)
    requires multiset(a) == multiset(b)
    requires i < |a| && j < |b| && a[i] == b[j]
    ensures multiset(Without(a, i)) == multiset(Without(b, j))
  {
    Peel(a, i);
    Peel(b, j);
    Cancel(multiset(Without(a, i)), multiset(Without(b, j)), a[i]);
  }

  lemma Cancel<T>(a: multiset<T>, b: multiset<T>, x: T)
    requires a + multiset{x} == b + multiset{x}
    ensures a == b
  {
    assert a == (a + multiset{x}) - multiset{x};
    assert b == (b + multiset{x}) - multiset{x};
  }

  lemma DeviationsOfRest(s: seq<int64>, k: nat, centre: int64)
    requires k < |s|
    ensures multiset(Deviations(s, centre)) ==
            multiset(Deviations(Without(s, k), centre)) + multiset{Deviation(s[k], centre)}
  {
    var d := Deviations(s, centre);
    Peel(d, k);
    assert Without(d, k) == Deviations(Without(s, k), centre);
  }

  lemma {:induction false} DeviationsPermute(xs: seq<int64>, ys: seq<int64>, centre: int64)
    requires multiset(xs) == multiset(ys)
    ensures multiset(Deviations(xs, centre)) == multiset(Deviations(ys, centre))
    decreases |xs|
  {
    SameElements(xs, ys);
    if xs == [] {
      assert Deviations(xs, centre) == Deviations(ys, centre);
    } else {
      assert xs[0] in ys;
      var k :| 0 <= k < |ys| && ys[k] == xs[0];
      PeelBoth(xs, 0, ys, k);
      DeviationsPermute(Without(xs, 0), Without(ys, k), centre);
      DeviationsOfRest(xs, 0, centre);
      DeviationsOfRest(ys, k, centre);
    }
  }

  lemma MADOrderIrrelevant(xs: seq<int64>, ys: seq<int64>)
    requires multiset(xs) == multiset(ys)
    ensures MADOf(xs) == MADOf(ys)
  {
    MedianOrderIrrelevant(xs, ys);
    DeviationsPermute(xs, ys, MedianOf(xs));
    MedianOrderIrrelevant(Deviations(xs, MedianOf(xs)), Deviations(ys, MedianOf(ys)));
  }

  /* ---- What the middles and the deviations are ---- */

  lemma {:induction false} CountAll(s: seq<int64>, lo: int, hi: int)
    requires forall i :: 0 <= i < |s| ==> lo <= s[i] <= hi
    ensures CountIn(s, lo, hi) == |s|
  {
    if s != [] {
      CountAll(s[..|s| - 1], lo, hi);
    }
  }

  lemma Rising(s: seq<int64>, i: nat, j: nat)
    requires Sorted(s, AtMost()) && i <= j < |s|
    ensures s[i] <= s[j]
  {
    assert i < j ==> AtMost()(s[i], s[j]);
  }

  lemma ManyBelow(s: seq<int64>, p: nat)
    requires Sorted(s, AtMost()) && p < |s|
    ensures CountIn(s, -TWO63, s[p]) >= p + 1
  {
    var low := s[..p + 1];
    forall i | 0 <= i < |low|
      ensures -TWO63 <= low[i] <= s[p]
    {
      Rising(s, i, p);
    }
    hide Sorted;
    CountAll(low, -TWO63, s[p]);
    CountSplit(low, s[p + 1..], -TWO63, s[p]);
    assert s == low + s[p + 1..];
  }

  lemma ManyAbove(s: seq<int64>, p: nat)
    requires Sorted(s, AtMost()) && p < |s|
    ensures CountIn(s, s[p], TWO63) >= |s| - p
  {
    var high := s[p..];
    forall i | 0 <= i < |high|
      ensures s[p] <= high[i] <= TWO63
    {
      Rising(s, p, p + i);
    }
    hide Sorted;
    CountAll(high, s[p], TWO63);
    CountSplit(s[..p], high, s[p], TWO63);
    assert s == s[..p] + high;
  }

  lemma PlaceInOrder(xs: seq<int64>, p: nat)
    requires p < |xs|
    ensures var v := Sort(xs, AtMost())[p];
      CountIn(xs, -TWO63, v) >= p + 1 && CountIn(xs, v, TWO63) >= |xs| - p && v in xs
  {
    var s := Sort(xs, AtMost());
    SortIsSorted(xs, AtMost());
    SortPermutes(xs, AtMost());
    hide Sort, CountIn, Sorted;
    SameElements(s, xs);
    ManyBelow(s, p);
    ManyAbove(s, p);
    CountSort(xs, -TWO63, s[p]);
    CountSort(xs, s[p], TWO63);
    assert s[p] in s;
  }

  /** At least half of the samples are no larger than either middle one, and at
      least half no smaller; for an odd number the two are the same. */
  lemma MiddlesHalveTheSamples(xs: seq<int64>)
    requires xs != []
    ensures CountIn(xs, -TWO63, LowerMid(xs)) >= (|xs| + 1) / 2 && CountIn(xs, LowerMid(xs), TWO63) >= |xs| / 2 + 1
    ensures CountIn(xs, -TWO63, UpperMid(xs)) >= |xs| / 2 + 1 && CountIn(xs, UpperMid(xs), TWO63) >= (|xs| + 1) / 2
    ensures |xs| % 2 == 1 ==> LowerMid(xs) == UpperMid(xs) == MedianOf(xs)
    ensures LowerMid(xs) in xs && UpperMid(xs) in xs
  {
    PlaceInOrder(xs, (|xs| - 1) / 2);
    PlaceInOrder(xs, |xs| / 2);
    hide Sort, CountIn;
    if |xs| % 2 == 1 {
      assert (|xs| - 1) / 2 == |xs| / 2;
    }
  }

  /** The median of an even number of samples is the mean of the two middle
      ones, rounded toward zero, as long as they can be added. */
  lemma MedianIsTheMean(xs: seq<int64>)
    requires xs != [] && |xs| % 2 == 0 && MiddlesAdd(xs)
    ensures var sum, m := LowerMid(xs) as int + UpperMid(xs) as int, MedianOf(xs) as int;
      (sum >= 0 ==> 2 * m <= sum <= 2 * m + 1) && (sum <= 0 ==> 2 * m - 1 <= sum <= 2 * m)
  {
    EvenMedian(xs);
  }

  /** A deviation is the distance to the centre exactly if that is below 2^63. */
  lemma DeviationIsDistanceIff(x: int64, centre: int64)
    ensures var distance := if x >= centre then x as int - centre as int else centre as int - x as int;
      Deviation(x, centre) as int == distance <==> distance < TWO63
  {
  }
}
