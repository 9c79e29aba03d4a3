/**
 Robust aggregation of benchmark samples. Floats are exact reals; `Truncate` is Python's int() on a
 float, which rounds toward zero.
 */
module BenchmarkStatistics {
  import opened Prelude
  import opened Sequences
  import opened Arithmetic
  import opened Ordering

  datatype OutlierPolicy = KeepAll | Mad | Iqr

  datatype Sample = Sample(durationNs: int, allocationsDelta: int)

  datatype Statistics = Statistics(
    sampleCount: nat, samplesExcluded: int,
    median: int, mean: int, min: int, max: int, stdev: int, p95: int, p99: int,
    coefficientOfVariation: real,
    cumulativeAllocations: int, maxAllocationDelta: int)

  const DURATION: Sample -> int := (s: Sample) => s.durationNs
  const ALLOCATION: Sample -> int := (s: Sample) => s.allocationsDelta
  const INT_LEQ: (int, int) -> bool := (a, b) => a <= b

  function Sorted(s: seq<int>): (r: seq<int>)
    ensures |r| == |s|
  {
    Sort(s, INT_LEQ)
  }

  ghost predicate Ascending(s: seq<int>) {
    forall i, j :: 0 <= i < j < |s| ==> s[i] <= s[j]
  }

  lemma SortedAscends(s: seq<int>)
    ensures Ascending(Sorted(s))
  {
    SortSorts(s, INT_LEQ);
    var r := Sorted(s);
    assert forall i, j :: 0 <= i < j < |r| ==> INT_LEQ(r[i], r[j]);
  }

  function Ceiling(x: real): int {
    -((-x).Floor)
  }

  /** Nearest-rank percentile of a sorted sequence. */
  function Percentile(sorted: seq<int>, pct: real): int {
    if sorted == [] then 0
    else if pct <= 0.0 then sorted[0]
    else if pct >= 100.0 then sorted[|sorted| - 1]
    else sorted[Rank(|sorted|, pct)]
  }

  function Rank(n: nat, pct: real): (r: nat)
    requires n > 0
    ensures r < n
  {
    Max(0, Min(n - 1, Ceiling(pct / 100.0 * n as real) - 1))
  }

  function Median(sorted: seq<int>): int {
    var n := |sorted|;
    if n == 0 then 0
    else if n % 2 == 1 then sorted[n / 2]
    else (sorted[n / 2 - 1] + sorted[n / 2]) / 2
  }

  function DistanceFrom(center: int): int -> int {
    v => Abs(v - center)
  }

  function MedianDeviation(sorted: seq<int>, median: int): int {
    if sorted == [] then 0 else Median(Sorted(Map(sorted, DistanceFrom(median))))
  }

  function Equals(x: int): int -> bool {
    v => v == x
  }

  function WithinDistance(center: int, limit: int): int -> bool {
    v => Abs(v - center) <= limit
  }

  function Between(lo: int, hi: int): int -> bool {
    v => lo <= v <= hi
  }

  function AtMost(limit: int): int -> bool {
    v => v <= limit
  }

  /** The MAD rule. A zero deviation keeps only the samples on the median. */
  function MadTest(sorted: seq<int>, threshold: real): int -> bool {
    var median := Median(sorted);
    var mad := MedianDeviation(sorted, median);
    if mad == 0 then Equals(median) else WithinDistance(median, DeviationLimit(threshold, mad))
  }

  function DeviationLimit(threshold: real, mad: int): int {
    Truncate(threshold * mad as real)
  }

  /** Tukey's fence around the quartiles. */
  function IqrTest(sorted: seq<int>, factor: real): int -> bool {
    Fence(Percentile(sorted, 25.0), Percentile(sorted, 75.0), factor)
  }

  function Fence(q1: int, q3: int, factor: real): int -> bool {
    FenceAt(q1, q3, factor * (q3 - q1) as real)
  }

  function FenceAt(q1: int, q3: int, reach: real): int -> bool {
    Between(Truncate(q1 as real - reach), Truncate(q3 as real + reach))
  }

  /** The samples kept by a policy, in input order, and the number dropped. */
  function ApplyOutlierPolicy(durations: seq<int>, policy: OutlierPolicy, madThreshold: real, iqrFactor: real)
    : (r: (seq<int>, int))
    ensures |r.0| + r.1 == |durations|
  {
    if durations == [] || policy.KeepAll? then (durations, 0)
    else
      var sorted := Sorted(durations);
      var kept := Filter(durations, if policy.Mad? then MadTest(sorted, madThreshold) else IqrTest(sorted, iqrFactor));
      (kept, |durations| - |kept|)
  }

  function Kept(durations: seq<int>, policy: OutlierPolicy, madThreshold: real, iqrFactor: real): seq<int> {
    ApplyOutlierPolicy(durations, policy, madThreshold, iqrFactor).0
  }

  /** The integer square root: the largest r with r * r <= n. */
  function FloorSqrt(n: nat): (r: nat)
    ensures r * r <= n < (r + 1) * (r + 1)
  {
    if n == 0 then 0
    else
      var r := FloorSqrt(n - 1);
      if (r + 1) * (r + 1) <= n then r + 1 else r
  }

  function SquaredDeviations(s: seq<int>, mean: real): (r: real)
    ensures r >= 0.0
  {
    if s == [] then 0.0
    else (s[0] as real - mean) * (s[0] as real - mean) + SquaredDeviations(s[1..], mean)
  }

  function Mean(s: seq<int>): real
    requires s != []
  {
    Sum(s) as real / |s| as real
  }

  /** The population variance. */
  function Variance(s: seq<int>): (r: real)
    requires s != []
    ensures r >= 0.0
  {
    SquaredDeviations(s, Mean(s)) / |s| as real
  }

  function Largest(s: seq<int>): int
    requires s != []
  {
    if |s| == 1 then s[0] else Max(s[0], Largest(s[1..]))
  }

  function MaxAllocation(allocations: seq<int>): int {
    if allocations == [] then 0 else Largest(allocations)
  }

  function Variation(stdev: nat, mean: int): real {
    if mean > 0 then stdev as real / mean as real else 0.0
  }

  function AggregateSamples(samples: seq<Sample>, policy: OutlierPolicy, madThreshold: real, iqrFactor: real)
    : Statistics
  {
    var durations := Map(samples, DURATION);
    var allocations := Map(samples, ALLOCATION);
    var (kept, excluded) := ApplyOutlierPolicy(durations, policy, madThreshold, iqrFactor);
    var sorted := Sorted(kept);
    if sorted == [] then
      Statistics(0, excluded, 0, 0, 0, 0, 0, 0, 0, 0.0, 0, 0)
    else
      var mean := Truncate(Mean(sorted));
      var stdev := StandardDeviation(sorted);
      Statistics(
        |sorted|, excluded,
        Median(sorted), mean, sorted[0], sorted[|sorted| - 1], stdev,
        Percentile(sorted, 95.0), Percentile(sorted, 99.0),
        Variation(stdev, mean),
        Sum(allocations), MaxAllocation(allocations))
  }

  function StandardDeviation(s: seq<int>): nat
    requires s != []
  {
    if |s| > 1 then FloorSqrt(Variance(s).Floor) else 0
  }

  // ---- order statistics ----

  lemma MedianBounds(s: seq<int>)
    requires s != []
    requires Ascending(s)
    ensures s[0] <= s[(|s| - 1) / 2] <= Median(s) <= s[|s| / 2]
  {
  }

  lemma UpperRanks(n: nat)
    requires n > 0
    ensures n / 2 <= Rank(n, 95.0) <= Rank(n, 99.0)
  {
    assert 95.0 / 100.0 * n as real <= 99.0 / 100.0 * n as real;
    if n == 1 {
    } else if n == 2 {
      assert 95.0 / 100.0 * n as real == 1.9;
    } else {
      assert 95.0 / 100.0 * n as real >= n as real / 2.0 + 1.0;
    }
  }

  lemma TruncateBetween(x: real, lo: int, hi: int)
    requires lo as real <= x <= hi as real
    ensures lo <= Truncate(x) <= hi
  {
  }

  lemma {:induction false} SumBounds(s: seq<int>, lo: int, hi: int)
    requires forall i :: 0 <= i < |s| ==> lo <= s[i] <= hi
    ensures lo * |s| <= Sum(s) <= hi * |s|
  {
    if s != [] {
      SumBounds(s[1..], lo, hi);
      assert lo * |s| == lo * (|s| - 1) + lo && hi * |s| == hi * (|s| - 1) + hi;
    }
  }

  lemma MeanBounds(s: seq<int>, lo: int, hi: int)
    requires s != []
    requires forall i :: 0 <= i < |s| ==> lo <= s[i] <= hi
    ensures lo as real <= Mean(s) <= hi as real
  {
    SumBounds(s, lo, hi);
    ProductAsReal(lo, |s|);
    ProductAsReal(hi, |s|);
    DivideBounds(Sum(s) as real, |s| as real, lo as real, hi as real);
  }

  // ---- Popoviciu's inequality ----

  ghost function SumSquares(s: seq<int>): int {
    if s == [] then 0 else s[0] * s[0] + SumSquares(s[1..])
  }

  ghost predicate SquaresBounded(q: int, sum: int, n: int, lo: int, hi: int) {
    q <= (lo + hi) * sum - n * (lo * hi)
  }

  /** (hi - v) * (v - lo) is never negative, which bounds the sum of squares linearly. */
  lemma {:induction false} SquaresBound(s: seq<int>, lo: int, hi: int)
    requires forall i :: 0 <= i < |s| ==> lo <= s[i] <= hi
    ensures SquaresBounded(SumSquares(s), Sum(s), |s|, lo, hi)
  {
    if s != [] {
      SquaresBound(s[1..], lo, hi);
      SquareStep(s[0], lo, hi, SumSquares(s[1..]), Sum(s[1..]), |s| - 1);
    }
  }

  lemma SquareStep(v: int, lo: int, hi: int, q: int, sum: int, n: int)
    requires lo <= v <= hi && SquaresBounded(q, sum, n, lo, hi)
    ensures SquaresBounded(v * v + q, v + sum, n + 1, lo, hi)
  {
    assert (hi - v) * (v - lo) >= 0;
    assert (hi - v) * (v - lo) == (lo + hi) * v - lo * hi - v * v by {
      assert (hi - v) * (v - lo) == hi * (v - lo) - v * (v - lo);
    }
    assert (lo + hi) * (v + sum) == (lo + hi) * v + (lo + hi) * sum;
  }

  /** The sum of the products c * v, and of c * c, over the samples. */
  ghost function Products(s: seq<int>, c: real): real {
    if s == [] then 0.0 else c * s[0] as real + Products(s[1..], c)
  }

  ghost function Repeated(s: seq<int>, x: real): real {
    if s == [] then 0.0 else x + Repeated(s[1..], x)
  }

  lemma {:induction false} ProductsOfSum(s: seq<int>, c: real)
    ensures Products(s, c) == c * Sum(s) as real
  {
    if s != [] {
      ProductsOfSum(s[1..], c);
      Distributes(c, s[0] as real, Sum(s[1..]) as real);
    }
  }

  lemma {:induction false} RepeatedTimes(s: seq<int>, x: real)
    ensures Repeated(s, x) == |s| as real * x
  {
    if s != [] {
      RepeatedTimes(s[1..], x);
      Distributes(x, 1.0, |s[1..]| as real);
    }
  }

  lemma Distributes(c: real, x: real, y: real)
    ensures c * (x + y) == c * x + c * y
  {
  }

  lemma SquareOfDifference(v: real, c: real)
    ensures (v - c) * (v - c) == v * v - 2.0 * (c * v) + c * c
  {
    assert (v - c) * (v - c) == v * (v - c) - c * (v - c);
  }

  lemma {:induction false} DeviationsMultiplied(s: seq<int>, c: real)
    ensures SquaredDeviations(s, c) == SumSquares(s) as real - 2.0 * Products(s, c) + Repeated(s, c * c)
  {
    if s != [] {
      DeviationsMultiplied(s[1..], c);
      ProductAsReal(s[0], s[0]);
      SquareOfDifference(s[0] as real, c);
    }
  }

  /** The squared deviations about c, multiplied out. */
  ghost predicate Expands(deviations: real, q: real, sum: real, n: real, c: real) {
    deviations == q - 2.0 * (c * sum) + n * (c * c)
  }

  lemma {:induction false} DeviationsWithSum(s: seq<int>, c: real, cc: real)
    requires cc == c * c
    ensures SquaredDeviations(s, c) == SumSquares(s) as real - 2.0 * (c * Sum(s) as real) + Repeated(s, cc)
  {
    DeviationsMultiplied(s, c);
    ProductsOfSum(s, c);
  }

  ghost predicate ExpandsWith(deviations: real, q: real, sum: real, n: real, c: real, cc: real) {
    deviations == q - 2.0 * (c * sum) + n * cc
  }

  lemma {:induction false} DeviationsWithSquare(s: seq<int>, c: real, cc: real)
    requires cc == c * c
    ensures ExpandsWith(SquaredDeviations(s, c), SumSquares(s) as real, Sum(s) as real, |s| as real, c, cc)
  {
    DeviationsWithSum(s, c, cc);
    RepeatedTimes(s, cc);
  }

  lemma {:induction false} DeviationExpansion(s: seq<int>, c: real)
    ensures Expands(SquaredDeviations(s, c), SumSquares(s) as real, Sum(s) as real, |s| as real, c)
  {
    DeviationsWithSquare(s, c, c * c);
    SquareSupplied(SquaredDeviations(s, c), SumSquares(s) as real, Sum(s) as real, |s| as real, c);
  }

  lemma SquareSupplied(deviations: real, q: real, sum: real, n: real, c: real)
    requires ExpandsWith(deviations, q, sum, n, c, c * c)
    ensures Expands(deviations, q, sum, n, c)
  {
  }

  /** Put together at c = sum / n. */
  lemma CenteredBound(q: real, sum: real, n: real, c: real, lo: real, hi: real)
    requires c * n == sum && q <= (lo + hi) * sum - n * (lo * hi)
    ensures q - 2.0 * (c * sum) + n * (c * c) <= (hi - c) * (c - lo) * n
  {
    var p := (hi - c) * (c - lo);
    assert p == (lo + hi) * c - lo * hi - c * c by {
      assert p == hi * (c - lo) - c * (c - lo);
    }
    assert (lo + hi) * sum == (lo + hi) * c * n;
    assert c * sum == c * c * n;
    assert p * n == (lo + hi) * c * n - lo * hi * n - c * c * n;
  }

  lemma ProductHalfRange(lo: real, hi: real, c: real)
    ensures 4.0 * ((hi - c) * (c - lo)) <= (hi - lo) * (hi - lo)
  {
    var x, y := hi - c, c - lo;
    assert hi - lo == x + y;
    assert (x + y) * (x + y) - 4.0 * (x * y) == (x - y) * (x - y) by {
      assert (x + y) * (x + y) == x * x + 2.0 * (x * y) + y * y;
      assert (x - y) * (x - y) == x * x - 2.0 * (x * y) + y * y;
    }
    assert (x - y) * (x - y) >= 0.0;
  }

  /** Four times the variance of integers in [lo, hi] is at most the squared range. */
  lemma VarianceBound(s: seq<int>, lo: int, hi: int)
    requires s != []
    requires forall i :: 0 <= i < |s| ==> lo <= s[i] <= hi
    ensures 4.0 * Variance(s) <= ((hi - lo) * (hi - lo)) as real
  {
    SquaresBound(s, lo, hi);
    DeviationExpansion(s, Mean(s));
    PopoviciuArithmetic(SumSquares(s), Sum(s), |s|, Mean(s), lo, hi, SquaredDeviations(s, Mean(s)));
  }

  lemma PopoviciuArithmetic(q: int, sum: int, n: nat, c: real, lo: int, hi: int, x: real)
    requires n > 0 && c == sum as real / n as real && x >= 0.0
    requires SquaresBounded(q, sum, n, lo, hi)
    requires Expands(x, q as real, sum as real, n as real, c)
    ensures 4.0 * (x / n as real) <= ((hi - lo) * (hi - lo)) as real
  {
    DivMul(sum as real, n as real);
    assert q as real <= (lo as real + hi as real) * sum as real - n as real * (lo as real * hi as real) by {
      ProductAsReal(lo + hi, sum);
      ProductAsReal(lo, hi);
      ProductAsReal(n, lo * hi);
    }
    CenteredBound(q as real, sum as real, n as real, c, lo as real, hi as real);
    ScaledBound(x, n as real, lo, hi, c);
  }

  lemma ScaledBound(x: real, n: real, lo: int, hi: int, c: real)
    requires n > 0.0 && 0.0 <= x <= (hi as real - c) * (c - lo as real) * n
    ensures 4.0 * (x / n) <= ((hi - lo) * (hi - lo)) as real
  {
    DivideBounds(x, n, 0.0, (hi as real - c) * (c - lo as real));
    ProductHalfRange(lo as real, hi as real, c);
    ProductAsReal(hi - lo, hi - lo);
  }

  /** FloorSqrt of the floor is int() of the real square root. */
  lemma FloorSqrtTruncatesRoot(x: real, root: real)
    requires root >= 0.0 && root * root == x
    ensures Truncate(root) == FloorSqrt(x.Floor)
  {
    RootFloor(x, root, root.Floor, FloorSqrt(x.Floor));
  }

  lemma RootFloor(x: real, root: real, k: nat, r: nat)
    requires root * root == x && k as real <= root < (k + 1) as real
    requires r * r <= x.Floor < (r + 1) * (r + 1)
    ensures k == r
  {
    SquareMonotone(k as real, root);
    SquareStrict(root, (k + 1) as real);
    ProductAsReal(k, k);
    ProductAsReal(k + 1, k + 1);
    SquareOrder(k, r);
    SquareOrder(r, k);
  }

  /** Every non-empty aggregate orders its statistics and bounds its deviation by half its range. */
  lemma AggregateBounds(samples: seq<Sample>, policy: OutlierPolicy, madThreshold: real, iqrFactor: real)
    ensures var r := AggregateSamples(samples, policy, madThreshold, iqrFactor);
      && r.sampleCount + r.samplesExcluded == |samples|
      && r.min <= r.median <= r.p95 <= r.p99 <= r.max
      && r.min <= r.mean <= r.max
      && 0 <= 2 * r.stdev <= r.max - r.min
  {
    var s := Sorted(Kept(Map(samples, DURATION), policy, madThreshold, iqrFactor));
    SortedAscends(Kept(Map(samples, DURATION), policy, madThreshold, iqrFactor));
    if s != [] {
      SortedBounds(s);
    }
  }

  lemma SortedBounds(s: seq<int>)
    requires s != [] && Ascending(s)
    ensures s[0] <= Median(s) <= Percentile(s, 95.0) <= Percentile(s, 99.0) <= s[|s| - 1]
    ensures s[0] <= Truncate(Mean(s)) <= s[|s| - 1]
    ensures 2 * FloorSqrt(Variance(s).Floor) <= s[|s| - 1] - s[0]
  {
    var lo, hi := s[0], s[|s| - 1];
    MedianBounds(s);
    UpperRanks(|s|);
    MeanBounds(s, lo, hi);
    TruncateBetween(Mean(s), lo, hi);
    VarianceBound(s, lo, hi);
    DeviationWithinRange(Variance(s), hi - lo);
  }

  lemma DeviationWithinRange(variance: real, range: nat)
    requires variance >= 0.0 && 4.0 * variance <= (range * range) as real
    ensures 2 * FloorSqrt(variance.Floor) <= range
  {
    var r := FloorSqrt(variance.Floor);
    var square := r * r;
    assert square as real <= variance;
    HalfRoot(r, range);
  }

  // ---- permutation invariance ----

  lemma SortedPermutation(s: seq<int>, t: seq<int>)
    requires multiset(s) == multiset(t)
    ensures Sorted(s) == Sorted(t)
  {
    SortPermutation(s, t, INT_LEQ);
  }

  lemma {:induction false} LargestIsGreatest(s: seq<int>)
    requires s != []
    ensures Largest(s) in s && forall x :: x in s ==> x <= Largest(s)
  {
    if |s| > 1 {
      LargestIsGreatest(s[1..]);
      assert s == [s[0]] + s[1..];
    }
  }

  lemma LargestPermutation(s: seq<int>, t: seq<int>)
    requires s != [] && t != [] && multiset(s) == multiset(t)
    ensures Largest(s) == Largest(t)
  {
    LargestIsGreatest(s);
    LargestIsGreatest(t);
    assert Largest(s) in multiset(s) && Largest(t) in multiset(t);
    assert Largest(s) in t && Largest(t) in s;
  }

  lemma SameLength<T>(s: seq<T>, t: seq<T>)
    requires multiset(s) == multiset(t)
    ensures |s| == |t|
  {
    assert |s| == |multiset(s)| && |t| == |multiset(t)|;
  }

  /** The outlier policy keeps the same multiset whatever the input order. */
  lemma PolicyPermutation(s: seq<int>, t: seq<int>, policy: OutlierPolicy, madThreshold: real, iqrFactor: real)
    requires multiset(s) == multiset(t)
    ensures var a := ApplyOutlierPolicy(s, policy, madThreshold, iqrFactor);
            var b := ApplyOutlierPolicy(t, policy, madThreshold, iqrFactor);
            multiset(a.0) == multiset(b.0) && a.1 == b.1
  {
    SameLength(s, t);
    SortedPermutation(s, t);
    FilterPermutation(s, t, MadTest(Sorted(s), madThreshold));
    FilterPermutation(s, t, IqrTest(Sorted(s), iqrFactor));
  }

  /** The whole aggregate depends only on the multiset of samples. */
  lemma AggregatePermutation(s: seq<Sample>, t: seq<Sample>, policy: OutlierPolicy,
                             madThreshold: real, iqrFactor: real)
    requires multiset(s) == multiset(t)
    ensures AggregateSamples(s, policy, madThreshold, iqrFactor) == AggregateSamples(t, policy, madThreshold, iqrFactor)
  {
    SameLength(s, t);
    MapPermutation(s, t, DURATION);
    MapPermutation(s, t, ALLOCATION);
    var ds, dt := Map(s, DURATION), Map(t, DURATION);
    PolicyPermutation(ds, dt, policy, madThreshold, iqrFactor);
    SortedPermutation(Kept(ds, policy, madThreshold, iqrFactor), Kept(dt, policy, madThreshold, iqrFactor));
    AllocationPermutation(Map(s, ALLOCATION), Map(t, ALLOCATION));
  }

  lemma AllocationPermutation(s: seq<int>, t: seq<int>)
    requires multiset(s) == multiset(t)
    ensures Sum(s) == Sum(t) && MaxAllocation(s) == MaxAllocation(t)
  {
    SameLength(s, t);
    SumPermutation(s, t);
    if s != [] {
      LargestPermutation(s, t);
    }
  }

  // ---- breakdown points ----

  lemma MedianSplits(devs: seq<int>, limit: int)
    requires devs != [] && Ascending(devs) && Median(devs) <= limit
    ensures 2 * |Filter(devs, AtMost(limit))| >= |devs|
  {
    var half := (|devs| - 1) / 2;
    MedianBounds(devs);
    assert forall i :: 0 <= i < half + 1 ==> devs[i] <= devs[half];
    FilterKeepsRange(devs, AtMost(limit), 0, half + 1);
  }

  /** At least half of any sample list lies within the median deviation of the median. */
  lemma HalfWithinDeviation(s: seq<int>, median: int, limit: int)
    requires s != []
    requires limit >= MedianDeviation(Sorted(s), median)
    ensures 2 * |Filter(s, WithinDistance(median, limit))| >= |s|
  {
    var sorted := Sorted(s);
    var images := Map(sorted, DistanceFrom(median));
    var devs := Sorted(images);
    assert Median(devs) <= limit;
    SortedAscends(images);
    MedianSplits(devs, limit);
    assert |Filter(devs, AtMost(limit))| == |Filter(images, AtMost(limit))| by {
      SortPermutes(images, INT_LEQ);
      FilterPermutation(devs, images, AtMost(limit));
    }
    assert |Filter(images, AtMost(limit))| == |Filter(sorted, WithinDistance(median, limit))| by {
      FilterMapLength(sorted, DistanceFrom(median), AtMost(limit), WithinDistance(median, limit));
    }
    SortPermutes(s, INT_LEQ);
    FilterPermutation(sorted, s, WithinDistance(median, limit));
  }

  lemma MedianDeviationNonNegative(s: seq<int>, median: int)
    requires s != []
    ensures MedianDeviation(s, median) >= 0
  {
    var images := Map(s, DistanceFrom(median));
    var devs := Sorted(images);
    SortPermutes(images, INT_LEQ);
    assert devs[0] in multiset(devs);
    assert devs[0] in images;
    var i :| 0 <= i < |s| && images[i] == devs[0];
    assert images[i] == Abs(s[i] - median);
    SortedAscends(images);
    MedianBounds(devs);
  }

  lemma ZeroDeviationKeepsHalf(s: seq<int>, median: int)
    requires s != [] && MedianDeviation(Sorted(s), median) == 0
    ensures 2 * |Filter(s, Equals(median))| >= |s|
  {
    HalfWithinDeviation(s, median, 0);
    ZeroDistanceIsEquality(s, median);
  }

  lemma ZeroDistanceIsEquality(s: seq<int>, median: int)
    ensures |Filter(s, WithinDistance(median, 0))| == |Filter(s, Equals(median))|
  {
    forall x ensures WithinDistance(median, 0)(x) == Equals(median)(x) {
      assert Abs(x - median) <= 0 <==> x == median;
    }
    SameTestSameLength(s, WithinDistance(median, 0), Equals(median));
  }

  lemma {:induction false} SameTestSameLength(s: seq<int>, p: int -> bool, q: int -> bool)
    requires forall x :: p(x) == q(x)
    ensures |Filter(s, p)| == |Filter(s, q)|
  {
    if s != [] {
      SameTestSameLength(s[1..], p, q);
    }
  }

  // ---- how many bad samples the median withstands ----

  /** How many samples differ. */
  function Changed(s: seq<int>, t: seq<int>): nat
    requires |s| == |t|
  {
    if s == [] then 0 else One(s[0] != t[0]) + Changed(s[1..], t[1..])
  }

  ghost predicate Shared(s: seq<int>, t: seq<int>, i: int)
    requires |s| == |t|
  {
    0 <= i < |s| && s[i] == t[i]
  }

  /** The median of t lies between two samples that t shares with s. */
  ghost predicate MedianHeld(s: seq<int>, t: seq<int>)
    requires |s| == |t|
  {
    exists i, j :: Shared(s, t, i) && Shared(s, t, j) && t[i] <= Median(Sorted(t)) <= t[j]
  }

  function AtLeast(limit: int): int -> bool {
    v => v >= limit
  }

  /** Of more samples than were changed, one was not. */
  lemma {:induction false} OneUnchanged(s: seq<int>, t: seq<int>, p: int -> bool) returns (i: nat)
    requires |s| == |t| && |Filter(t, p)| > Changed(s, t)
    ensures Shared(s, t, i) && p(t[i])
  {
    if s[0] == t[0] && p(t[0]) {
      i := 0;
    } else {
      var j := OneUnchanged(s[1..], t[1..], p);
      i := j + 1;
    }
  }

  /** Half of a list is at most its median, and half at least. */
  lemma HalvesAtMedian(t: seq<int>)
    requires t != []
    ensures 2 * |Filter(t, AtMost(Median(Sorted(t))))| >= |t|
    ensures 2 * |Filter(t, AtLeast(Median(Sorted(t))))| >= |t|
  {
    var sorted, m := Sorted(t), Median(Sorted(t));
    SortedAscends(t);
    MedianSplits(sorted, m);
    UpperHalf(sorted, m);
    SortPermutes(t, INT_LEQ);
    FilterPermutation(sorted, t, AtMost(m));
    FilterPermutation(sorted, t, AtLeast(m));
  }

  lemma UpperHalf(sorted: seq<int>, limit: int)
    requires sorted != [] && Ascending(sorted) && limit <= Median(sorted)
    ensures 2 * |Filter(sorted, AtLeast(limit))| >= |sorted|
  {
    MedianBounds(sorted);
    FilterKeepsRange(sorted, AtLeast(limit), |sorted| / 2, |sorted|);
  }

  /** Changing fewer than half of the samples keeps the median between samples that were not changed. */
  lemma MedianHolds(s: seq<int>, t: seq<int>)
    requires |s| == |t| && 2 * Changed(s, t) < |s|
    ensures MedianHeld(s, t)
  {
    var m := Median(Sorted(t));
    HalvesAtMedian(t);
    var i := OneUnchanged(s, t, AtMost(m));
    var j := OneUnchanged(s, t, AtLeast(m));
    assert t[i] <= m <= t[j];
  }

  /** Zeros, and from position z on twos. */
  function Contaminated(n: nat, z: nat): (r: seq<int>)
    ensures |r| == n
  {
    seq(n, i => if i < z then 0 else 2)
  }

  lemma {:induction false} ContaminatedChanged(n: nat, z: nat)
    requires z <= n
    ensures Changed(Contaminated(n, n), Contaminated(n, z)) == n - z
  {
    if n > 0 {
      var rest := if z > 0 then z - 1 else 0;
      ContaminatedChanged(n - 1, rest);
      assert Contaminated(n, n)[1..] == Contaminated(n - 1, n - 1);
      assert Contaminated(n, z)[1..] == Contaminated(n - 1, rest);
    }
  }

  lemma SortedFixed(s: seq<int>)
    requires Ascending(s)
    ensures Sorted(s) == s
  {
    SortSorts(s, INT_LEQ);
    SortPermutes(s, INT_LEQ);
    SortedIsUnique(Sorted(s), s, INT_LEQ);
  }

  /** With half of the samples changed the median leaves the samples that were not. */
  lemma HalfMovesMedian(n: nat, z: nat)
    requires n >= 1 && z == n / 2
    ensures !MedianHeld(Contaminated(n, n), Contaminated(n, z))
  {
    var t := Contaminated(n, z);
    SortedFixed(t);
    assert Median(t) >= 1;
  }

  ghost predicate MedianWithstands(n: nat, k: nat) {
    forall s: seq<int>, t: seq<int> :: |s| == n && |t| == n && Changed(s, t) <= k ==> MedianHeld(s, t)
  }

  /** The breakdown point of the median: it stays between unchanged samples, whatever up to k others become,
      exactly when k is less than half of them. */
  lemma MedianBreakdown(n: nat, k: nat)
    requires n >= 1
    ensures MedianWithstands(n, k) <==> 2 * k < n
  {
    if 2 * k < n {
      forall s: seq<int>, t: seq<int> | |s| == n && |t| == n && Changed(s, t) <= k ensures MedianHeld(s, t) {
        MedianHolds(s, t);
      }
    } else {
      ContaminatedChanged(n, n / 2);
      HalfMovesMedian(n, n / 2);
      assert !MedianWithstands(n, k);
    }
  }

  // ---- how many samples the filters keep ----

  lemma MadKeepsHalf(s: seq<int>, madThreshold: real)
    requires s != [] && madThreshold >= 1.0
    ensures 2 * |Filter(s, MadTest(Sorted(s), madThreshold))| >= |s|
  {
    var median := Median(Sorted(s));
    var mad := MedianDeviation(Sorted(s), median);
    if mad == 0 {
      ZeroDeviationKeepsHalf(s, median);
    } else {
      MedianDeviationNonNegative(Sorted(s), median);
      LimitReachesDeviation(mad, madThreshold);
      HalfWithinDeviation(s, median, DeviationLimit(madThreshold, mad));
    }
  }

  lemma LimitReachesDeviation(mad: nat, threshold: real)
    requires threshold >= 1.0
    ensures DeviationLimit(threshold, mad) >= mad
  {
    MulOrder(mad as real, 1.0, threshold);
  }

  ghost predicate MadAlwaysKeepsHalf(madThreshold: real, iqrFactor: real) {
    forall s: seq<int> :: 2 * |Kept(s, Mad, madThreshold, iqrFactor)| >= |s|
  }

  /** The breakdown point of the MAD filter: half of every sample list survives exactly when the
      threshold is at least one deviation. */
  lemma MadBreakdown(madThreshold: real, iqrFactor: real)
    ensures MadAlwaysKeepsHalf(madThreshold, iqrFactor) <==> madThreshold >= 1.0
  {
    if madThreshold >= 1.0 {
      forall s: seq<int> ensures 2 * |Kept(s, Mad, madThreshold, iqrFactor)| >= |s| {
        if s != [] {
          MadKeepsHalf(s, madThreshold);
        }
      }
    } else {
      MadDropsAll(madThreshold, iqrFactor);
      assert !MadAlwaysKeepsHalf(madThreshold, iqrFactor);
    }
  }

  /** Below one deviation, the two samples 0 and 2 are both dropped. */
  lemma MadDropsAll(madThreshold: real, iqrFactor: real)
    requires madThreshold < 1.0
    ensures Kept([0, 2], Mad, madThreshold, iqrFactor) == []
  {
    SortedPair(0, 2);
    PairDeviation();
    FilterNone([0, 2], WithinDistance(1, Truncate(madThreshold * 1.0)));
  }

  lemma PairDeviation()
    ensures Median([0, 2]) == 1 && MedianDeviation([0, 2], 1) == 1
  {
    assert Map([0, 2], DistanceFrom(1)) == [1, 1];
    SortedPair(1, 1);
  }

  lemma SortedPair(a: int, b: int)
    requires a <= b
    ensures Sorted([a, b]) == [a, b]
  {
    SortSorts([a, b], INT_LEQ);
    SortPermutes([a, b], INT_LEQ);
    SortedIsUnique(Sorted([a, b]), [a, b], INT_LEQ);
  }

  lemma QuartileRanks(n: nat)
    requires n > 0
    ensures Rank(n, 25.0) <= Rank(n, 75.0)
    ensures 2 * (Rank(n, 75.0) - Rank(n, 25.0) + 1) > n
  {
    var x, y := 25.0 / 100.0 * n as real, 75.0 / 100.0 * n as real;
    assert x == n as real / 4.0 && y == 3.0 * n as real / 4.0;
    assert 0.0 < x <= y < n as real;
    assert x <= Ceiling(x) as real < x + 1.0 && y <= Ceiling(y) as real;
    assert 4 * Ceiling(x) <= n + 3 && 4 * Ceiling(y) >= 3 * n;
  }

  /** Every interval holding q1 and q3 holds a majority of s. */
  ghost predicate MajorityAround(s: seq<int>, q1: int, q3: int) {
    forall lo, hi :: lo <= q1 && q3 <= hi ==> 2 * |Filter(s, Between(lo, hi))| > |s|
  }

  lemma QuartilesHoldMajority(s: seq<int>)
    requires s != []
    ensures MajorityAround(s, Percentile(Sorted(s), 25.0), Percentile(Sorted(s), 75.0))
    ensures Percentile(Sorted(s), 25.0) <= Percentile(Sorted(s), 75.0)
  {
    var sorted := Sorted(s);
    SortedAscends(s);
    QuartilesOrdered(sorted);
    forall lo, hi | lo <= Percentile(sorted, 25.0) && Percentile(sorted, 75.0) <= hi
      ensures 2 * |Filter(s, Between(lo, hi))| > |s|
    {
      MiddleHalf(s, lo, hi);
    }
  }

  lemma QuartilesOrdered(sorted: seq<int>)
    requires sorted != [] && Ascending(sorted)
    ensures Percentile(sorted, 25.0) <= Percentile(sorted, 75.0)
  {
    QuartileRanks(|sorted|);
  }

  lemma MiddleHalf(s: seq<int>, lo: int, hi: int)
    requires s != []
    requires lo <= Percentile(Sorted(s), 25.0) && Percentile(Sorted(s), 75.0) <= hi
    ensures 2 * |Filter(s, Between(lo, hi))| > |s|
  {
    var sorted := Sorted(s);
    var a, b := Rank(|s|, 25.0), Rank(|s|, 75.0);
    SortedAscends(s);
    QuartileRanks(|s|);
    FilterKeepsRange(sorted, Between(lo, hi), a, b + 1);
    SortPermutes(s, INT_LEQ);
    FilterPermutation(sorted, s, Between(lo, hi));
  }

  lemma FenceKeepsMajority(s: seq<int>, q1: int, q3: int, factor: real)
    requires MajorityAround(s, q1, q3) && q1 <= q3 && factor >= 0.0
    ensures 2 * |Filter(s, Fence(q1, q3, factor))| > |s|
  {
    FenceHoldsQuartiles(q1, q3, factor);
    var reach := factor * (q3 - q1) as real;
    assert Fence(q1, q3, factor) == Between(Truncate(q1 as real - reach), Truncate(q3 as real + reach));
  }

  lemma FenceHoldsQuartiles(q1: int, q3: int, factor: real)
    requires q1 <= q3 && factor >= 0.0
    ensures Truncate(q1 as real - factor * (q3 - q1) as real) <= q1
    ensures q3 <= Truncate(q3 as real + factor * (q3 - q1) as real)
  {
    MulOrder(factor, 0.0, (q3 - q1) as real);
  }

  lemma IqrKeepsMajority(s: seq<int>, iqrFactor: real)
    requires s != [] && iqrFactor >= 0.0
    ensures 2 * |Filter(s, IqrTest(Sorted(s), iqrFactor))| > |s|
  {
    QuartilesHoldMajority(s);
    FenceKeepsMajority(s, Percentile(Sorted(s), 25.0), Percentile(Sorted(s), 75.0), iqrFactor);
  }

  ghost predicate IqrAlwaysKeepsMajority(madThreshold: real, iqrFactor: real) {
    forall s: seq<int> :: s != [] ==> 2 * |Kept(s, Iqr, madThreshold, iqrFactor)| > |s|
  }

  /** Tukey's fence keeps a majority of every sample list exactly when its factor is not negative. */
  lemma IqrBreakdown(madThreshold: real, iqrFactor: real)
    ensures IqrAlwaysKeepsMajority(madThreshold, iqrFactor) <==> iqrFactor >= 0.0
  {
    if iqrFactor >= 0.0 {
      forall s: seq<int> | s != [] ensures 2 * |Kept(s, Iqr, madThreshold, iqrFactor)| > |s| {
        IqrKeepsMajority(s, iqrFactor);
      }
    } else {
      var wide := Ceiling(1.0 / -iqrFactor);
      IqrDropsAll(madThreshold, iqrFactor, wide);
      assert !IqrAlwaysKeepsMajority(madThreshold, iqrFactor);
    }
  }

  /** An aggregate of some samples is never empty: with sound tolerances it speaks for half of them, and for a
      majority under Tukey's fence. */
  lemma AggregateNeverEmpty(samples: seq<Sample>, policy: OutlierPolicy, madThreshold: real, iqrFactor: real)
    requires samples != []
    requires (policy.Mad? ==> madThreshold >= 1.0) && (policy.Iqr? ==> iqrFactor >= 0.0)
    ensures var r := AggregateSamples(samples, policy, madThreshold, iqrFactor);
      && r.sampleCount >= 1 && 2 * r.sampleCount >= |samples|
      && (policy.Iqr? ==> 2 * r.sampleCount > |samples|)
      && (policy.KeepAll? ==> r.sampleCount == |samples|)
  {
    var durations := Map(samples, DURATION);
    if policy.Mad? {
      MadKeepsHalf(durations, madThreshold);
    } else if policy.Iqr? {
      IqrKeepsMajority(durations, iqrFactor);
    }
  }

  /** With a negative factor, two samples far enough apart are both dropped. */
  lemma IqrDropsAll(madThreshold: real, iqrFactor: real, wide: int)
    requires iqrFactor < 0.0 && wide as real >= 1.0 / -iqrFactor
    ensures Kept([0, wide], Iqr, madThreshold, iqrFactor) == []
  {
    NegativeReach(iqrFactor, wide);
    SortedPair(0, wide);
    PairQuartiles(0, wide);
    FilterNone([0, wide], IqrTest([0, wide], iqrFactor));
  }

  lemma NegativeReach(factor: real, wide: int)
    requires factor < 0.0 && wide as real >= 1.0 / -factor
    ensures factor * wide as real <= -1.0 && wide >= 0
  {
    DivMul(1.0, -factor);
    MulOrder(-factor, 1.0 / -factor, wide as real);
    MulCancel(-factor, 0.0, wide as real);
  }

  lemma PairQuartiles(a: int, b: int)
    ensures Percentile([a, b], 25.0) == a && Percentile([a, b], 75.0) == b
  {
    assert 25.0 / 100.0 * 2.0 == 0.5 && 75.0 / 100.0 * 2.0 == 1.5;
  }

  // ---- monotonicity of the filters ----

  lemma TruncateMonotone(x: real, y: real)
    requires x <= y
    ensures Truncate(x) <= Truncate(y)
  {
  }

  /** Raising either tolerance never drops a sample that was kept. */
  lemma FilterMonotone(s: seq<int>, policy: OutlierPolicy, mad: real, mad': real, iqr: real, iqr': real)
    requires mad <= mad' && iqr <= iqr'
    ensures multiset(Kept(s, policy, mad, iqr)) <= multiset(Kept(s, policy, mad', iqr'))
  {
    if s != [] {
      SortedAscends(s);
      MadTestMonotone(Sorted(s), mad, mad');
      IqrTestMonotone(Sorted(s), iqr, iqr');
      FilterImplies(s, MadTest(Sorted(s), mad), MadTest(Sorted(s), mad'));
      FilterImplies(s, IqrTest(Sorted(s), iqr), IqrTest(Sorted(s), iqr'));
    }
  }

  lemma MadTestMonotone(sorted: seq<int>, mad: real, mad': real)
    requires sorted != [] && mad <= mad'
    ensures forall x :: MadTest(sorted, mad)(x) ==> MadTest(sorted, mad')(x)
  {
    var deviation := MedianDeviation(sorted, Median(sorted));
    MedianDeviationNonNegative(sorted, Median(sorted));
    LimitMonotone(mad, mad', deviation);
  }

  lemma LimitMonotone(t: real, t': real, deviation: nat)
    requires t <= t'
    ensures DeviationLimit(t, deviation) <= DeviationLimit(t', deviation)
  {
    MulOrder(deviation as real, t, t');
    TruncateMonotone(t * deviation as real, t' * deviation as real);
  }

  lemma IqrTestMonotone(sorted: seq<int>, iqr: real, iqr': real)
    requires sorted != [] && iqr <= iqr'
    requires Ascending(sorted)
    ensures forall x :: IqrTest(sorted, iqr)(x) ==> IqrTest(sorted, iqr')(x)
  {
    QuartilesOrdered(sorted);
    FactorMonotone(Percentile(sorted, 25.0), Percentile(sorted, 75.0), iqr, iqr');
  }

  lemma FactorMonotone(q1: int, q3: int, f: real, f': real)
    requires q1 <= q3 && f <= f'
    ensures forall x :: Fence(q1, q3, f)(x) ==> Fence(q1, q3, f')(x)
  {
    var reach, reach' := f * (q3 - q1) as real, f' * (q3 - q1) as real;
    assert reach <= reach' by {
      MulOrder((q3 - q1) as real, f, f');
    }
    FenceMonotone(q1, q3, reach, reach');
  }

  lemma FenceMonotone(q1: int, q3: int, reach: real, reach': real)
    requires reach <= reach'
    ensures forall x :: FenceAt(q1, q3, reach)(x) ==> FenceAt(q1, q3, reach')(x)
  {
    TruncateMonotone(q1 as real - reach', q1 as real - reach);
    TruncateMonotone(q3 as real + reach, q3 as real + reach');
  }

  // ---- the figures of an aggregate, from the kept samples themselves ----

  function Square(x: int): int {
    x * x
  }

  function Below(limit: int): int -> bool {
    v => v < limit
  }

  /** Truncation towards zero moves a quotient by less than one, and never away from zero. */
  lemma TruncatedQuotient(sum: int, n: nat)
    requires n > 0
    ensures var q := Truncate(sum as real / n as real);
            && (sum >= 0 ==> 0 <= sum - q * n < n)
            && (sum < 0 ==> 0 <= q * n - sum < n)
  {
    var x := sum as real / n as real;
    var q := Truncate(x);
    DivMul(sum as real, n as real);
    if sum >= 0 {
      DivideBounds(sum as real, n as real, 0.0, sum as real / n as real);
      QuotientFloor(sum, n, x);
    } else {
      QuotientNegative(sum, n, x);
      QuotientFloor(-sum, n, -x);
    }
  }

  lemma MultipleBelow(sum: int, n: nat, x: real, g: int)
    requires n > 0 && x * n as real == sum as real
    ensures g as real <= x ==> g * n <= sum
    ensures x < g as real ==> sum < g * n
  {
    ProductAsReal(n, g);
    if g as real <= x {
      MulOrder(n as real, g as real, x);
    } else {
      MulStrict(n as real, x, g as real);
    }
  }

  lemma QuotientFloor(sum: int, n: nat, x: real)
    requires n > 0 && sum >= 0 && x * n as real == sum as real
    ensures x >= 0.0 && 0 <= sum - x.Floor * n < n
  {
    if x < 0.0 {
      MulStrict(n as real, x, 0.0);
    }
    MultipleBelow(sum, n, x, x.Floor);
    MultipleBelow(sum, n, x, x.Floor + 1);
    assert (x.Floor + 1) * n == x.Floor * n + n;
  }

  lemma QuotientNegative(sum: int, n: nat, x: real)
    requires n > 0 && sum < 0 && x * n as real == sum as real
    ensures x < 0.0 && (-x) * n as real == (-sum) as real
  {
    if x >= 0.0 {
      MulOrder(n as real, 0.0, x);
    }
  }

  /** The mean of an aggregate is the exact mean of the kept samples, cut off towards zero. */
  lemma AggregateMean(samples: seq<Sample>, policy: OutlierPolicy, madThreshold: real, iqrFactor: real)
    ensures var r := AggregateSamples(samples, policy, madThreshold, iqrFactor);
            var sum := Sum(Kept(Map(samples, DURATION), policy, madThreshold, iqrFactor));
            r.sampleCount > 0 ==>
              && (sum >= 0 ==> 0 <= sum - r.mean * r.sampleCount < r.sampleCount)
              && (sum < 0 ==> 0 <= r.mean * r.sampleCount - sum < r.sampleCount)
  {
    var kept := Kept(Map(samples, DURATION), policy, madThreshold, iqrFactor);
    SortPermutes(kept, INT_LEQ);
    SumPermutation(Sorted(kept), kept);
    if kept != [] {
      TruncatedQuotient(Sum(Sorted(kept)), |Sorted(kept)|);
    }
  }

  lemma {:induction false} SquaresSummed(s: seq<int>)
    ensures SumSquares(s) == Sum(Map(s, Square))
  {
    if s != [] {
      SquaresSummed(s[1..]);
      assert Map(s, Square)[1..] == Map(s[1..], Square);
    }
  }

  /** n times the squared deviations about the mean is n times the sum of squares less the square of the sum. */
  lemma {:induction false} DeviationsAboutMean(s: seq<int>)
    requires s != []
    ensures Centered(|s|, SquaredDeviations(s, Mean(s)), SumSquares(s), Sum(s))
  {
    MeanTimes(s);
    DeviationsAbout(s, Mean(s));
  }

  lemma {:induction false} MeanTimes(s: seq<int>)
    requires s != []
    ensures Mean(s) * |s| as real == Sum(s) as real
  {
    DivMul(Sum(s) as real, |s| as real);
  }

  lemma {:induction false} DeviationsAbout(s: seq<int>, m: real)
    requires m * |s| as real == Sum(s) as real
    ensures Centered(|s|, SquaredDeviations(s, m), SumSquares(s), Sum(s))
  {
    DeviationExpansion(s, m);
    CenteredIntegers(|s|, m, Sum(s), SumSquares(s), SquaredDeviations(s, m));
  }

  ghost predicate Centered(n: nat, d: real, q: int, sum: int) {
    n as real * d == (n * q - sum * sum) as real
  }

  lemma CenteredIntegers(n: nat, m: real, sum: int, q: int, d: real)
    requires m * n as real == sum as real && Expands(d, q as real, sum as real, n as real, m)
    ensures Centered(n, d, q, sum)
  {
    CenteredSquares(n as real, m, sum as real, q as real, d);
    ProductAsReal(n, q);
    ProductAsReal(sum, sum);
  }

  lemma CenteredSquares(n: real, m: real, sum: real, q: real, d: real)
    requires m * n == sum && Expands(d, q, sum, n, m)
    ensures n * d == n * q - sum * sum
  {
    assert n * (m * m) == m * sum;
    assert n * (m * sum) == sum * sum;
    assert n * d == n * q - 2.0 * (n * (m * sum)) + n * (n * (m * m));
  }

  lemma QuotientSquared(d: real, n: nat)
    requires n > 0
    ensures d / n as real * (n * n) as real == n as real * d
  {
    var m, q := n as real, d / n as real;
    DivMul(d, m);
    ProductAsReal(n, n);
    assert q * (m * m) == q * m * m;
  }

  ghost predicate RootOf(r: nat, x: int, n: int) {
    r * r * (n * n) <= x < (r + 1) * (r + 1) * (n * n)
  }

  lemma RootBounds(r: nat, v: real, n: nat, x: int)
    requires n > 0 && v * (n * n) as real == x as real
    requires (r * r) as real <= v < ((r + 1) * (r + 1)) as real
    ensures RootOf(r, x, n)
  {
    assert n * n > 0;
    MultipleBelow(x, n * n, v, r * r);
    MultipleBelow(x, n * n, v, (r + 1) * (r + 1));
  }

  /** The deviation of an aggregate is the root of the population variance of the kept samples, cut off. */
  lemma AggregateDeviation(samples: seq<Sample>, policy: OutlierPolicy, madThreshold: real, iqrFactor: real)
    ensures var r := AggregateSamples(samples, policy, madThreshold, iqrFactor);
            var kept := Kept(Map(samples, DURATION), policy, madThreshold, iqrFactor);
            r.sampleCount > 0 ==>
              r.stdev >= 0 && RootOf(r.stdev, |kept| * Sum(Map(kept, Square)) - Sum(kept) * Sum(kept), |kept|)
  {
    var kept := Kept(Map(samples, DURATION), policy, madThreshold, iqrFactor);
    if kept != [] {
      SortedSums(kept);
      DeviationRoot(Sorted(kept));
    }
  }

  lemma SortedSums(s: seq<int>)
    ensures Sum(Sorted(s)) == Sum(s) && SumSquares(Sorted(s)) == Sum(Map(s, Square))
  {
    SortPermutes(s, INT_LEQ);
    SumPermutation(Sorted(s), s);
    SquaresSummed(Sorted(s));
    MapPermutation(Sorted(s), s, Square);
    SumPermutation(Map(Sorted(s), Square), Map(s, Square));
  }

  lemma DeviationRoot(s: seq<int>)
    requires s != []
    ensures RootOf(StandardDeviation(s), |s| * SumSquares(s) - Sum(s) * Sum(s), |s|)
  {
    if |s| > 1 {
      DeviationsAboutMean(s);
      RootOfQuotient(SquaredDeviations(s, Mean(s)), |s|, |s| * SumSquares(s) - Sum(s) * Sum(s));
    } else {
      OneSample(s);
    }
  }

  lemma RootOfQuotient(d: real, n: nat, x: int)
    requires n > 0 && d / n as real >= 0.0 && n as real * d == x as real
    ensures RootOf(FloorSqrt((d / n as real).Floor), x, n)
  {
    QuotientSquared(d, n);
    FloorSqrtRoot(d / n as real, n, x);
  }

  lemma FloorSqrtRoot(v: real, n: nat, x: int)
    requires n > 0 && v >= 0.0 && v * (n * n) as real == x as real
    ensures RootOf(FloorSqrt(v.Floor), x, n)
  {
    var r := FloorSqrt(v.Floor);
    assert (r * r) as real <= v < ((r + 1) * (r + 1)) as real;
    RootBounds(r, v, n, x);
  }

  lemma {:induction false} OneSample(s: seq<int>)
    requires |s| == 1
    ensures |s| * SumSquares(s) - Sum(s) * Sum(s) == 0
  {
    assert s[1..] == [] && SumSquares([]) == 0 && Sum([]) == 0;
    assert SumSquares(s) == s[0] * s[0] && Sum(s) == s[0];
  }

  /** Nearest rank: so many samples are at most the percentile, and fewer are below it. */
  ghost predicate NearestRank(s: seq<int>, pct: real, v: int) {
    && v in s
    && |Filter(s, AtMost(v))| as real >= pct / 100.0 * |s| as real
    && |Filter(s, Below(v))| as real < pct / 100.0 * |s| as real
  }

  lemma RankCounts(n: nat, pct: real)
    requires n > 0 && 0.0 < pct < 100.0
    ensures Rank(n, pct) as real < pct / 100.0 * n as real <= (Rank(n, pct) + 1) as real
  {
    var x := pct / 100.0 * n as real;
    MulStrict(n as real, 0.0, pct / 100.0);
    MulStrict(n as real, pct / 100.0, 1.0);
    assert 0.0 < x < n as real;
    assert x <= Ceiling(x) as real < x + 1.0;
  }

  lemma RankedCounts(sorted: seq<int>, k: nat)
    requires Ascending(sorted) && k < |sorted|
    ensures |Filter(sorted, AtMost(sorted[k]))| >= k + 1 && |Filter(sorted, Below(sorted[k]))| <= k
  {
    FilterKeepsRange(sorted, AtMost(sorted[k]), 0, k + 1);
    var before, after := sorted[..k], sorted[k..];
    assert sorted == before + after;
    FilterAppend(before, after, Below(sorted[k]));
    FilterNone(after, Below(sorted[k]));
  }

  lemma AtRank(s: seq<int>, pct: real, k: nat)
    requires k < |s| && k as real < pct / 100.0 * |s| as real <= (k + 1) as real
    ensures NearestRank(s, pct, Sorted(s)[k])
  {
    var sorted := Sorted(s);
    SortedAscends(s);
    SortPermutes(s, INT_LEQ);
    RankedCounts(sorted, k);
    CountsPermute(sorted, s, sorted[k]);
    RankIsNearest(s, pct, sorted[k], k);
  }

  lemma PercentileExact(s: seq<int>, pct: real)
    requires s != [] && 0.0 < pct < 100.0
    ensures NearestRank(s, pct, Percentile(Sorted(s), pct))
  {
    RankCounts(|s|, pct);
    AtRank(s, pct, Rank(|s|, pct));
  }

  lemma RankIsNearest(s: seq<int>, pct: real, v: int, k: nat)
    requires v in s && |Filter(s, AtMost(v))| >= k + 1 && |Filter(s, Below(v))| <= k
    requires k as real < pct / 100.0 * |s| as real <= (k + 1) as real
    ensures NearestRank(s, pct, v)
  {
  }

  lemma CountsPermute(s: seq<int>, t: seq<int>, v: int)
    requires multiset(s) == multiset(t) && v in s
    ensures v in t && |Filter(s, AtMost(v))| == |Filter(t, AtMost(v))| && |Filter(s, Below(v))| == |Filter(t, Below(v))|
  {
    assert v in multiset(t);
    FilterPermutation(s, t, AtMost(v));
    FilterPermutation(s, t, Below(v));
  }

  /** The percentiles of an aggregate are those of the kept samples. */
  lemma AggregatePercentiles(samples: seq<Sample>, policy: OutlierPolicy, madThreshold: real, iqrFactor: real)
    ensures var r := AggregateSamples(samples, policy, madThreshold, iqrFactor);
            var kept := Kept(Map(samples, DURATION), policy, madThreshold, iqrFactor);
            r.sampleCount > 0 ==> NearestRank(kept, 95.0, r.p95) && NearestRank(kept, 99.0, r.p99)
  {
    var kept := Kept(Map(samples, DURATION), policy, madThreshold, iqrFactor);
    if kept != [] {
      PercentileExact(kept, 95.0);
      PercentileExact(kept, 99.0);
    }
  }

  /** The extremes of an aggregate are those of the kept samples. */
  lemma AggregateExtremes(samples: seq<Sample>, policy: OutlierPolicy, madThreshold: real, iqrFactor: real)
    ensures var r := AggregateSamples(samples, policy, madThreshold, iqrFactor);
            var kept := Kept(Map(samples, DURATION), policy, madThreshold, iqrFactor);
            r.sampleCount > 0 ==> r.min in kept && r.max in kept && forall v :: v in kept ==> r.min <= v <= r.max
  {
    var kept := Kept(Map(samples, DURATION), policy, madThreshold, iqrFactor);
    if kept != [] {
      SortedExtremes(kept);
    }
  }

  /** The median is the middle sample, or the two middle samples' mean, floored. */
  lemma MedianMiddle(s: seq<int>)
    requires s != []
    ensures var q, n := Sorted(s), |s|; 0 <= q[(n - 1) / 2] + q[n / 2] - 2 * Median(q) <= One(n % 2 == 0)
  {
  }

  lemma KeptMembers(s: seq<int>, policy: OutlierPolicy, madThreshold: real, iqrFactor: real, v: int)
    requires s != []
    ensures policy.Mad? ==> (v in Kept(s, policy, madThreshold, iqrFactor) <==> v in s && MadTest(Sorted(s), madThreshold)(v))
    ensures policy.Iqr? ==> (v in Kept(s, policy, madThreshold, iqrFactor) <==> v in s && IqrTest(Sorted(s), iqrFactor)(v))
  {
    FilterExactly(s, MadTest(Sorted(s), madThreshold), v);
    FilterExactly(s, IqrTest(Sorted(s), iqrFactor), v);
  }

  lemma {:induction false} FilterExactly(s: seq<int>, p: int -> bool, v: int)
    ensures v in Filter(s, p) <==> v in s && p(v)
  {
    if s != [] {
      FilterExactly(s[1..], p, v);
    }
  }

  lemma DeviationsPermute(s: seq<int>, median: int)
    ensures Sorted(Map(Sorted(s), DistanceFrom(median))) == Sorted(Map(s, DistanceFrom(median)))
  {
    SortPermutes(s, INT_LEQ);
    MapPermutation(Sorted(s), s, DistanceFrom(median));
    SortedPermutation(Map(Sorted(s), DistanceFrom(median)), Map(s, DistanceFrom(median)));
  }

  lemma WithinTruncated(distance: nat, limit: real)
    requires limit >= 0.0
    ensures distance <= Truncate(limit) <==> distance as real <= limit
  {
  }

  ghost predicate WithinDeviations(v: int, median: int, threshold: real, mad: int) {
    if mad == 0 then v == median else Abs(v - median) as real <= threshold * mad as real
  }

  lemma MadTestExact(sorted: seq<int>, madThreshold: real, v: int)
    requires sorted != [] && madThreshold >= 0.0
    ensures var median := Median(sorted);
            var mad := MedianDeviation(sorted, median);
            MadTest(sorted, madThreshold)(v) <==> WithinDeviations(v, median, madThreshold, mad)
  {
    var median := Median(sorted);
    var mad := MedianDeviation(sorted, median);
    MedianDeviationNonNegative(sorted, median);
    MulOrder(madThreshold, 0.0, mad as real);
    WithinTruncated(Abs(v - median), madThreshold * mad as real);
  }

  lemma MadOfSamples(s: seq<int>)
    requires s != []
    ensures MedianDeviation(Sorted(s), Median(Sorted(s))) == Median(Sorted(Map(s, DistanceFrom(Median(Sorted(s))))))
  {
    DeviationsPermute(s, Median(Sorted(s)));
  }

  /** The MAD filter keeps the samples no further from the median than so many median deviations; with a zero
      deviation, those on the median. */
  lemma MadExact(s: seq<int>, madThreshold: real, iqrFactor: real, v: int)
    requires s != [] && madThreshold >= 0.0
    ensures var median := Median(Sorted(s));
            var mad := Median(Sorted(Map(s, DistanceFrom(median))));
            v in Kept(s, Mad, madThreshold, iqrFactor) <==> v in s && WithinDeviations(v, median, madThreshold, mad)
  {
    KeptMembers(s, Mad, madThreshold, iqrFactor, v);
    MadOfSamples(s);
    MadTestExact(Sorted(s), madThreshold, v);
  }

  /** Tukey's fence keeps every sample within so many quartile ranges of the quartiles, and drops every sample
      outside by one or more. */
  lemma IqrExact(s: seq<int>, madThreshold: real, iqrFactor: real, v: int)
    requires s != [] && v in s
    ensures var q1, q3 := Percentile(Sorted(s), 25.0), Percentile(Sorted(s), 75.0);
            var lo, hi := q1 as real - iqrFactor * (q3 - q1) as real, q3 as real + iqrFactor * (q3 - q1) as real;
            && NearestRank(s, 25.0, q1) && NearestRank(s, 75.0, q3)
            && (lo <= v as real <= hi ==> v in Kept(s, Iqr, madThreshold, iqrFactor))
            && (v in Kept(s, Iqr, madThreshold, iqrFactor) ==> lo - 1.0 < v as real < hi + 1.0)
  {
    KeptMembers(s, Iqr, madThreshold, iqrFactor, v);
    PercentileExact(s, 25.0);
    PercentileExact(s, 75.0);
    var q1, q3 := Percentile(Sorted(s), 25.0), Percentile(Sorted(s), 75.0);
    FenceTruncated(v, q1 as real - iqrFactor * (q3 - q1) as real, q3 as real + iqrFactor * (q3 - q1) as real);
  }

  lemma FenceTruncated(v: int, lo: real, hi: real)
    ensures lo <= v as real <= hi ==> Truncate(lo) <= v <= Truncate(hi)
    ensures Truncate(lo) <= v <= Truncate(hi) ==> lo - 1.0 < v as real < hi + 1.0
  {
  }

  /** The variation is the deviation over a positive mean. */
  lemma AggregateVariation(samples: seq<Sample>, policy: OutlierPolicy, madThreshold: real, iqrFactor: real)
    requires samples != []
    ensures var r := AggregateSamples(samples, policy, madThreshold, iqrFactor);
            r.stdev >= 0 && IsVariation(r.coefficientOfVariation, r.stdev, r.mean)
  {
    var r := AggregateSamples(samples, policy, madThreshold, iqrFactor);
    if r.sampleCount > 0 {
      VariationExact(r.stdev, r.mean);
    }
  }

  ghost predicate IsVariation(v: real, stdev: nat, mean: int) {
    if mean > 0 then v * mean as real == stdev as real else v == 0.0
  }

  lemma VariationExact(stdev: nat, mean: int)
    ensures IsVariation(Variation(stdev, mean), stdev, mean)
  {
    if mean > 0 {
      DivMul(stdev as real, mean as real);
    }
  }

  /** The allocations are those of all samples, dropped ones included. */
  lemma AggregateAllocations(samples: seq<Sample>, policy: OutlierPolicy, madThreshold: real, iqrFactor: real)
    ensures var r := AggregateSamples(samples, policy, madThreshold, iqrFactor);
            var allocations := Map(samples, ALLOCATION);
            r.sampleCount > 0 ==>
              && r.cumulativeAllocations == Sum(allocations) && r.maxAllocationDelta in allocations
              && forall a :: a in allocations ==> a <= r.maxAllocationDelta
  {
    var allocations := Map(samples, ALLOCATION);
    if allocations != [] {
      LargestIsGreatest(allocations);
    } else {
      assert Map(samples, DURATION) == [];
    }
  }

  lemma SortedExtremes(s: seq<int>)
    requires s != []
    ensures var sorted := Sorted(s); sorted[0] in s && sorted[|sorted| - 1] in s
    ensures var sorted := Sorted(s); forall v :: v in s ==> sorted[0] <= v <= sorted[|sorted| - 1]
  {
    var sorted := Sorted(s);
    SortedAscends(s);
    SortPermutes(s, INT_LEQ);
    InBoth(sorted, s, sorted[0]);
    InBoth(sorted, s, sorted[|sorted| - 1]);
    forall v | v in s ensures sorted[0] <= v <= sorted[|sorted| - 1] {
      InBoth(s, sorted, v);
      var i :| 0 <= i < |sorted| && sorted[i] == v;
    }
  }

  lemma InBoth(s: seq<int>, t: seq<int>, v: int)
    requires multiset(s) == multiset(t) && v in s
    ensures v in t
  {
    assert v in multiset(t);
  }
}
