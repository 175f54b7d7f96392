/** The sample statistics of the two benchmark programs, over the real numbers. The
    standard deviation is represented by its square, the variance. */
module Statistics {
  import opened Sorting

  predicate RealLe(x: real, y: real) {
    x <= y
  }

  function Identity(x: real): real {
    x
  }

  function SquaredDistance(mean: real): real -> real {
    x => Square(x - mean)
  }

  function Square(x: real): real {
    x * x
  }

  function Times(x: real, y: real): real {
    x * y
  }

  /** The sum of `f` over the samples, in order. */
  function Sum(f: real -> real, s: seq<real>): real {
    if s == [] then 0.0 else Sum(f, s[..|s| - 1]) + f(s[|s| - 1])
  }

  function Count(s: seq<real>): real {
    |s| as real
  }

  function Mean(s: seq<real>): real
    requires s != []
  {
    Sum(Identity, s) / Count(s)
  }

  function Variance(s: seq<real>): real
    requires s != []
  {
    Sum(SquaredDistance(Mean(s)), s) / Count(s)
  }

  predicate IsSorted(s: seq<real>) {
    forall i, j :: 0 <= i < j < |s| ==> s[i] <= s[j]
  }

  // ----- percentiles -----

  function Ceiling(x: real): int {
    if x.Floor as real == x then x.Floor else x.Floor + 1
  }

  lemma FloorBounds(r: real, n: nat)
    requires 0.0 <= r <= n as real
    ensures 0 <= r.Floor <= n && r.Floor <= Ceiling(r) <= n
    ensures r.Floor as real <= r < r.Floor as real + 1.0
  {
  }

  function Rank(p: real, n: nat): real {
    p * n as real
  }

  lemma ProductNonNegative(a: real, b: real)
    requires a >= 0.0 && b >= 0.0
    ensures a * b >= 0.0
  {
  }

  lemma RankBounds(p: real, n: nat)
    requires 0.0 <= p <= 1.0
    ensures 0.0 <= Rank(p, n) <= n as real
  {
    ProductNonNegative(p, n as real);
    ProductNonNegative(1.0 - p, n as real);
    assert (1.0 - p) * n as real == n as real - p * n as real;
  }

  lemma RankMonotone(p: real, q: real, n: nat)
    requires 0.0 <= p <= q
    ensures Rank(p, n) <= Rank(q, n)
  {
  }

  /** The value at a fractional index, between its two neighbours. */
  function Interpolated(sorted: seq<real>, rank: real): real
    requires sorted != [] && 0.0 <= rank <= (|sorted| - 1) as real
  {
    FloorBounds(rank, |sorted| - 1);
    var lower, upper := rank.Floor, Ceiling(rank);
    if lower == upper then sorted[lower]
    else
      var weight := rank - lower as real;
      sorted[lower] * (1.0 - weight) + sorted[upper] * weight
  }

  function Percentile(sorted: seq<real>, p: real): real
    requires 0.0 <= p <= 1.0
  {
    if |sorted| == 0 then 0.0
    else if |sorted| == 1 then sorted[0]
    else
      RankBounds(p, |sorted| - 1);
      Interpolated(sorted, Rank(p, |sorted| - 1))
  }

  lemma Between(a: real, b: real, w: real)
    requires a <= b && 0.0 <= w <= 1.0
    ensures a <= a * (1.0 - w) + b * w <= b
  {
  }

  lemma BetweenMonotone(a: real, b: real, w: real, v: real)
    requires a <= b && 0.0 <= w <= v <= 1.0
    ensures a * (1.0 - w) + b * w <= a * (1.0 - v) + b * v
  {
  }

  lemma InterpolatedBetween(sorted: seq<real>, rank: real)
    requires IsSorted(sorted) && sorted != [] && 0.0 <= rank <= (|sorted| - 1) as real
    ensures 0 <= rank.Floor <= Ceiling(rank) < |sorted|
    ensures sorted[rank.Floor] <= Interpolated(sorted, rank) <= sorted[Ceiling(rank)]
  {
    FloorBounds(rank, |sorted| - 1);
    if rank.Floor != Ceiling(rank) {
      Between(sorted[rank.Floor], sorted[rank.Floor + 1], rank - rank.Floor as real);
    }
  }

  lemma FloorMonotone(q: real, r: real)
    requires q <= r
    ensures q.Floor <= r.Floor
  {
  }

  lemma InterpolatedMonotone(sorted: seq<real>, q: real, r: real)
    requires IsSorted(sorted) && sorted != [] && 0.0 <= q <= r <= (|sorted| - 1) as real
    ensures Interpolated(sorted, q) <= Interpolated(sorted, r)
  {
    FloorBounds(q, |sorted| - 1);
    FloorBounds(r, |sorted| - 1);
    FloorMonotone(q, r);
    InterpolatedBetween(sorted, q);
    InterpolatedBetween(sorted, r);
    if q.Floor == r.Floor && Ceiling(q) != q.Floor {
      var k := q.Floor;
      BetweenMonotone(sorted[k], sorted[k + 1], q - k as real, r - k as real);
    }
  }

  lemma InterpolatedOrdered(sorted: seq<real>, a: real, b: real)
    requires IsSorted(sorted) && sorted != [] && 0.0 <= a <= b <= (|sorted| - 1) as real
    ensures sorted[0] <= Interpolated(sorted, a) <= Interpolated(sorted, b) <= sorted[|sorted| - 1]
  {
    InterpolatedBetween(sorted, a);
    InterpolatedBetween(sorted, b);
    InterpolatedMonotone(sorted, a, b);
  }

  /** Percentiles grow with `p` and stay within the samples. */
  lemma PercentileMonotone(sorted: seq<real>, p: real, q: real)
    requires IsSorted(sorted) && sorted != [] && 0.0 <= p <= q <= 1.0
    ensures sorted[0] <= Percentile(sorted, p) <= Percentile(sorted, q) <= sorted[|sorted| - 1]
  {
    if |sorted| > 1 {
      var n := |sorted| - 1;
      RankBounds(p, n);
      RankBounds(q, n);
      RankMonotone(p, q, n);
      InterpolatedOrdered(sorted, Rank(p, n), Rank(q, n));
    }
  }

  /** The middle element, or the average of the two middle elements. */
  function MiddleOf(sorted: seq<real>): real
    requires sorted != []
  {
    if |sorted| % 2 == 0 then (sorted[|sorted| / 2 - 1] + sorted[|sorted| / 2]) / 2.0
    else sorted[|sorted| / 2]
  }

  lemma FloorIs(r: real, k: int)
    requires k as real <= r < k as real + 1.0
    ensures r.Floor == k
  {
  }

  /** The interpolated median of one program is the even/odd median of the other. */
  lemma MediansAgree(sorted: seq<real>)
    requires sorted != []
    ensures Percentile(sorted, 0.5) == MiddleOf(sorted)
  {
    var n := |sorted|;
    if n > 1 {
      var rank := Rank(0.5, n - 1);
      RankBounds(0.5, n - 1);
      if n % 2 == 0 {
        var k := n / 2 - 1;
        assert n == 2 * k + 2;
        assert rank == k as real + 0.5;
        FloorIs(rank, k);
        assert Ceiling(rank) == k + 1;
      } else {
        var k := n / 2;
        assert n == 2 * k + 1;
        assert rank == k as real;
        FloorIs(rank, k);
      }
    }
  }

  // ----- sums -----

  lemma SumSnoc(f: real -> real, s: seq<real>, i: nat)
    requires i < |s|
    ensures Sum(f, s[..i + 1]) == Sum(f, s[..i]) + f(s[i])
  {
    assert s[..i + 1][..i] == s[..i];
  }

  lemma {:induction false} SumRemove(f: real -> real, s: seq<real>, i: nat)
    requires i < |s|
    ensures Sum(f, s) == Sum(f, s[..i] + s[i + 1..]) + f(s[i])
  {
    var last := |s| - 1;
    var t := s[..i] + s[i + 1..];
    if i == last {
      assert t == s[..last];
    } else {
      SumRemove(f, s[..last], i);
      assert t[..|t| - 1] == s[..last][..i] + s[..last][i + 1..];
      assert t[|t| - 1] == s[last];
    }
  }

  /** A sum does not depend on the order of the samples. */
  lemma {:induction false} SumPermuted(f: real -> real, a: seq<real>, b: seq<real>)
    requires multiset(a) == multiset(b)
    ensures Sum(f, a) == Sum(f, b)
    decreases |a|
  {
    if a == [] {
      assert |b| == |multiset(b)|;
    } else {
      var x := a[|a| - 1];
      assert x in multiset(b);
      var i :| 0 <= i < |b| && b[i] == x;
      var rest := b[..i] + b[i + 1..];
      SumRemove(f, b, i);
      assert a == a[..|a| - 1] + [x];
      assert b == b[..i] + [x] + b[i + 1..];
      assert multiset(a[..|a| - 1]) == multiset(a) - multiset{x};
      assert multiset(rest) == multiset(b) - multiset{x};
      SumPermuted(f, a[..|a| - 1], rest);
    }
  }

  predicate Within(s: seq<real>, lo: real, hi: real) {
    forall i :: 0 <= i < |s| ==> lo <= s[i] <= hi
  }

  lemma CountSnoc(s: seq<real>, a: real)
    requires s != []
    ensures a * Count(s) == a * Count(s[..|s| - 1]) + a
  {
  }

  lemma {:induction false} SumBounds(s: seq<real>, lo: real, hi: real)
    requires Within(s, lo, hi)
    ensures lo * Count(s) <= Sum(Identity, s) <= hi * Count(s)
  {
    if s != [] {
      SumBounds(s[..|s| - 1], lo, hi);
      CountSnoc(s, lo);
      CountSnoc(s, hi);
    }
  }

  /** The sum of squares `q` with the square of each distance to `m` expanded, for `n`
      samples of total `t`. */
  function Expanded(q: real, t: real, n: real, m: real): real {
    q - 2.0 * m * t + n * Square(m)
  }

  lemma ExpandedSnoc(q: real, t: real, n: real, m: real, x: real)
    ensures Expanded(q + Square(x), t + x, n + 1.0, m) == Expanded(q, t, n, m) + Square(x - m)
  {
  }

  lemma ExpandedNone(m: real)
    ensures Expanded(0.0, 0.0, 0.0, m) == 0.0
  {
  }

  /** The sums over `s` in terms of those over all but the last sample. */
  lemma LastSums(s: seq<real>, m: real)
    requires s != []
    ensures var init, x := s[..|s| - 1], s[|s| - 1];
            && Sum(Square, s) == Sum(Square, init) + Square(x)
            && Sum(Identity, s) == Sum(Identity, init) + x
            && Sum(SquaredDistance(m), s) == Sum(SquaredDistance(m), init) + Square(x - m)
            && Count(s) == Count(init) + 1.0
  {
  }

  lemma {:induction false} SumOfDistances(s: seq<real>, m: real)
    ensures Sum(SquaredDistance(m), s) == Expanded(Sum(Square, s), Sum(Identity, s), Count(s), m)
  {
    if s == [] {
      ExpandedNone(m);
    } else {
      var init := s[..|s| - 1];
      SumOfDistances(init, m);
      LastSums(s, m);
      ExpandedSnoc(Sum(Square, init), Sum(Identity, init), Count(init), m, s[|s| - 1]);
    }
  }

  lemma Commute(a: real, b: real)
    ensures a * b == b * a
  {
  }

  lemma QuotientOf(a: real, n: real)
    requires n > 0.0
    ensures a * n / n == a
  {
  }

  lemma MeanSquareAlgebra(q: real, t: real, n: real)
    requires n > 0.0
    ensures Expanded(q, t, n, t / n) / n == q / n - Square(t / n)
  {
  }

  function MeanOfSquares(s: seq<real>): real
    requires s != []
  {
    Sum(Square, s) / Count(s)
  }

  /** The variance is the mean of the squares minus the square of the mean. */
  lemma VarianceIdentity(s: seq<real>)
    requires s != []
    ensures Variance(s) == MeanOfSquares(s) - Square(Mean(s))
  {
    SumOfDistances(s, Mean(s));
    MeanSquareAlgebra(Sum(Square, s), Sum(Identity, s), Count(s));
  }

  /** The sum of (hi - x)(x - lo) over `n` samples of total `t` and of squares `q`. */
  function SlackOf(q: real, t: real, n: real, lo: real, hi: real): real {
    (lo + hi) * t - n * (lo * hi) - q
  }

  lemma SlackSnoc(q: real, t: real, n: real, lo: real, hi: real, x: real)
    requires lo <= x <= hi
    ensures SlackOf(q + Square(x), t + x, n + 1.0, lo, hi) >= SlackOf(q, t, n, lo, hi)
  {
  }

  lemma SlackNone(lo: real, hi: real)
    ensures SlackOf(0.0, 0.0, 0.0, lo, hi) == 0.0
  {
  }

  lemma {:induction false} SumOfSlack(s: seq<real>, lo: real, hi: real)
    requires Within(s, lo, hi)
    ensures SlackOf(Sum(Square, s), Sum(Identity, s), Count(s), lo, hi) >= 0.0
  {
    if s == [] {
      SlackNone(lo, hi);
    } else {
      var init := s[..|s| - 1];
      SumOfSlack(init, lo, hi);
      LastSums(s, 0.0);
      SlackSnoc(Sum(Square, init), Sum(Identity, init), Count(init), lo, hi, s[|s| - 1]);
    }
  }

  function QuarterRangeSquare(lo: real, hi: real): real {
    Square(hi - lo) / 4.0
  }

  lemma QuarterSquare(m: real, lo: real, hi: real)
    ensures (lo + hi) * m - lo * hi - Square(m) <= QuarterRangeSquare(lo, hi)
  {
    var d := m - (lo + hi) / 2.0;
    SquareNonNegative(d);
    assert Square(d) == Square(m) - (lo + hi) * m + Square(lo + hi) / 4.0;
    assert Square(lo + hi) - 4.0 * (lo * hi) == Square(hi - lo);
  }

  lemma SlackPerSample(q: real, t: real, n: real, lo: real, hi: real)
    requires n > 0.0 && SlackOf(q, t, n, lo, hi) >= 0.0
    ensures q / n - Square(t / n) <= QuarterRangeSquare(lo, hi)
  {
    var m, c, p := t / n, lo + hi, lo * hi;
    assert q / n <= c * m - p by {
      assert m * n == t;
      assert c * t == c * m * n;
      assert (c * m - p) * n == c * m * n - p * n;
      Commute(n, p);
      DivideBound(q, c * m - p, n);
    }
    QuarterSquare(m, lo, hi);
  }

  /** The variance of samples between `lo` and `hi` is at most (hi - lo)^2 / 4. */
  lemma VarianceBound(s: seq<real>, lo: real, hi: real)
    requires s != [] && Within(s, lo, hi)
    ensures Variance(s) <= QuarterRangeSquare(lo, hi)
  {
    VarianceIdentity(s);
    SumOfSlack(s, lo, hi);
    SlackPerSample(Sum(Square, s), Sum(Identity, s), Count(s), lo, hi);
  }

  lemma DivideBound(a: real, b: real, n: real)
    requires n > 0.0 && a <= b * n
    ensures a / n <= b
  {
  }

  predicate AllAre(s: seq<real>, c: real) {
    forall i :: 0 <= i < |s| ==> s[i] == c
  }

  lemma {:induction false} DistancesNonNegative(s: seq<real>, m: real)
    ensures Sum(SquaredDistance(m), s) >= 0.0
    ensures Sum(SquaredDistance(m), s) == 0.0 <==> AllAre(s, m)
  {
    if s != [] {
      var init, x := s[..|s| - 1], s[|s| - 1];
      DistancesNonNegative(init, m);
      LastSums(s, m);
      SquareNonNegative(x - m);
      assert AllAre(s, m) <==> AllAre(init, m) && x == m by {
        assert forall i :: 0 <= i < |init| ==> init[i] == s[i];
      }
    }
  }

  lemma PositiveTimes(a: real, b: real)
    requires (a > 0.0 && b > 0.0) || (a < 0.0 && b < 0.0)
    ensures Times(a, b) > 0.0
  {
  }

  lemma SquareIsTimes(d: real)
    ensures Square(d) == Times(d, d)
  {
  }

  lemma SquareNonNegative(d: real)
    ensures Square(d) >= 0.0 && (Square(d) == 0.0 <==> d == 0.0)
  {
    SquareIsTimes(d);
    if d == 0.0 {
      assert Square(0.0) == 0.0;
    } else {
      PositiveTimes(d, d);
    }
  }

  /** The variance is never negative, and zero exactly when all samples are equal. */
  lemma VarianceZero(s: seq<real>)
    requires s != []
    ensures Variance(s) >= 0.0
    ensures Variance(s) == 0.0 <==> AllAre(s, s[0])
  {
    var m, n := Mean(s), Count(s);
    DistancesNonNegative(s, m);
    QuotientSign(Sum(SquaredDistance(m), s), n);
    if AllAre(s, s[0]) {
      SumBounds(s, s[0], s[0]);
      QuotientOf(s[0], n);
    }
  }

  lemma QuotientSign(a: real, n: real)
    requires n > 0.0 && a >= 0.0
    ensures a / n >= 0.0 && (a / n == 0.0 <==> a == 0.0)
  {
  }

  // ----- the two programs -----

  datatype Stats = Stats(min: real, max: real, median: real, p95: real, mean: real, variance: real)

  const ZERO_STATS := Stats(0.0, 0.0, 0.0, 0.0, 0.0, 0.0)

  function StatsOf(samples: seq<real>): Stats
    requires samples != []
  {
    var sorted := Sort(samples, RealLe);
    SortReals(samples);
    Stats(sorted[0], sorted[|sorted| - 1], Percentile(sorted, 0.5), Percentile(sorted, 0.95),
          Mean(samples), Variance(samples))
  }

  lemma SortReals(s: seq<real>)
    ensures var t := Sort(s, RealLe);
            |t| == |s| && IsSorted(t) && multiset(t) == multiset(s) && (s != [] ==> t != [])
  {
    SortCorrect(s, RealLe);
    var t := Sort(s, RealLe);
    forall i, j | 0 <= i < j < |t| ensures t[i] <= t[j] {
      assert RealLe(t[i], t[j]);
    }
  }

  method Analyze(samples: seq<real>, allocationSucceeds: bool) returns (stats: Stats)
    ensures samples == [] || !allocationSucceeds ==> stats == ZERO_STATS
    ensures samples != [] && allocationSucceeds ==> stats == StatsOf(samples)
  {
    stats := ZERO_STATS;
    if |samples| == 0 {
      return;
    }
    if !allocationSucceeds {
      return;
    }
    var sorted := Sort(samples, RealLe);
    SortReals(samples);
    stats := stats.(min := sorted[0], max := sorted[|sorted| - 1]);
    stats := stats.(median := Percentile(sorted, 0.5), p95 := Percentile(sorted, 0.95));
    var sum := AddUp(samples);
    stats := stats.(mean := sum / |samples| as real);
    var variance := AddUpDistances(samples, stats.mean);
    stats := stats.(variance := variance / |samples| as real);
  }

  method AddUp(samples: seq<real>) returns (sum: real)
    ensures sum == Sum(Identity, samples)
  {
    sum := 0.0;
    var i := 0;
    while i < |samples|
      invariant i <= |samples|
      invariant sum == Sum(Identity, samples[..i])
    {
      SumSnoc(Identity, samples, i);
      sum := sum + samples[i];
      i := i + 1;
    }
    assert samples[..i] == samples;
  }

  method AddUpDistances(samples: seq<real>, mean: real) returns (sum: real)
    ensures sum == Sum(SquaredDistance(mean), samples)
  {
    sum := 0.0;
    var i := 0;
    while i < |samples|
      invariant i <= |samples|
      invariant sum == Sum(SquaredDistance(mean), samples[..i])
    {
      SumSnoc(SquaredDistance(mean), samples, i);
      var diff := samples[i] - mean;
      assert Square(diff) == diff * diff;
      sum := sum + diff * diff;
      i := i + 1;
    }
    assert samples[..i] == samples;
  }

  /** The context of the end-to-end benchmark; it has at least one sample. */
  class BenchContext {
    const samplesUs: seq<real>
    var meanUs: real
    var minUs: real
    var maxUs: real
    var medianUs: real
    var varianceUs: real

    constructor (samples: seq<real>)
      ensures samplesUs == samples
    {
      samplesUs := samples;
      meanUs, minUs, maxUs, medianUs, varianceUs := 0.0, 0.0, 0.0, 0.0, 0.0;
    }

    /** The first loop: the sum and the extremes. */
    method Accumulate() returns (sum: real, min: real, max: real)
      requires samplesUs != []
      ensures sum == Sum(Identity, samplesUs)
      ensures min in samplesUs && max in samplesUs && Within(samplesUs, min, max)
    {
      sum, min, max := 0.0, samplesUs[0], samplesUs[0];
      var i := 0;
      while i < |samplesUs|
        invariant i <= |samplesUs|
        invariant sum == Sum(Identity, samplesUs[..i])
        invariant min in samplesUs && max in samplesUs
        invariant Within(samplesUs[..i], min, max)
      {
        var sample := samplesUs[i];
        SumSnoc(Identity, samplesUs, i);
        sum := sum + sample;
        if sample < min {
          min := sample;
        }
        if sample > max {
          max := sample;
        }
        i := i + 1;
      }
      assert samplesUs[..i] == samplesUs;
    }

    /** Computes the same figures as `Analyze`; without memory for the sorted copy the
        median falls back to the mean. */
    method CalculateStatistics(allocationSucceeds: bool)
      requires samplesUs != []
      modifies this
      ensures var stats := StatsOf(samplesUs);
              && meanUs == stats.mean && minUs == stats.min && maxUs == stats.max
              && varianceUs == stats.variance
              && medianUs == if allocationSucceeds then stats.median else stats.mean
    {
      var sum, min, max := Accumulate();
      meanUs := sum / |samplesUs| as real;
      minUs := min;
      maxUs := max;
      Extremes(samplesUs, min, max);
      if allocationSucceeds {
        var sorted := Sort(samplesUs, RealLe);
        SortReals(samplesUs);
        MediansAgree(sorted);
        if |samplesUs| % 2 == 0 {
          medianUs := (sorted[|samplesUs| / 2 - 1] + sorted[|samplesUs| / 2]) / 2.0;
        } else {
          medianUs := sorted[|samplesUs| / 2];
        }
      } else {
        medianUs := meanUs;
      }
      var varianceSum := AddUpDistances(samplesUs, meanUs);
      varianceUs := varianceSum / |samplesUs| as real;
    }
  }

  /** The least and the greatest sample are the ends of the sorted copy. */
  lemma Extremes(s: seq<real>, min: real, max: real)
    requires min in s && max in s && Within(s, min, max)
    ensures StatsOf(s).min == min && StatsOf(s).max == max
  {
    ExtremesOf(s);
  }

  lemma EndsOf(t: seq<real>, x: real)
    requires IsSorted(t) && x in t
    ensures t[0] <= x <= t[|t| - 1]
  {
  }

  // ----- the figures -----

  lemma ExtremesOf(s: seq<real>)
    requires s != []
    ensures var stats := StatsOf(s);
            stats.min in s && stats.max in s && Within(s, stats.min, stats.max)
  {
    var t := Sort(s, RealLe);
    SortReals(s);
    SameElements(s, t);
    assert t[0] in s && t[|t| - 1] in s;
    forall k | 0 <= k < |s| ensures t[0] <= s[k] <= t[|t| - 1] {
      EndsOf(t, s[k]);
    }
  }

  /** The figures are ordered and stay within the samples. */
  lemma StatsOrdered(s: seq<real>)
    requires s != []
    ensures var stats := StatsOf(s);
            && stats.min in s && stats.max in s && Within(s, stats.min, stats.max)
            && stats.min <= stats.median <= stats.p95 <= stats.max
            && stats.min <= stats.mean <= stats.max
  {
    ExtremesOf(s);
    SortReals(s);
    PercentileMonotone(Sort(s, RealLe), 0.5, 0.95);
    MeanBounds(s, StatsOf(s).min, StatsOf(s).max);
  }

  /** The variance is exact, bounded, and zero only for equal samples. */
  lemma VarianceMeaning(s: seq<real>)
    requires s != []
    ensures var stats := StatsOf(s);
            && stats.variance == MeanOfSquares(s) - Square(stats.mean)
            && 0.0 <= stats.variance <= QuarterRangeSquare(stats.min, stats.max)
            && (stats.variance == 0.0 <==> stats.min == stats.max)
            && (stats.variance == 0.0 <==> AllAre(s, s[0]))
  {
    ExtremesOf(s);
    VarianceIdentity(s);
    VarianceBound(s, StatsOf(s).min, StatsOf(s).max);
    VarianceZero(s);
    AllEqual(s, StatsOf(s).min, StatsOf(s).max);
  }

  lemma AllEqual(s: seq<real>, min: real, max: real)
    requires min in s && max in s && Within(s, min, max)
    ensures min == max <==> AllAre(s, s[0])
  {
  }

  lemma MeanBounds(s: seq<real>, lo: real, hi: real)
    requires s != [] && Within(s, lo, hi)
    ensures lo <= Mean(s) <= hi
  {
    SumBounds(s, lo, hi);
    DivideBound(Sum(Identity, s), hi, Count(s));
    DivideLowerBound(Sum(Identity, s), lo, Count(s));
  }

  lemma DivideLowerBound(a: real, b: real, n: real)
    requires n > 0.0 && b * n <= a
    ensures b <= a / n
  {
  }

  /** The figures depend only on which samples there are, not on their order. */
  lemma StatsPermuted(a: seq<real>, b: seq<real>)
    requires a != [] && multiset(a) == multiset(b)
    ensures b != [] && StatsOf(a) == StatsOf(b)
  {
    assert a[0] in multiset(b);
    var x, y := Sort(a, RealLe), Sort(b, RealLe);
    SortCorrect(a, RealLe);
    SortCorrect(b, RealLe);
    OrderedUnique(x, y, RealLe);
    assert |a| == |multiset(a)| == |multiset(b)| == |b|;
    SumPermuted(Identity, a, b);
    SumPermuted(SquaredDistance(Mean(a)), a, b);
  }
}
