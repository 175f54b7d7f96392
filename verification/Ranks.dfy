/** The reported percentiles, read off any sorted arrangement of the samples. */
module Ranks {
  import opened Sorting
  import opened Statistics

  /** Between two neighbours the percentile moves in a straight line. */
  function Along(a: real, b: real, part: real): real {
    a + (b - a) * part
  }

  lemma AlongIs(a: real, b: real, w: real)
    ensures a * (1.0 - w) + b * w == Along(a, b, w)
  {
  }

  /** The percentile at a rank that lies `part` of the way behind the `k`-th sample. */
  lemma PercentileAtRank(sorted: seq<real>, p: real, k: nat, part: real)
    requires 0.0 <= p <= 1.0 && |sorted| > 1 && k < |sorted| && 0.0 <= part < 1.0
    requires p * (|sorted| - 1) as real == k as real + part
    ensures part == 0.0 ==> Percentile(sorted, p) == sorted[k]
    ensures part > 0.0 ==> k + 1 < |sorted| && Percentile(sorted, p) == Along(sorted[k], sorted[k + 1], part)
  {
    var rank := Rank(p, |sorted| - 1);
    RankBounds(p, |sorted| - 1);
    assert rank == k as real + part;
    FloorIs(rank, k);
    if part > 0.0 {
      assert (k as real) < (|sorted| - 1) as real;
      assert Ceiling(rank) == k + 1;
      AlongIs(sorted[k], sorted[k + 1], part);
    } else {
      AlongIs(sorted[k], sorted[k], 0.0);
    }
  }

  lemma SortedIs(samples: seq<real>, t: seq<real>)
    requires IsSorted(t) && multiset(t) == multiset(samples)
    ensures t == Sort(samples, RealLe)
  {
    SortReals(samples);
    SortCorrect(samples, RealLe);
    forall i, j | 0 <= i < j < |t| ensures RealLe(t[i], t[j]) {
    }
    OrderedUnique(t, Sort(samples, RealLe), RealLe);
  }

  /** The least and the greatest sample. */
  lemma ReportedExtremes(samples: seq<real>, t: seq<real>)
    requires samples != [] && IsSorted(t) && multiset(t) == multiset(samples)
    ensures t != [] && StatsOf(samples).min == t[0] && StatsOf(samples).max == t[|t| - 1]
  {
    SortedIs(samples, t);
    SortReals(samples);
  }

  lemma P95Of(t: seq<real>)
    requires t != []
    ensures var k, m := 19 * (|t| - 1) / 20, 19 * (|t| - 1) % 20;
            && k < |t|
            && (m == 0 ==> Percentile(t, 0.95) == t[k])
            && (m > 0 ==> k + 1 < |t| && Percentile(t, 0.95) == Along(t[k], t[k + 1], m as real / 20.0))
  {
    if |t| > 1 {
      NinetyFive(|t| - 1);
      var k, m := 19 * (|t| - 1) / 20, 19 * (|t| - 1) % 20;
      PercentileAtRank(t, 0.95, k, m as real / 20.0);
    }
  }

  /** The 95th percentile: nineteen twentieths of the way from the first to the last of the
      sorted samples. */
  lemma ReportedP95(samples: seq<real>, t: seq<real>)
    requires samples != [] && IsSorted(t) && multiset(t) == multiset(samples)
    ensures t != []
    ensures var k, m := 19 * (|t| - 1) / 20, 19 * (|t| - 1) % 20;
            && k < |t|
            && (m == 0 ==> StatsOf(samples).p95 == t[k])
            && (m > 0 ==> k + 1 < |t| && StatsOf(samples).p95 == Along(t[k], t[k + 1], m as real / 20.0))
  {
    SortedIs(samples, t);
    SortReals(samples);
    P95Of(t);
  }

  lemma NinetyFive(n: nat)
    ensures var k, m := 19 * n / 20, 19 * n % 20;
            k <= n && 0.95 * n as real == k as real + m as real / 20.0
  {
    var k, m := 19 * n / 20, 19 * n % 20;
    assert 19 * n == 20 * k + m;
    assert 19.0 * n as real == 20.0 * k as real + m as real;
  }

  /** The median: the middle sample, or the point between the two in the middle. */
  lemma ReportedMedian(samples: seq<real>, t: seq<real>)
    requires samples != [] && IsSorted(t) && multiset(t) == multiset(samples)
    ensures t != []
    ensures |t| % 2 == 1 ==> StatsOf(samples).median == t[|t| / 2]
    ensures |t| % 2 == 0 ==> StatsOf(samples).median == (t[|t| / 2 - 1] + t[|t| / 2]) / 2.0
  {
    SortedIs(samples, t);
    SortReals(samples);
    MediansAgree(t);
  }

  lemma {:induction false} SumParts(f: real -> real, a: seq<real>, b: seq<real>)
    ensures Sum(f, a + b) == Sum(f, a) + Sum(f, b)
  {
    if b == [] {
      assert a + b == a;
    } else {
      var init, last := b[..|b| - 1], b[|b| - 1];
      SumParts(f, a, init);
      assert (a + b)[..|a + b| - 1] == a + init && (a + b)[|a + b| - 1] == last;
    }
  }

  lemma TimesCount(x: real, n: real)
    requires n > 0.0
    ensures Times(x / n, n) == x
  {
  }

  lemma StatsShow(s: seq<real>)
    requires s != []
    ensures StatsOf(s).mean == Mean(s) && StatsOf(s).variance == Variance(s)
  {
  }

  lemma MomentsTimesCount(s: seq<real>)
    requires s != []
    ensures Times(Mean(s), Count(s)) == Sum(Identity, s)
    ensures Times(Variance(s), Count(s)) == Sum(SquaredDistance(Mean(s)), s)
  {
    TimesCount(Sum(Identity, s), Count(s));
    TimesCount(Sum(SquaredDistance(Mean(s)), s), Count(s));
  }

  /** The mean and the variance, times the number of samples, are sums that add up part by
      part: of the samples, and of their squared distances from the mean. */
  lemma ReportedMoments(a: seq<real>, b: seq<real>)
    requires a + b != []
    ensures var stats, n := StatsOf(a + b), |a + b| as real;
            && Times(stats.mean, n) == Sum(Identity, a) + Sum(Identity, b)
            && Times(stats.variance, n) == Sum(SquaredDistance(stats.mean), a) + Sum(SquaredDistance(stats.mean), b)
  {
    var m := Mean(a + b);
    StatsShow(a + b);
    MomentsTimesCount(a + b);
    SumParts(Identity, a, b);
    SumParts(SquaredDistance(m), a, b);
  }
}
