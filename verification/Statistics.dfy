/** What a node reports about one metric over one window, and the sums behind it. */
module Statistics {
  import opened Wrappers
  import opened OrderStatistics

  /** The variance stands where the wire carries its square root. */
  datatype SampleStats = SampleStats(
    min: real,
    max: real,
    mean: real,
    median: real,
    variance: real,
    p95: real,
    sampleCount: nat)

  function Sum(s: seq<real>): real {
    if s == [] then 0.0 else s[0] + Sum(s[1..])
  }

  function SumOfSquares(s: seq<real>): real {
    if s == [] then 0.0 else s[0] * s[0] + SumOfSquares(s[1..])
  }

  function SumBy(f: real -> real, s: seq<real>): real {
    if s == [] then 0.0 else f(s[0]) + SumBy(f, s[1..])
  }

  function SquaredFrom(center: real): real -> real {
    x => (x - center) * (x - center)
  }

  /** The squared distances from `center`, added up. */
  function Spread(s: seq<real>, center: real): real {
    SumBy(SquaredFrom(center), s)
  }

  function Least(s: seq<real>): (r: real)
    requires s != []
    ensures r in s && forall x :: x in s ==> r <= x
  {
    if |s| == 1 then s[0]
    else
      assert s == s[..|s| - 1] + [s[|s| - 1]];
      var rest := Least(s[..|s| - 1]);
      if s[|s| - 1] < rest then s[|s| - 1] else rest
  }

  function Mean(s: seq<real>): real
    requires s != []
  {
    Sum(s) / |s| as real
  }

  /** Sample variance, with the n - 1 denominator; a single sample has none. */
  function Variance(s: seq<real>): real
    requires s != []
  {
    if |s| == 1 then 0.0 else Spread(s, Mean(s)) / (|s| - 1) as real
  }

  /** The index of the 95th percentile: the ceiling of 0.95 n, less one. */
  function Rank95(count: nat): (r: nat)
    requires count > 0
    ensures r < count
  {
    (95 * count + 99) / 100 - 1
  }

  function SummaryOf(s: seq<real>): Option<SampleStats> {
    if s == [] then None
    else Some(SampleStats(
                Least(s), Greatest(s), Mean(s), Middle(Sort(s)), Variance(s), Sort(s)[Rank95(|s|)], |s|))
  }

  function Clamp(x: real, low: real, high: real): real
    requires low <= high
  {
    if x < low then low else if x > high then high else x
  }

  lemma {:induction false} SumSplits(a: seq<real>, b: seq<real>)
    ensures Sum(a + b) == Sum(a) + Sum(b)
  {
    if a == [] {
      assert a + b == b;
    } else {
      assert (a + b)[1..] == a[1..] + b;
      SumSplits(a[1..], b);
    }
  }

  lemma {:induction false} SumBySplits(f: real -> real, a: seq<real>, b: seq<real>)
    ensures SumBy(f, a + b) == SumBy(f, a) + SumBy(f, b)
  {
    if a == [] {
      assert a + b == b;
    } else {
      assert (a + b)[1..] == a[1..] + b;
      SumBySplits(f, a[1..], b);
    }
  }

  lemma {:induction false} SumByIsNonNegative(f: real -> real, s: seq<real>)
    requires forall x :: f(x) >= 0.0
    ensures SumBy(f, s) >= 0.0
  {
    if s != [] {
      SumByIsNonNegative(f, s[1..]);
    }
  }

  lemma SpreadIsNonNegative(s: seq<real>, center: real)
    ensures Spread(s, center) >= 0.0
  {
    forall x ensures SquaredFrom(center)(x) >= 0.0 {
      SquareIsNonNegative(x - center);
    }
    SumByIsNonNegative(SquaredFrom(center), s);
  }

  lemma SquareIsNonNegative(x: real)
    ensures x * x >= 0.0
  {
  }

  lemma {:induction false} SumIsBounded(s: seq<real>, low: real, high: real)
    requires forall i :: 0 <= i < |s| ==> low <= s[i] <= high
    ensures |s| as real * low <= Sum(s) <= |s| as real * high
  {
    if s != [] {
      SumIsBounded(s[1..], low, high);
      assert |s| as real * low == low + (|s| - 1) as real * low;
      assert |s| as real * high == high + (|s| - 1) as real * high;
    }
  }

  lemma PositiveFactor(x: real, n: real)
    requires n > 0.0 && x * n >= 0.0
    ensures x >= 0.0
  {
  }

  lemma QuotientIsBounded(total: real, n: real, low: real, high: real)
    requires n > 0.0 && n * low <= total <= n * high
    ensures low <= total / n <= high
  {
    var q := total / n;
    assert (q - low) * n == total - n * low;
    PositiveFactor(q - low, n);
    assert (high - q) * n == n * high - total;
    PositiveFactor(high - q, n);
  }

  lemma MembersAreBounded(s: seq<real>)
    requires s != []
    ensures forall i :: 0 <= i < |s| ==> Least(s) <= s[i] <= Greatest(s)
  {
    forall i | 0 <= i < |s| ensures Least(s) <= s[i] <= Greatest(s) {
      assert s[i] in s;
    }
  }

  /** The mean needs no clamp: it already lies between the extremes. */
  lemma MeanIsBounded(s: seq<real>)
    requires s != []
    ensures Least(s) <= Mean(s) <= Greatest(s)
  {
    var low, high := Least(s), Greatest(s);
    MembersAreBounded(s);
    SumIsBounded(s, low, high);
    MeanBetween(s, Sum(s), |s| as real, low, high);
  }

  lemma MeanBetween(s: seq<real>, total: real, n: real, low: real, high: real)
    requires s != [] && total == Sum(s) && n == |s| as real && n * low <= total <= n * high
    ensures low <= Mean(s) <= high
  {
    QuotientIsBounded(total, n, low, high);
  }

  lemma RankIsBounded(s: seq<real>, k: nat)
    requires k < |s|
    ensures Least(s) <= Sort(s)[k] <= Greatest(s)
  {
    SameMembers(Sort(s), s, Sort(s)[k]);
  }

  lemma MidpointIsBounded(sorted: seq<real>, low: real, high: real)
    requires sorted != [] && forall k :: 0 <= k < |sorted| ==> low <= sorted[k] <= high
    ensures low <= Middle(sorted) <= high
  {
  }

  lemma MiddleIsBounded(s: seq<real>)
    requires s != []
    ensures Least(s) <= Middle(Sort(s)) <= Greatest(s)
  {
    forall k | 0 <= k < |s| ensures Least(s) <= Sort(s)[k] <= Greatest(s) {
      RankIsBounded(s, k);
    }
    MidpointIsBounded(Sort(s), Least(s), Greatest(s));
  }

  predicate Orderly(stats: SampleStats) {
    && stats.min <= stats.mean <= stats.max
    && stats.min <= stats.median <= stats.max
    && stats.min <= stats.p95 <= stats.max
    && stats.variance >= 0.0
    && stats.sampleCount > 0
  }

  /** Every summary is one the server's checks on its shape accept. */
  lemma SummaryIsOrderly(s: seq<real>)
    requires s != []
    ensures Orderly(SummaryOf(s).value)
    ensures SummaryOf(s).value.min in s && SummaryOf(s).value.max in s
  {
    MeanIsBounded(s);
    MiddleIsBounded(s);
    RankIsBounded(s, Rank95(|s|));
    SpreadIsNonNegative(s, Mean(s));
  }

  // In-place summarising, as the node does it.

  method SortInPlace(values: array<real>)
    modifies values
    ensures values[..] == Sort(old(values[..]))
  {
    for place := 0 to values.Length
      invariant multiset(values[..]) == multiset(old(values[..]))
      invariant SettledBelow(values[..], place)
    {
      ghost var before := values[..];
      var least := LeastFrom(values, place);
      values[place], values[least] := values[least], values[place];
      assert values[..] == before[place := before[least]][least := before[place]];
      SwapKeepsValues(before, place, least);
      SettleOne(before, place, least);
    }
    SortAscends(old(values[..]));
    AscendingIsUnique(values[..], Sort(old(values[..])));
  }

  method Extremes(values: array<real>) returns (min: real, max: real, sum: real)
    requires values.Length > 0
    ensures min == Least(values[..]) && max == Greatest(values[..]) && sum == Sum(values[..])
  {
    min, max, sum := values[0], values[0], values[0];
    for i := 1 to values.Length
      invariant min == Least(values[..i]) && max == Greatest(values[..i]) && sum == Sum(values[..i])
    {
      assert values[..i + 1] == values[..i] + [values[i]];
      assert values[..i + 1][..i] == values[..i];
      SumSplits(values[..i], [values[i]]);
      if values[i] < min {
        min := values[i];
      }
      if max < values[i] {
        max := values[i];
      }
      sum := sum + values[i];
    }
    assert values[..values.Length] == values[..];
  }

  method SpreadAbout(values: array<real>, center: real) returns (spread: real)
    ensures spread == Spread(values[..], center)
  {
    spread := 0.0;
    for i := 0 to values.Length
      invariant spread == Spread(values[..i], center)
    {
      assert values[..i + 1] == values[..i] + [values[i]];
      SumBySplits(SquaredFrom(center), values[..i], [values[i]]);
      spread := spread + (values[i] - center) * (values[i] - center);
    }
    assert values[..values.Length] == values[..];
  }

  /** One metric's samples over a window; leaves them sorted. */
  method Summarize(values: array<real>) returns (r: Option<SampleStats>)
    modifies values
    ensures r == SummaryOf(old(values[..]))
    ensures values[..] == Sort(old(values[..]))
  {
    if values.Length == 0 {
      return None;
    }
    ghost var before := values[..];
    var min, max, sum := Extremes(values);
    var mean := sum / values.Length as real;
    var variance := 0.0;
    if values.Length > 1 {
      var spread := SpreadAbout(values, mean);
      variance := spread / (values.Length - 1) as real;
    }
    SortInPlace(values);
    SummaryIsOrderly(before);
    r := Some(SampleStats(
                min, max,
                Clamp(mean, min, max),
                Clamp(Middle(values[..]), min, max),
                variance,
                Clamp(values[Rank95(values.Length)], min, max),
                values.Length));
  }

  // Order does not matter.

  lemma {:induction false} SumOfInsert(x: real, s: seq<real>)
    ensures Sum(Insert(x, s)) == x + Sum(s)
  {
    if s == [] {
    } else if x <= s[0] {
      assert ([x] + s)[1..] == s;
    } else {
      SumOfInsert(x, s[1..]);
      assert ([s[0]] + Insert(x, s[1..]))[1..] == Insert(x, s[1..]);
    }
  }

  lemma {:induction false} SumOfSort(s: seq<real>)
    ensures Sum(Sort(s)) == Sum(s)
  {
    if s != [] {
      SumOfSort(s[1..]);
      SumOfInsert(s[0], Sort(s[1..]));
    }
  }

  lemma {:induction false} SumByOfInsert(f: real -> real, x: real, s: seq<real>)
    ensures SumBy(f, Insert(x, s)) == f(x) + SumBy(f, s)
  {
    if s == [] {
    } else if x <= s[0] {
      assert ([x] + s)[1..] == s;
    } else {
      SumByOfInsert(f, x, s[1..]);
      assert ([s[0]] + Insert(x, s[1..]))[1..] == Insert(x, s[1..]);
    }
  }

  lemma {:induction false} SumByOfSort(f: real -> real, s: seq<real>)
    ensures SumBy(f, Sort(s)) == SumBy(f, s)
  {
    if s != [] {
      SumByOfSort(f, s[1..]);
      SumByOfInsert(f, s[0], Sort(s[1..]));
    }
  }

  lemma ExtremesIgnoreOrder(a: seq<real>, b: seq<real>)
    requires a != [] && b != [] && multiset(a) == multiset(b)
    ensures Least(a) == Least(b) && Greatest(a) == Greatest(b)
  {
    SameMembers(a, b, Least(a));
    SameMembers(b, a, Least(b));
    SameMembers(a, b, Greatest(a));
    SameMembers(b, a, Greatest(b));
  }

  /** A summary depends on which samples were taken, not on when. */
  lemma SummaryIgnoresOrder(a: seq<real>, b: seq<real>)
    requires multiset(a) == multiset(b)
    ensures SummaryOf(a) == SummaryOf(b)
  {
    SameLength(a, b);
    if a != [] {
      SortIgnoresOrder(a, b);
      ExtremesIgnoreOrder(a, b);
      SumOfSort(a);
      SumOfSort(b);
      SumByOfSort(SquaredFrom(Mean(a)), a);
      SumByOfSort(SquaredFrom(Mean(a)), b);
    }
  }

  // Shifting the center of a spread.

  lemma {:induction false} SpreadExpands(s: seq<real>, center: real)
    ensures Spread(s, center)
         == SumOfSquares(s) - 2.0 * center * Sum(s) + |s| as real * (center * center)
  {
    if s != [] {
      SpreadExpands(s[1..], center);
      var n := |s| as real;
      assert n * (center * center) == (n - 1.0) * (center * center) + center * center;
    }
  }

  lemma SteinerAlgebra(n: real, m: real, c: real, squares: real)
    ensures squares - 2.0 * c * (n * m) + n * (c * c)
         == squares - 2.0 * m * (n * m) + n * (m * m) + n * ((m - c) * (m - c))
  {
    assert (m - c) * (m - c) == m * m - 2.0 * m * c + c * c;
  }

  lemma WindowMass(s: seq<real>)
    requires s != []
    ensures Sum(s) == |s| as real * Mean(s)
  {
  }

  lemma {:induction false} SpreadFromMass(s: seq<real>, m: real, center: real)
    requires Sum(s) == |s| as real * m
    ensures Spread(s, center) == Spread(s, m) + |s| as real * SquaredFrom(center)(m)
  {
    SpreadExpands(s, center);
    SpreadExpands(s, m);
    SteinerAlgebra(|s| as real, m, center, SumOfSquares(s));
  }

  /** Steiner's identity: moving the center off the mean adds n times the squared offset. */
  lemma SpreadAboutAnotherCenter(s: seq<real>, center: real)
    requires s != []
    ensures Spread(s, center) == Spread(s, Mean(s)) + |s| as real * SquaredFrom(center)(Mean(s))
  {
    WindowMass(s);
    SpreadFromMass(s, Mean(s), center);
  }

  // What the numbers of a summary mean.

  lemma RankIsLeastEnough(count: nat)
    requires count > 0
    ensures 100 * (Rank95(count) + 1) >= 95 * count && 100 * Rank95(count) < 95 * count
  {
  }

  lemma AtLeastRank(sorted: seq<real>, k: nat, low: real)
    requires Ascending(sorted) && k < |sorted| && low <= sorted[0]
    ensures CountIn(sorted, low, sorted[k]) >= k + 1
  {
    assert sorted == sorted[..k + 1] + sorted[k + 1..];
    CountSplits(sorted[..k + 1], sorted[k + 1..], low, sorted[k]);
    EveryCounted(sorted[..k + 1], low, sorted[k]);
  }

  lemma {:induction false} EveryCounted(s: seq<real>, low: real, high: real)
    requires forall i :: 0 <= i < |s| ==> low <= s[i] <= high
    ensures CountIn(s, low, high) == |s|
  {
    if s != [] {
      EveryCounted(s[1..], low, high);
    }
  }

  lemma RankCounts(s: seq<real>, k: nat, v: real, low: real)
    requires k < |s| && v == Sort(s)[k] && low == Least(s)
    ensures CountIn(s, low, v) >= k + 1
    ensures forall w :: w < v ==> CountIn(s, low, w) <= k
  {
    SortAscends(s);
    RankIsBounded(s, 0);
    CountOfSort(s, low, v);
    AtLeastRank(Sort(s), k, low);
    forall w | w < v ensures CountIn(s, low, w) <= k {
      CountOfSort(s, low, w);
      FewAtLeast(Sort(s), k, low, w);
    }
  }

  /** The 95th percentile is the least sample that at least 95 in 100 samples do not exceed. */
  lemma PercentileIsLeast(s: seq<real>)
    requires s != []
    ensures var p95 := SummaryOf(s).value.p95;
      && p95 in s
      && 100 * CountIn(s, Least(s), p95) >= 95 * |s|
      && forall w :: w < p95 ==> 100 * CountIn(s, Least(s), w) < 95 * |s|
  {
    var k := Rank95(|s|);
    RankIsLeastEnough(|s|);
    RankCounts(s, k, Sort(s)[k], Least(s));
    SameMembers(Sort(s), s, Sort(s)[k]);
  }

  /** What mean and variance of `n` numbers are, read off their sum and the sum of their squares. */
  ghost predicate HasMoments(mean: real, variance: real, n: real, sum: real, squares: real) {
    && n * mean == sum
    && (n == 1.0 ==> variance == 0.0)
    && (n > 1.0 ==> (n - 1.0) * variance == squares - n * (mean * mean))
  }

  lemma MomentsAreExact(s: seq<real>, stats: SampleStats)
    requires SummaryOf(s) == Some(stats)
    ensures stats.sampleCount == |s|
    ensures HasMoments(stats.mean, stats.variance, |s| as real, Sum(s), SumOfSquares(s))
  {
    SummaryMoments(s, stats.mean, stats.variance, |s| as real, Sum(s), SumOfSquares(s));
  }

  lemma SummaryMoments(s: seq<real>, mean: real, variance: real, n: real, sum: real, squares: real)
    requires s != [] && mean == Mean(s) && variance == Variance(s)
    requires n == |s| as real && sum == Sum(s) && squares == SumOfSquares(s)
    ensures HasMoments(mean, variance, n, sum, squares)
  {
    MeanTimes(s, mean, n);
    if |s| > 1 {
      VarianceTimes(s, mean, variance, n - 1.0);
      SpreadInMoments(s, mean, n);
      var spread := Spread(s, mean);
      VarianceShare(mean, variance, n, sum, squares, spread);
    }
  }

  lemma VarianceShare(mean: real, variance: real, n: real, sum: real, squares: real, spread: real)
    requires n > 1.0 && n * mean == sum && (n - 1.0) * variance == spread && spread == squares - n * (mean * mean)
    ensures HasMoments(mean, variance, n, sum, squares)
  {
  }

  lemma MeanTimes(s: seq<real>, mean: real, n: real)
    requires s != [] && n == |s| as real && mean == Mean(s)
    ensures n * mean == Sum(s)
  {
    QuotientTimes(Sum(s), n, mean);
  }

  lemma VarianceTimes(s: seq<real>, m: real, variance: real, n: real)
    requires |s| > 1 && m == Mean(s) && variance == Variance(s) && n == |s| as real - 1.0
    ensures n * variance == Spread(s, m)
  {
    QuotientTimes(Spread(s, m), n, variance);
  }

  lemma SpreadInMoments(s: seq<real>, m: real, n: real)
    requires s != [] && n == |s| as real && n * m == Sum(s)
    ensures Spread(s, m) == SumOfSquares(s) - n * (m * m)
  {
    SpreadExpands(s, m);
    MomentAlgebra(n, m, Sum(s), SumOfSquares(s), Spread(s, m));
  }

  lemma MomentAlgebra(n: real, m: real, sum: real, squares: real, spread: real)
    requires sum == n * m && spread == squares - 2.0 * m * sum + n * (m * m)
    ensures spread == squares - n * (m * m)
  {
    assert m * (n * m) == n * (m * m);
  }

  lemma QuotientTimes(x: real, n: real, q: real)
    requires n != 0.0 && q == x / n
    ensures n * q == x
  {
  }
}
