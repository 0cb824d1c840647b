/** Pooling stored windows into one bucket, and why nothing is lost against the raw samples. */
module Pooling {
  import opened Wrappers
  import opened Integers
  import opened OrderStatistics
  import opened Statistics

  /** The columns of one stored window that a rollup reads. */
  datatype Window = Window(min: real, max: real, mean: real, median: real, variance: real, count: int)

  datatype Pooled = Pooled(min: real, max: real, mean: real, median: real, variance: real, count: int)

  const U32_LIMIT: int := 0x1_0000_0000

  /** The largest finite double: 2^1024 - 2^971. */
  const F64_MAX: real := 0xFFFF_FFFF_FFFF_F800_0000_0000_0000_0000_0000_0000_0000_0000_0000_0000_0000_0000_0000_0000_0000_0000_0000_0000_0000_0000_0000_0000_0000_0000_0000_0000_0000_0000_0000_0000_0000_0000_0000_0000_0000_0000_0000_0000_0000_0000_0000_0000_0000_0000_0000_0000_0000_0000_0000_0000_0000_0000_0000_0000_0000_0000_0000_0000_0000_0000 as real

  /** A count as a weight; one that does not fit 32 bits becomes the largest double. */
  function Weight(count: int): (w: real)
    ensures 0 <= count < U32_LIMIT ==> w == count as real
    ensures count > 0 ==> w >= 1.0
  {
    if count < 0 then 0.0 else if count < U32_LIMIT then count as real else F64_MAX
  }

  function SaturatingAdd(a: int, b: int): int {
    if a + b > I64_MAX then I64_MAX else a + b
  }

  /** The running state of one series; the extremes are infinite until a window arrives. */
  datatype Pool = Pool(
    low: Option<real>,
    high: Option<real>,
    weightedSum: real,
    within: real,
    means: seq<(real, int)>,
    medians: seq<real>,
    samples: int)

  const EMPTY := Pool(None, None, 0.0, 0.0, [], [], 0)

  function Lower(a: Option<real>, b: real): Option<real> {
    if a.Some? && a.value <= b then a else Some(b)
  }

  function Higher(a: Option<real>, b: real): Option<real> {
    if a.Some? && b <= a.value then a else Some(b)
  }

  function Absorb(p: Pool, w: Window): Pool {
    if w.count <= 0 then p
    else
      var weight := Weight(w.count);
      Pool(
        Lower(p.low, w.min),
        Higher(p.high, w.max),
        w.mean * weight + p.weightedSum,
        (if weight > 1.0 then (weight - 1.0) * w.variance else 0.0) + p.within,
        p.means + [(w.mean, w.count)],
        p.medians + [w.median],
        SaturatingAdd(p.samples, w.count))
  }

  function AbsorbAll(ws: seq<Window>): Pool {
    if ws == [] then EMPTY else Absorb(AbsorbAll(ws[..|ws| - 1]), ws[|ws| - 1])
  }

  /** How far the window means sit from a center, each weighted by its count. */
  function Between(means: seq<(real, int)>, squared: real -> real): real {
    if means == [] then 0.0
    else
      var last := means[|means| - 1];
      Between(means[..|means| - 1], squared) + Weight(last.1) * squared(last.0)
  }

  /** Rust's `clamp`, which panics when the bounds are crossed. */
  function Held(x: real, low: real, high: real): Option<real> {
    if low > high then None else Some(Clamp(x, low, high))
  }

  /** The variance left after pooling, which the source floors at zero before its root. */
  function PooledVariance(p: Pool, mean: real, between: real): real
    requires p.samples > 0
  {
    var total := Weight(p.samples);
    var denominator := if total - 1.0 > 1.0 then total - 1.0 else 1.0;
    var variance := (p.within + between) / denominator;
    if variance > 0.0 then variance else 0.0
  }

  predicate Reportable(p: Pool) {
    p.samples > 0 && p.medians != [] && p.low.Some? && p.high.Some?
  }

  function Finish(p: Pool): Option<Pooled> {
    if !Reportable(p) then None
    else
      var mean := p.weightedSum / Weight(p.samples);
      var heldMean := Held(mean, p.low.value, p.high.value);
      var heldMedian := Held(Middle(Sort(p.medians)), p.low.value, p.high.value);
      if heldMean.None? || heldMedian.None? then None
      else Some(Pooled(
                  p.low.value, p.high.value, heldMean.value, heldMedian.value,
                  PooledVariance(p, mean, Between(p.means, SquaredFrom(mean))), p.samples))
  }

  /** One series' group while a bucket is being folded. */
  class Group {
    var low: Option<real>
    var high: Option<real>
    var weightedSum: real
    var within: real
    var means: seq<(real, int)>
    var medians: seq<real>
    var samples: int

    function State(): Pool
      reads this
    {
      Pool(low, high, weightedSum, within, means, medians, samples)
    }

    constructor ()
      ensures State() == EMPTY
    {
      low, high, weightedSum, within, means, medians, samples := None, None, 0.0, 0.0, [], [], 0;
    }

    method Push(w: Window)
      modifies this
      ensures State() == Absorb(old(State()), w)
    {
      if w.count <= 0 {
        return;
      }
      var weight := Weight(w.count);
      low := Lower(low, w.min);
      high := Higher(high, w.max);
      weightedSum := w.mean * weight + weightedSum;
      within := (if weight > 1.0 then (weight - 1.0) * w.variance else 0.0) + within;
      means := means + [(w.mean, w.count)];
      medians := medians + [w.median];
      samples := SaturatingAdd(samples, w.count);
    }

    method SumBetween(mean: real) returns (between: real)
      ensures between == Between(means, SquaredFrom(mean))
    {
      between := 0.0;
      for i := 0 to |means|
        invariant between == Between(means[..i], SquaredFrom(mean))
      {
        assert means[..i + 1][..i] == means[..i];
        var difference := means[i].0 - mean;
        between := between + Weight(means[i].1) * (difference * difference);
      }
      assert means[..|means|] == means;
    }

    method MedianOfMedians() returns (median: real)
      requires medians != []
      ensures median == Middle(Sort(medians))
    {
      var scratch := new real[|medians|](i requires 0 <= i < |medians| reads this => medians[i]);
      assert scratch[..] == medians;
      var r := Median(scratch);
      median := r.value;
    }

    method Finished() returns (r: Option<Pooled>)
      ensures r == Finish(State())
    {
      if samples <= 0 || medians == [] || low.None? || high.None? {
        return None;
      }
      var mean := weightedSum / Weight(samples);
      var between := SumBetween(mean);
      var median := MedianOfMedians();
      var heldMean := Held(mean, low.value, high.value);
      var heldMedian := Held(median, low.value, high.value);
      if heldMean.None? || heldMedian.None? {
        return None;
      }
      r := Some(Pooled(
                  low.value, high.value, heldMean.value, heldMedian.value,
                  PooledVariance(State(), mean, between), samples));
    }
  }

  // Windows of raw samples, summarised on the node and pooled on the server.

  function Concat(windows: seq<seq<real>>): seq<real> {
    if windows == [] then [] else Concat(windows[..|windows| - 1]) + windows[|windows| - 1]
  }

  ghost predicate AllFilled(windows: seq<seq<real>>) {
    forall i :: 0 <= i < |windows| ==> windows[i] != []
  }

  /** Every window's own count fits 32 bits, so that it is its own weight. */
  ghost predicate EachFits(windows: seq<seq<real>>) {
    forall i :: 0 <= i < |windows| ==> |windows[i]| < U32_LIMIT
  }

  lemma {:induction false} PartsAreShorter(windows: seq<seq<real>>, i: nat)
    requires i < |windows|
    ensures |windows[i]| <= |Concat(windows)|
  {
    if i < |windows| - 1 {
      PartsAreShorter(windows[..|windows| - 1], i);
    }
  }

  lemma SmallTotalFits(windows: seq<seq<real>>)
    requires |Concat(windows)| < U32_LIMIT
    ensures EachFits(windows)
  {
    forall i | 0 <= i < |windows| ensures |windows[i]| < U32_LIMIT {
      PartsAreShorter(windows, i);
    }
  }

  function Reported(samples: seq<real>): Window
    requires samples != []
  {
    var s := SummaryOf(samples).value;
    Window(s.min, s.max, s.mean, s.median, s.variance, s.sampleCount)
  }

  function ReportedAll(windows: seq<seq<real>>): (ws: seq<Window>)
    requires AllFilled(windows)
    ensures |ws| == |windows|
  {
    if windows == [] then []
    else ReportedAll(windows[..|windows| - 1]) + [Reported(windows[|windows| - 1])]
  }

  /** Spread inside the windows, before any of it is divided. */
  function WithinAll(windows: seq<seq<real>>): real
    requires AllFilled(windows)
  {
    if windows == [] then 0.0
    else
      var last := windows[|windows| - 1];
      WithinAll(windows[..|windows| - 1]) + Spread(last, Mean(last))
  }

  function MeansOf(windows: seq<seq<real>>): seq<(real, int)>
    requires AllFilled(windows)
  {
    if windows == [] then []
    else
      var last := windows[|windows| - 1];
      MeansOf(windows[..|windows| - 1]) + [(Mean(last), |last|)]
  }

  /** What the group holds once it has taken every window. */
  ghost predicate Holds(p: Pool, windows: seq<seq<real>>)
    requires AllFilled(windows)
  {
    var all := Concat(windows);
    && p.samples == |all|
    && p.weightedSum == Sum(all)
    && p.within == WithinAll(windows)
    && p.means == MeansOf(windows)
    && |p.medians| == |windows|
    && (all != [] ==> p.low == Some(Least(all)) && p.high == Some(Greatest(all)))
    && (all == [] ==> p.low == None && p.high == None)
  }

  lemma SpreadOfOne(x: real)
    ensures Mean([x]) == x && Spread([x], x) == 0.0
  {
    var rest := [x][1..];
    assert rest == [] && Sum(rest) == 0.0 && SumBy(SquaredFrom(x), rest) == 0.0;
    assert Sum([x]) == x;
    assert Mean([x]) == x / 1.0;
  }

  lemma WindowSpread(w: seq<real>)
    requires w != []
    ensures (if |w| > 1 then (|w| as real - 1.0) * Variance(w) else 0.0) == Spread(w, Mean(w))
  {
    if |w| == 1 {
      assert w == [w[0]];
      SpreadOfOne(w[0]);
    } else {
      var n, x := (|w| - 1) as real, Spread(w, Mean(w));
      assert n * (x / n) == x;
    }
  }

  lemma LeastSplits(a: seq<real>, b: seq<real>)
    requires a != [] && b != []
    ensures Least(a + b) == if Least(a) <= Least(b) then Least(a) else Least(b)
    ensures Greatest(a + b) == if Greatest(b) <= Greatest(a) then Greatest(a) else Greatest(b)
  {
    assert forall x :: x in a + b <==> x in a || x in b;
  }

  lemma Unsnoc(front: seq<seq<real>>, last: seq<real>)
    requires AllFilled(front) && last != []
    ensures AllFilled(front + [last])
    ensures Concat(front + [last]) == Concat(front) + last
    ensures ReportedAll(front + [last]) == ReportedAll(front) + [Reported(last)]
    ensures WithinAll(front + [last]) == WithinAll(front) + Spread(last, Mean(last))
    ensures MeansOf(front + [last]) == MeansOf(front) + [(Mean(last), |last|)]
  {
    assert (front + [last])[..|front|] == front;
  }

  lemma AbsorbUnsnoc(ws: seq<Window>, w: Window)
    ensures AbsorbAll(ws + [w]) == Absorb(AbsorbAll(ws), w)
  {
    assert (ws + [w])[..|ws|] == ws;
  }

  lemma ExtremesGrow(a: seq<real>, b: seq<real>)
    requires b != []
    ensures a == [] ==> a + b == b
    ensures a != [] ==> Lower(Some(Least(a)), Least(b)) == Some(Least(a + b))
    ensures a != [] ==> Higher(Some(Greatest(a)), Greatest(b)) == Some(Greatest(a + b))
  {
    if a != [] {
      LeastSplits(a, b);
    }
  }

  lemma AbsorbFields(p: Pool, w: Window)
    requires 0 < w.count < U32_LIMIT
    ensures Absorb(p, w).weightedSum == w.mean * w.count as real + p.weightedSum
    ensures Absorb(p, w).within == (if w.count > 1 then (w.count as real - 1.0) * w.variance else 0.0) + p.within
  {
  }

  lemma AbsorbSums(p: Pool, w: Window, last: seq<real>)
    requires last != [] && |last| < U32_LIMIT
    requires w.count == |last| && w.mean == Mean(last) && w.variance == Variance(last)
    ensures Absorb(p, w).weightedSum == p.weightedSum + Sum(last)
    ensures Absorb(p, w).within == p.within + Spread(last, Mean(last))
  {
    WindowMass(last);
    WindowSpread(last);
    AbsorbFields(p, w);
  }

  lemma AbsorbRest(p: Pool, last: seq<real>)
    requires last != [] && 0 <= p.samples && p.samples + |last| <= I64_MAX
    ensures var q := Absorb(p, Reported(last));
            && q.samples == p.samples + |last|
            && q.means == p.means + [(Mean(last), |last|)]
            && |q.medians| == |p.medians| + 1
            && q.low == Lower(p.low, Least(last))
            && q.high == Higher(p.high, Greatest(last))
  {
  }

  lemma AbsorbKeepsHolding(p: Pool, front: seq<seq<real>>, last: seq<real>)
    requires AllFilled(front) && last != [] && AllFilled(front + [last])
    requires |Concat(front)| + |last| <= I64_MAX && |last| < U32_LIMIT && Holds(p, front)
    ensures Holds(Absorb(p, Reported(last)), front + [last])
  {
    Unsnoc(front, last);
    SumSplits(Concat(front), last);
    AbsorbSums(p, Reported(last), last);
    AbsorbRest(p, last);
    var q := Absorb(p, Reported(last));
    ExtremesGrow(Concat(front), last);
  }

  lemma {:induction false} AbsorbedWindowsHold(windows: seq<seq<real>>)
    requires AllFilled(windows) && EachFits(windows) && |Concat(windows)| <= I64_MAX
    ensures Holds(AbsorbAll(ReportedAll(windows)), windows)
  {
    if windows != [] {
      var front, last := windows[..|windows| - 1], windows[|windows| - 1];
      assert windows == front + [last];
      assert |windows[|windows| - 1]| < U32_LIMIT;
      AbsorbedWindowsHold(front);
      Unsnoc(front, last);
      AbsorbUnsnoc(ReportedAll(front), Reported(last));
      AbsorbKeepsHolding(AbsorbAll(ReportedAll(front)), front, last);
    }
  }

  /** Moving the center from `m`, where the spread is `spread`, to the center of `f`. */
  ghost predicate Shifts(f: real -> real, s: seq<real>, m: real, spread: real) {
    SumBy(f, s) == spread + |s| as real * f(m)
  }

  ghost predicate AllShift(f: real -> real, windows: seq<seq<real>>)
    requires AllFilled(windows)
  {
    forall i :: 0 <= i < |windows| ==> Shifts(f, windows[i], Mean(windows[i]), Spread(windows[i], Mean(windows[i])))
  }

  lemma BetweenGrows(means: seq<(real, int)>, m: real, count: int, f: real -> real)
    requires 0 <= count < U32_LIMIT
    ensures Between(means + [(m, count)], f) == Between(means, f) + count as real * f(m)
  {
    assert (means + [(m, count)])[..|means|] == means;
    assert Weight(count) == count as real;
  }

  lemma DecomposeStep(f: real -> real, front: seq<real>, last: seq<real>, means: seq<(real, int)>, m: real,
                      inside: real, spread: real)
    requires |last| < U32_LIMIT && Shifts(f, last, m, spread)
    requires SumBy(f, front) == inside + Between(means, f)
    ensures SumBy(f, front + last) == inside + spread + Between(means + [(m, |last|)], f)
  {
    SumBySplits(f, front, last);
    BetweenGrows(means, m, |last|, f);
  }

  lemma {:induction false} SpreadDecomposesBy(windows: seq<seq<real>>, f: real -> real)
    requires AllFilled(windows) && |Concat(windows)| < U32_LIMIT && AllShift(f, windows)
    ensures SumBy(f, Concat(windows)) == WithinAll(windows) + Between(MeansOf(windows), f)
  {
    if windows != [] {
      var front, last := windows[..|windows| - 1], windows[|windows| - 1];
      var m := Mean(last);
      var spread := Spread(last, m);
      assert Shifts(f, last, m, spread);
      assert windows == front + [last];
      Unsnoc(front, last);
      SpreadDecomposesBy(front, f);
      DecomposeStep(f, Concat(front), last, MeansOf(front), m, WithinAll(front), spread);
    }
  }

  lemma ShiftsAbout(s: seq<real>, center: real)
    requires s != []
    ensures Shifts(SquaredFrom(center), s, Mean(s), Spread(s, Mean(s)))
  {
    SpreadAboutAnotherCenter(s, center);
  }

  lemma AllShiftAbout(windows: seq<seq<real>>, center: real)
    requires AllFilled(windows)
    ensures AllShift(SquaredFrom(center), windows)
  {
    forall i | 0 <= i < |windows|
      ensures Shifts(SquaredFrom(center), windows[i], Mean(windows[i]), Spread(windows[i], Mean(windows[i])))
    {
      ShiftsAbout(windows[i], center);
    }
  }

  /** Total spread is spread within windows plus spread between their means. */
  lemma SpreadDecomposes(windows: seq<seq<real>>, center: real)
    requires AllFilled(windows) && |Concat(windows)| < U32_LIMIT
    ensures Spread(Concat(windows), center) == WithinAll(windows) + Between(MeansOf(windows), SquaredFrom(center))
  {
    AllShiftAbout(windows, center);
    SpreadDecomposesBy(windows, SquaredFrom(center));
  }

  ghost predicate AllWithin(s: seq<real>, low: real, high: real) {
    forall i :: 0 <= i < |s| ==> low <= s[i] <= high
  }

  lemma SplitWithin(a: seq<real>, b: seq<real>, low: real, high: real)
    requires AllWithin(a + b, low, high)
    ensures AllWithin(a, low, high) && AllWithin(b, low, high)
  {
    assert (a + b)[..|a|] == a && (a + b)[|a|..] == b;
  }

  lemma AbsorbMedian(p: Pool, last: seq<real>, low: real, high: real)
    requires last != [] && AllWithin(p.medians, low, high) && AllWithin(last, low, high)
    ensures AllWithin(Absorb(p, Reported(last)).medians, low, high)
    ensures |Absorb(p, Reported(last)).medians| == |p.medians| + 1
  {
    MedianWithin(last, low, high);
  }

  lemma {:induction false} MediansAreBounded(windows: seq<seq<real>>, low: real, high: real)
    requires AllFilled(windows) && AllWithin(Concat(windows), low, high)
    ensures |AbsorbAll(ReportedAll(windows)).medians| == |windows|
    ensures AllWithin(AbsorbAll(ReportedAll(windows)).medians, low, high)
  {
    if windows != [] {
      var front, last := windows[..|windows| - 1], windows[|windows| - 1];
      assert windows == front + [last];
      Unsnoc(front, last);
      SplitWithin(Concat(front), last, low, high);
      MediansAreBounded(front, low, high);
      AbsorbUnsnoc(ReportedAll(front), Reported(last));
      AbsorbMedian(AbsorbAll(ReportedAll(front)), last, low, high);
    }
  }

  lemma FilledConcat(windows: seq<seq<real>>)
    requires AllFilled(windows) && windows != []
    ensures Concat(windows) != []
  {
    assert windows[|windows| - 1] != [];
  }

  lemma MedianWithin(s: seq<real>, low: real, high: real)
    requires s != [] && AllWithin(s, low, high)
    ensures low <= Middle(Sort(s)) <= high
  {
    var least, greatest := Least(s), Greatest(s);
    assert least in s && greatest in s;
    MiddleIsBounded(s);
  }

  lemma PooledVarianceIsExact(p: Pool, windows: seq<seq<real>>)
    requires AllFilled(windows) && Concat(windows) != [] && |Concat(windows)| < U32_LIMIT && Holds(p, windows)
    ensures var all := Concat(windows);
            PooledVariance(p, Mean(all), Between(p.means, SquaredFrom(Mean(all)))) == Variance(all)
  {
    var all := Concat(windows);
    SpreadDecomposes(windows, Mean(all));
    SpreadIsNonNegative(all, Mean(all));
    if |all| > 1 {
      NonNegativeQuotient(Spread(all, Mean(all)), (|all| - 1) as real);
    } else {
      WindowSpread(all);
    }
  }

  lemma FinishUnclamped(p: Pool, mean: real)
    requires Reportable(p) && mean == p.weightedSum / Weight(p.samples)
    requires p.low.value <= mean <= p.high.value
    requires p.low.value <= Middle(Sort(p.medians)) <= p.high.value
    ensures Finish(p) == Some(Pooled(p.low.value, p.high.value, mean, Middle(Sort(p.medians)),
                                     PooledVariance(p, mean, Between(p.means, SquaredFrom(mean))), p.samples))
  {
  }

  /**
    * Summarising windows on the node and pooling them on the server gives what summarising every
    * sample at once would: same extremes, mean, variance and count, with no clamp taking effect.
    * The median is the one column that is only bounded.
    */
  lemma PoolingIsExact(windows: seq<seq<real>>)
    requires AllFilled(windows) && windows != [] && |Concat(windows)| < U32_LIMIT
    ensures Finish(AbsorbAll(ReportedAll(windows))).Some?
    ensures var pooled, whole := Finish(AbsorbAll(ReportedAll(windows))).value, SummaryOf(Concat(windows)).value;
            && pooled.min == whole.min
            && pooled.max == whole.max
            && pooled.mean == whole.mean
            && pooled.variance == whole.variance
            && pooled.count == whole.sampleCount
            && whole.min <= pooled.median <= whole.max
  {
    var all := Concat(windows);
    var p := AbsorbAll(ReportedAll(windows));
    FilledConcat(windows);
    SmallTotalFits(windows);
    AbsorbedWindowsHold(windows);
    MembersAreBounded(all);
    MediansAreBounded(windows, Least(all), Greatest(all));
    MedianWithin(p.medians, Least(all), Greatest(all));
    MeanIsBounded(all);
    PooledVarianceIsExact(p, windows);
    FinishUnclamped(p, Mean(all));
  }

  lemma NonNegativeQuotient(x: real, n: real)
    requires x >= 0.0 && n > 0.0
    ensures x / n >= 0.0
  {
  }

  // Exactly when the pooled mean is the mean.

  ghost predicate AllEqual(s: seq<real>) {
    forall i, j :: 0 <= i < j < |s| ==> s[i] == s[j]
  }

  lemma OneMoreTimes(n: nat, m: nat, x: real)
    requires m == n + 1
    ensures m as real * x == x + n as real * x
  {
  }

  lemma {:induction false} SumIsAbove(s: seq<real>, low: real, high: real, k: nat)
    requires k < |s| && s[k] > low && forall i :: 0 <= i < |s| ==> low <= s[i] <= high
    ensures Sum(s) > |s| as real * low
  {
    OneMoreTimes(|s[1..]|, |s|, low);
    if k == 0 {
      SumIsBounded(s[1..], low, high);
    } else {
      SumIsAbove(s[1..], low, high, k - 1);
    }
  }

  lemma {:induction false} SumIsBelow(s: seq<real>, low: real, high: real, k: nat)
    requires k < |s| && s[k] < high && forall i :: 0 <= i < |s| ==> low <= s[i] <= high
    ensures Sum(s) < |s| as real * high
  {
    OneMoreTimes(|s[1..]|, |s|, high);
    if k == 0 {
      SumIsBounded(s[1..], low, high);
    } else {
      SumIsBelow(s[1..], low, high, k - 1);
    }
  }

  lemma QuotientIsInside(total: real, n: real, low: real, high: real)
    requires n > 0.0 && n * low < total < n * high
    ensures low < total / n < high
  {
    var q := total / n;
    assert (q - low) * n == total - n * low;
    StrictFactor(q - low, n);
    assert (high - q) * n == n * high - total;
    StrictFactor(high - q, n);
  }

  lemma StrictFactor(x: real, n: real)
    requires n > 0.0 && x * n > 0.0
    ensures x > 0.0
  {
  }

  /** Samples that are not all the same have their mean strictly inside. */
  lemma MeanIsInside(s: seq<real>)
    requires s != [] && !AllEqual(s)
    ensures Least(s) < Mean(s) < Greatest(s)
  {
    var low, high := Least(s), Greatest(s);
    MembersAreBounded(s);
    var i, j :| 0 <= i < j < |s| && s[i] != s[j];
    SumIsAbove(s, low, high, if s[i] > low then i else j);
    SumIsBelow(s, low, high, if s[i] < high then i else j);
    QuotientIsInside(Sum(s), |s| as real, low, high);
  }

  lemma EqualSamples(s: seq<real>)
    requires s != [] && AllEqual(s)
    ensures Least(s) == Greatest(s)
  {
    var i :| 0 <= i < |s| && s[i] == Least(s);
    var j :| 0 <= j < |s| && s[j] == Greatest(s);
    assert i < j ==> s[i] == s[j];
    assert j < i ==> s[j] == s[i];
  }

  /** Dividing by two different numbers gives the same only for zero. */
  lemma OnlyZeroAgrees(x: real, m: real, n: real)
    requires 0.0 < m && 0.0 < n && m != n
    ensures x / m == x / n <==> x == 0.0
  {
    var q := x / m;
    assert q * m == x;
    if q == x / n {
      assert q * n == x;
      assert q * (m - n) == q * m - q * n;
      ZeroProduct(q, m - n);
    }
  }

  lemma ZeroProduct(x: real, d: real)
    requires x * d == 0.0 && d != 0.0
    ensures x == 0.0
  {
  }

  lemma FinishMean(p: Pool)
    requires Reportable(p) && p.low.value <= p.high.value
    ensures Finish(p).Some? && Finish(p).value.mean
      == Clamp(p.weightedSum / Weight(p.samples), p.low.value, p.high.value)
    ensures Finish(p).value.min == p.low.value && Finish(p).value.max == p.high.value
      && Finish(p).value.count == p.samples
  {
  }

  /** What a group holding all the samples reports beside the spread. */
  lemma HeldMeanIsExactlyWhen(p: Pool, s: seq<real>)
    requires s != [] && |s| <= I64_MAX && Reportable(p) && p.samples == |s| && p.weightedSum == Sum(s)
    requires p.low == Some(Least(s)) && p.high == Some(Greatest(s)) && Least(s) <= Greatest(s)
    ensures Finish(p).Some?
    ensures Finish(p).value.mean == Mean(s) <==> |s| < U32_LIMIT || Sum(s) == 0.0 || AllEqual(s)
  {
    FinishMean(p);
    MeanIsBounded(s);
    if AllEqual(s) {
      EqualSamples(s);
    } else if |s| >= U32_LIMIT {
      MeanIsInside(s);
      OnlyZeroAgrees(Sum(s), F64_MAX, |s| as real);
    }
  }

  /**
    * For windows whose own counts fit 32 bits and a total that fits 64, the extremes and the count
    * are always those of all samples. The mean is exactly when the total fits 32 bits too, or it is
    * zero, or the samples are all the same: otherwise the sum is divided by the largest double.
    */
  lemma PooledMeanIsExactlyWhen(windows: seq<seq<real>>)
    requires AllFilled(windows) && windows != [] && EachFits(windows) && |Concat(windows)| <= I64_MAX
    ensures Finish(AbsorbAll(ReportedAll(windows))).Some?
    ensures var all := Concat(windows);
            var pooled, whole := Finish(AbsorbAll(ReportedAll(windows))).value, SummaryOf(all).value;
            && pooled.min == whole.min && pooled.max == whole.max && pooled.count == whole.sampleCount
            && (pooled.mean == whole.mean <==> |all| < U32_LIMIT || Sum(all) == 0.0 || AllEqual(all))
  {
    var all := Concat(windows);
    var p := AbsorbAll(ReportedAll(windows));
    FilledConcat(windows);
    AbsorbedWindowsHold(windows);
    MembersAreBounded(all);
    MeanIsBounded(all);
    HeldMeanIsExactlyWhen(p, all);
    FinishMean(p);
  }

  /** Past 32 bits the weights no longer add up: two windows of 2^31 samples, both with mean 2, pool to 1. */
  lemma LargeCountsBreakTheMean()
    ensures var w := Window(1.0, 3.0, 2.0, 2.0, 1.0, 0x8000_0000);
            && Finish(AbsorbAll([w, w])).Some?
            && Finish(AbsorbAll([w, w])).value.count == U32_LIMIT
            && Finish(AbsorbAll([w, w])).value.mean == 1.0
  {
    var w := Window(1.0, 3.0, 2.0, 2.0, 1.0, 0x8000_0000);
    assert [w, w] == [w] + [w] && [w] == [] + [w];
    AbsorbUnsnoc([], w);
    AbsorbUnsnoc([w], w);
    var p := AbsorbAll([w, w]);
    TwoLargeWindows(w);
    TwoTwos(p.medians);
    SmallQuotient(8589934592.0, F64_MAX);
  }

  lemma TwoLargeWindows(w: Window)
    requires w == Window(1.0, 3.0, 2.0, 2.0, 1.0, 0x8000_0000)
    ensures var p := Absorb(Absorb(EMPTY, w), w);
      && p.weightedSum == 8589934592.0 && p.samples == U32_LIMIT && p.medians == [2.0, 2.0]
      && p.low == Some(1.0) && p.high == Some(3.0)
  {
  }

  lemma TwoTwos(s: seq<real>)
    requires s == [2.0, 2.0]
    ensures Middle(Sort(s)) == 2.0
  {
    assert Ascending(s);
    SortAscends(s);
    AscendingIsUnique(s, Sort(s));
  }

  lemma SmallQuotient(x: real, n: real)
    requires 0.0 < x < n
    ensures x / n < 1.0
  {
    var q := x / n;
    assert q * n == x;
    assert (1.0 - q) * n == n - x;
    if q >= 1.0 {
      PositiveFactor(q - 1.0, n);
    }
  }
}
