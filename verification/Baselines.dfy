/** What a series normally reads at one hour of the day, and when it reads something else. */
module Baselines {
  import opened Wrappers
  import opened OrderStatistics
  import opened Rearrangement

  const MIN_BASELINE_BUCKETS := 7
  const K: real := 4.0
  const CONSECUTIVE_WINDOWS := 3
  const MAD_TO_SIGMA: real := 1.4826
  const MINIMUM_SPREAD: real := 0.000001

  datatype Baseline = Baseline(center: real, between: real, within: real, buckets: nat)

  datatype Verdict = Verdict(windowStart: int, value: real, below: bool)

  function Distance(x: real, center: real): real {
    if x < center then center - x else x - center
  }

  function DistanceFrom(center: real): real -> real {
    x => Distance(x, center)
  }

  function Distances(s: seq<real>, center: real): (r: seq<real>)
    ensures |r| == |s|
    ensures forall i :: 0 <= i < |s| ==> r[i] == Distance(s[i], center)
  {
    Mapped(s, DistanceFrom(center))
  }

  function CenterOf(means: seq<real>): real
    requires means != []
  {
    MedianOf(means).value
  }

  function ToSigma(deviation: real): real {
    deviation * MAD_TO_SIGMA
  }

  /** The median distance from the center, scaled to sigmas. */
  function BetweenOf(means: seq<real>): real
    requires means != []
  {
    ToSigma(MedianOf(Distances(means, CenterOf(means))).value)
  }

  function WithinOf(spreads: seq<real>): real {
    if spreads == [] then 0.0 else MedianOf(spreads).value
  }

  function BaselineOf(means: seq<real>, spreads: seq<real>): Option<Baseline> {
    if |means| < MIN_BASELINE_BUCKETS then None
    else Some(Baseline(CenterOf(means), BetweenOf(means), WithinOf(spreads), |means|))
  }

  lemma BetweenIgnoresOrder(a: seq<real>, b: seq<real>)
    requires multiset(a) == multiset(b) && a != [] && b != []
    ensures CenterOf(a) == CenterOf(b) && BetweenOf(a) == BetweenOf(b)
  {
    MedianIgnoresOrder(a, b);
    MappedIgnoresOrder(a, b, DistanceFrom(CenterOf(a)));
    MedianIgnoresOrder(Distances(a, CenterOf(a)), Distances(b, CenterOf(a)));
  }

  lemma WithinIgnoresOrder(a: seq<real>, b: seq<real>)
    requires multiset(a) == multiset(b)
    ensures WithinOf(a) == WithinOf(b)
  {
    SameLength(a, b);
    MedianIgnoresOrder(a, b);
  }

  /** A baseline does not depend on the order its buckets come in, means and spreads apart. */
  lemma BaselineIgnoresOrder(means: seq<real>, means': seq<real>, spreads: seq<real>, spreads': seq<real>)
    requires multiset(means) == multiset(means') && multiset(spreads) == multiset(spreads')
    ensures BaselineOf(means, spreads) == BaselineOf(means', spreads')
  {
    SameLength(means, means');
    WithinIgnoresOrder(spreads, spreads');
    if |means| >= MIN_BASELINE_BUCKETS {
      BetweenIgnoresOrder(means, means');
    }
  }

  method DistancesFrom(means: array<real>, center: real) returns (deviations: array<real>)
    ensures fresh(deviations) && deviations[..] == Distances(means[..], center)
  {
    deviations := new real[means.Length];
    for i := 0 to means.Length
      invariant means[..] == old(means[..])
      invariant forall k :: 0 <= k < i ==> deviations[k] == Distance(means[k], center)
    {
      deviations[i] := Distance(means[i], center);
    }
  }

  /** Both arrays are rearranged on the way. */
  method FoldBaseline(means: array<real>, spreads: array<real>) returns (r: Option<Baseline>)
    requires means != spreads
    modifies means, spreads
    ensures r == BaselineOf(old(means[..]), old(spreads[..]))
  {
    if means.Length < MIN_BASELINE_BUCKETS {
      return None;
    }
    ghost var given, kept := means[..], spreads[..];
    var center := Median(means);
    MappedIgnoresOrder(given, means[..], DistanceFrom(center.value));
    var deviations := DistancesFrom(means, center.value);
    MedianIgnoresOrder(Distances(given, center.value), deviations[..]);
    var between := Median(deviations);
    var within := Median(spreads);
    var spread := if within.Some? then within.value else 0.0;
    assert spread == WithinOf(kept);
    assert center.value == CenterOf(given);
    assert between == MedianOf(Distances(given, CenterOf(given)));
    assert BetweenOf(given) == ToSigma(between.value);
    assert |given| == means.Length;
    r := Some(Baseline(center.value, ToSigma(between.value), spread, means.Length));
  }

  // How much a baseline tolerates.

  lemma {:induction false} CloseDistances(means: seq<real>, center: real, least: real, low: real, high: real)
    requires least == 0.0 && low <= center <= high
    ensures CountIn(Distances(means, center), least, high - low) >= CountIn(means, low, high)
  {
    if means != [] {
      CloseDistances(means[1..], center, least, low, high);
      assert Distances(means, center)[1..] == Distances(means[1..], center);
    }
  }

  lemma SpreadIsHeld(means: seq<real>, center: real, count: nat, low: real, high: real)
    requires means != [] && center == CenterOf(means)
    requires count <= CountIn(Distances(means, center), low, high) && 2 * count > |means|
    ensures MAD_TO_SIGMA * low <= BetweenOf(means) <= MAD_TO_SIGMA * high
  {
    MajorityHoldsTheMedian(Distances(means, center), low, high);
  }

  lemma MajorityIsClose(means: seq<real>, center: real, distances: seq<real>, low: real, high: real, least: real,
                        width: real)
    requires 2 * CountIn(means, low, high) > |means| && low <= center <= high
    requires distances == Distances(means, center) && least == 0.0 && width == high - low
    ensures 2 * CountIn(distances, least, width) > |distances|
  {
    CloseDistances(means, center, least, low, high);
  }

  lemma MajorityHoldsTheSpread(means: seq<real>, center: real, low: real, high: real, least: real, width: real)
    requires means != [] && 2 * CountIn(means, low, high) > |means|
    requires center == CenterOf(means) && low <= center <= high && least == 0.0 && width == high - low
    ensures 0.0 <= BetweenOf(means) <= MAD_TO_SIGMA * width
  {
    var distances := Distances(means, center);
    MajorityIsClose(means, center, distances, low, high, least, width);
    MajorityHoldsTheMedian(distances, least, width);
  }

  /**
    * If more than half of the bucket means lie between `low` and `high`, the center does too and
    * the spread between hours is bounded by their distance, whatever the other buckets read.
    */
  lemma MajorityHoldsTheBaseline(means: seq<real>, spreads: seq<real>, low: real, high: real)
    requires |means| >= MIN_BASELINE_BUCKETS && 2 * CountIn(means, low, high) > |means|
    ensures BaselineOf(means, spreads).Some?
    ensures low <= BaselineOf(means, spreads).value.center <= high
    ensures 0.0 <= BaselineOf(means, spreads).value.between <= MAD_TO_SIGMA * (high - low)
  {
    MajorityHoldsTheMedian(means, low, high);
    MajorityHoldsTheSpread(means, CenterOf(means), low, high, 0.0, high - low);
  }

  /** How many means lie at least `d` away from a center. */
  function CountApart(means: seq<real>, center: real, d: real): nat {
    if means == [] then 0
    else (if means[0] <= center - d || means[0] >= center + d then 1 else 0) + CountApart(means[1..], center, d)
  }

  lemma {:induction false} ApartDistances(means: seq<real>, center: real, d: real, far: real)
    requires d >= 0.0 && forall i :: 0 <= i < |means| ==> Distance(means[i], center) <= far
    ensures CountIn(Distances(means, center), d, far) == CountApart(means, center, d)
  {
    if means != [] {
      ApartDistances(means[1..], center, d, far);
      assert Distances(means, center)[1..] == Distances(means[1..], center);
    }
  }

  lemma {:induction false} SomeBound(s: seq<real>) returns (far: real)
    ensures forall i :: 0 <= i < |s| ==> s[i] <= far
  {
    far := 0.0;
    if s != [] {
      var rest := SomeBound(s[1..]);
      far := if s[0] > rest then s[0] else rest;
      forall i | 0 <= i < |s| ensures s[i] <= far {
        assert i > 0 ==> s[i] == s[1..][i - 1];
      }
    }
  }

  /**
    * The spread between hours says how far a typical hour is from the center, in plain numbers: if
    * more than half of the hours are at least `d` away it is at least 1.4826 d, and if more than half
    * are at most `d` away it is at most that.
    */
  lemma SpreadIsTypical(means: seq<real>, spreads: seq<real>, d: real)
    requires |means| >= 7 && d >= 0.0
    ensures BaselineOf(means, spreads).Some?
    ensures var baseline := BaselineOf(means, spreads).value;
      && (2 * CountApart(means, baseline.center, d) > |means| ==> baseline.between >= 1.4826 * d)
      && (2 * CountIn(means, baseline.center - d, baseline.center + d) > |means| ==> baseline.between <= 1.4826 * d)
  {
    SpreadIsLarge(means, CenterOf(means), d);
    SpreadIsSmall(means, CenterOf(means), d);
  }

  lemma SpreadIsLarge(means: seq<real>, center: real, d: real)
    requires means != [] && d >= 0.0 && center == CenterOf(means)
    ensures 2 * CountApart(means, center, d) > |means| ==> BetweenOf(means) >= MAD_TO_SIGMA * d
  {
    var distances := Distances(means, center);
    var far := SomeBound(distances);
    ApartDistances(means, center, d, far);
    if 2 * CountApart(means, center, d) > |means| {
      SpreadIsHeld(means, center, CountApart(means, center, d), d, far);
    }
  }

  lemma SpreadIsSmall(means: seq<real>, center: real, d: real)
    requires means != [] && d >= 0.0 && center == CenterOf(means)
    ensures 2 * CountIn(means, center - d, center + d) > |means| ==> BetweenOf(means) <= MAD_TO_SIGMA * d
  {
    var distances := Distances(means, center);
    NearDistances(means, center, d);
    if 2 * CountIn(means, center - d, center + d) > |means| {
      SpreadIsHeld(means, center, CountIn(means, center - d, center + d), 0.0, d);
    }
  }

  lemma {:induction false} NearDistances(means: seq<real>, center: real, d: real)
    ensures CountIn(Distances(means, center), 0.0, d) == CountIn(means, center - d, center + d)
  {
    if means != [] {
      NearDistances(means[1..], center, d);
      assert Distances(means, center)[1..] == Distances(means[1..], center);
    }
  }

  /** Where most hourly spreads lie, the typical one does; without any it is zero. */
  lemma WithinIsTypical(means: seq<real>, spreads: seq<real>, low: real, high: real)
    requires |means| >= 7
    ensures BaselineOf(means, spreads).Some?
    ensures BaselineOf(means, spreads).value.buckets == |means|
    ensures spreads == [] ==> BaselineOf(means, spreads).value.within == 0.0
    ensures 2 * CountIn(spreads, low, high) > |spreads| ==> low <= BaselineOf(means, spreads).value.within <= high
  {
    if 2 * CountIn(spreads, low, high) > |spreads| {
      MajorityHoldsTheMedian(spreads, low, high);
    }
  }

  /** Seven hours make a baseline, and fewer do not. */
  lemma SevenHoursMakeABaseline(means: seq<real>, spreads: seq<real>)
    ensures BaselineOf(means, spreads).Some? <==> |means| >= 7
  {
  }

  function Repeated(x: real, n: nat): (r: seq<real>)
    ensures |r| == n && forall i :: 0 <= i < n ==> r[i] == x
  {
    seq(n, i => x)
  }

  /** Where the strays have to read to bring the center to `far`, when there are `more` of them than of the others. */
  function StrayFor(inside: seq<real>, more: nat, far: real): real {
    if inside == [] || more > 0 then far else far + (far - Greatest(inside))
  }

  lemma SortedWithStrays(means: seq<real>, inside: seq<real>, stray: real, n: nat)
    requires multiset(means) == multiset(inside + Repeated(stray, n))
    requires forall i :: 0 <= i < |inside| ==> inside[i] <= stray
    ensures Sort(means) == Sort(inside) + Repeated(stray, n)
  {
    SortAscends(inside);
    SortAscends(means);
    forall i | 0 <= i < |inside| ensures Sort(inside)[i] <= stray {
      SameMembers(Sort(inside), inside, Sort(inside)[i]);
    }
    AscendingIsUnique(Sort(means), Sort(inside) + Repeated(stray, n));
  }

  lemma RanksOfStrays(sorted: seq<real>, front: seq<real>, stray: real, n: nat, m: nat)
    requires sorted == front + Repeated(stray, n) && m < |sorted|
    ensures m >= |front| ==> sorted[m] == stray
    ensures m < |front| ==> sorted[m] == front[m]
  {
  }

  lemma MiddleOfStrays(sorted: seq<real>, front: seq<real>, n: nat, greatest: real, more: nat, far: real, stray: real)
    requires n == |front| && sorted == front + Repeated(stray, n + more) && sorted != []
    requires n > 0 ==> front[n - 1] == greatest
    requires stray == if n == 0 || more > 0 then far else far + (far - greatest)
    ensures Middle(sorted) == far
  {
    var m := |sorted| / 2;
    RanksOfStrays(sorted, front, stray, n + more, m);
    if more > 0 {
      if |sorted| % 2 == 0 {
        RanksOfStrays(sorted, front, stray, n + more, m - 1);
      }
      MiddleFromRanks(sorted, far, far);
    } else {
      RanksOfStrays(sorted, front, stray, n + more, n - 1);
      MiddleFromRanks(sorted, stray, greatest);
    }
  }

  lemma CountIgnoresOrder(a: seq<real>, b: seq<real>, low: real, high: real)
    requires multiset(a) == multiset(b)
    ensures CountIn(a, low, high) == CountIn(b, low, high)
  {
    SortIgnoresOrder(a, b);
    CountOfSort(a, low, high);
    CountOfSort(b, low, high);
  }

  lemma StraysAreOutside(inside: seq<real>, strays: seq<real>, means: seq<real>, low: real, high: real)
    requires forall i :: 0 <= i < |inside| ==> low <= inside[i] <= high
    requires forall i :: 0 <= i < |strays| ==> high < strays[i]
    requires multiset(means) == multiset(inside + strays)
    ensures |means| == |inside| + |strays| && CountIn(means, low, high) == |inside|
  {
    SameLength(means, inside + strays);
    CountIgnoresOrder(means, inside + strays, low, high);
    CountSplits(inside, strays, low, high);
    AllCounted(inside, low, high);
    NoneCounted(strays, low, high);
  }

  lemma StraysTakeTheMiddle(inside: seq<real>, more: nat, far: real, sorted: seq<real>, front: seq<real>)
    requires (inside != [] || more > 0) && |front| == |inside|
    requires inside != [] ==> front[|inside| - 1] == Greatest(inside)
    requires sorted == front + Repeated(StrayFor(inside, more, far), |inside| + more)
    ensures Middle(sorted) == far
  {
    var greatest := if inside == [] then far else Greatest(inside);
    MiddleOfStrays(sorted, front, |inside|, greatest, more, far, StrayFor(inside, more, far));
  }

  lemma StraysTakeTheCenter(inside: seq<real>, more: nat, far: real, stray: real, means: seq<real>)
    requires (inside != [] || more > 0) && means != []
    requires stray == StrayFor(inside, more, far) && forall i :: 0 <= i < |inside| ==> inside[i] <= stray
    requires multiset(means) == multiset(inside + Repeated(stray, |inside| + more))
    ensures CenterOf(means) == far
  {
    SortedWithStrays(means, inside, stray, |inside| + more);
    if inside != [] {
      LastOfSort(inside);
    }
    StraysTakeTheMiddle(inside, more, far, Sort(means), Sort(inside));
  }

  /**
    * Half is not enough: whatever the hours inside read, as many others, or any number more, bring
    * the center anywhere above, in whatever order they all come.
    */
  lemma HalfDoesNotHold(inside: seq<real>, more: nat, low: real, high: real, far: real, means: seq<real>,
                        spreads: seq<real>)
    requires (forall i :: 0 <= i < |inside| ==> low <= inside[i] <= high) && high < far
    requires 2 * |inside| + more >= MIN_BASELINE_BUCKETS
    requires multiset(means) == multiset(inside + Repeated(StrayFor(inside, more, far), |inside| + more))
    ensures CountIn(means, low, high) == |inside| && |means| == 2 * |inside| + more
    ensures BaselineOf(means, spreads).Some? && BaselineOf(means, spreads).value.center == far
  {
    var stray := StrayFor(inside, more, far);
    StrayIsAbove(inside, more, high, far);
    StraysAreOutside(inside, Repeated(stray, |inside| + more), means, low, high);
    StraysTakeTheCenter(inside, more, far, stray, means);
  }

  lemma StrayIsAbove(inside: seq<real>, more: nat, high: real, far: real)
    requires (forall i :: 0 <= i < |inside| ==> inside[i] <= high) && high < far
    ensures StrayFor(inside, more, far) > high
  {
    if inside != [] {
      assert Greatest(inside) in inside;
    }
  }

  lemma {:induction false} AllCounted(s: seq<real>, low: real, high: real)
    requires forall i :: 0 <= i < |s| ==> low <= s[i] <= high
    ensures CountIn(s, low, high) == |s|
  {
    if s != [] {
      AllCounted(s[1..], low, high);
    }
  }

  // The band. The half-width is four times the root of `SpreadSquared`; squares stand for roots.

  function SpreadSquared(baseline: Baseline): (r: real)
    ensures r >= MINIMUM_SPREAD * MINIMUM_SPREAD
  {
    var both := baseline.between * baseline.between + baseline.within * baseline.within;
    if both > MINIMUM_SPREAD * MINIMUM_SPREAD then both else MINIMUM_SPREAD * MINIMUM_SPREAD
  }

  /** `distance` is more than the half-width. */
  predicate Outside(baseline: Baseline, distance: real) {
    distance > 0.0 && distance * distance > K * K * SpreadSquared(baseline)
  }

  predicate Below(baseline: Baseline, value: real) {
    Outside(baseline, baseline.center - value)
  }

  predicate Above(baseline: Baseline, value: real) {
    Outside(baseline, value - baseline.center)
  }

  /** The newest windows, newest first, all on one side of the band. */
  function Judge(recent: seq<(int, real)>, baseline: Baseline): Option<Verdict> {
    if |recent| < CONSECUTIVE_WINDOWS then None
    else
      var below := forall i :: 0 <= i < |recent| ==> Below(baseline, recent[i].1);
      var above := forall i :: 0 <= i < |recent| ==> Above(baseline, recent[i].1);
      if !below && !above then None else Some(Verdict(recent[0].0, recent[0].1, below))
  }

  // The verdict in plain numbers.

  /** The square of the band's half-width: four spreads, and a spread is at least a millionth. */
  function HalfWidthSquared(baseline: Baseline): real {
    var both := baseline.between * baseline.between + baseline.within * baseline.within;
    16.0 * (if both > 0.000000000001 then both else 0.000000000001)
  }

  /** Every window reads less than the center, by more than the half-width. */
  ghost predicate AllUnder(recent: seq<(int, real)>, baseline: Baseline) {
    forall i :: 0 <= i < |recent| ==>
      && recent[i].1 < baseline.center
      && (baseline.center - recent[i].1) * (baseline.center - recent[i].1) > HalfWidthSquared(baseline)
  }

  ghost predicate AllOver(recent: seq<(int, real)>, baseline: Baseline) {
    forall i :: 0 <= i < |recent| ==>
      && recent[i].1 > baseline.center
      && (recent[i].1 - baseline.center) * (recent[i].1 - baseline.center) > HalfWidthSquared(baseline)
  }

  lemma WidthIsSpread(baseline: Baseline)
    ensures K * K * SpreadSquared(baseline) == HalfWidthSquared(baseline)
  {
    assert MINIMUM_SPREAD * MINIMUM_SPREAD == 0.000000000001;
    assert K * K == 16.0;
  }

  lemma SidesAreBands(recent: seq<(int, real)>, baseline: Baseline)
    ensures AllUnder(recent, baseline) <==> forall i :: 0 <= i < |recent| ==> Below(baseline, recent[i].1)
    ensures AllOver(recent, baseline) <==> forall i :: 0 <= i < |recent| ==> Above(baseline, recent[i].1)
  {
    WidthIsSpread(baseline);
    forall i | 0 <= i < |recent|
      ensures Below(baseline, recent[i].1) <==>
        recent[i].1 < baseline.center
        && (baseline.center - recent[i].1) * (baseline.center - recent[i].1) > HalfWidthSquared(baseline)
      ensures Above(baseline, recent[i].1) <==>
        recent[i].1 > baseline.center
        && (recent[i].1 - baseline.center) * (recent[i].1 - baseline.center) > HalfWidthSquared(baseline)
    {
    }
  }

  /**
    * There is a verdict exactly when there are three windows and all of them lie on the same side of
    * the center by more than the half-width. It is about the newest window and says on which side it is.
    */
  lemma {:induction false} JudgeIsExact(recent: seq<(int, real)>, baseline: Baseline)
    ensures Judge(recent, baseline).Some? <==>
      |recent| >= 3 && (AllUnder(recent, baseline) || AllOver(recent, baseline))
    ensures Judge(recent, baseline).Some? ==>
      var verdict := Judge(recent, baseline).value;
      && verdict.windowStart == recent[0].0
      && verdict.value == recent[0].1
      && (verdict.below <==> verdict.value < baseline.center)
  {
    SidesAreBands(recent, baseline);
    if |recent| >= 3 {
      assert Below(baseline, recent[0].1) ==> recent[0].1 < baseline.center;
      assert Above(baseline, recent[0].1) ==> recent[0].1 > baseline.center;
    }
  }

  lemma FartherIsOutside(baseline: Baseline, near: real, far: real)
    requires Outside(baseline, near) && near <= far
    ensures Outside(baseline, far)
  {
    SquareGrows(near, far);
  }

  lemma SquareGrows(x: real, y: real)
    requires 0.0 <= x <= y
    ensures x * x <= y * y
  {
    assert x * x <= x * y;
    assert x * y <= y * y;
  }

  /** A window that is not below the band and one that is not above it leave no verdict. */
  lemma VerdictNeedsOneSide(recent: seq<(int, real)>, baseline: Baseline, i: nat, j: nat)
    requires i < |recent| && j < |recent|
    requires !Below(baseline, recent[i].1) && !Above(baseline, recent[j].1)
    ensures Judge(recent, baseline).None?
  {
  }

  lemma SpreadIsCapped(baseline: Baseline, between: real, within: real)
    requires 0.0 <= baseline.between <= between && 0.0 <= baseline.within <= within
    ensures SpreadSquared(baseline) <= between * between + within * within
      || SpreadSquared(baseline) == MINIMUM_SPREAD * MINIMUM_SPREAD
  {
    SquareGrows(baseline.between, between);
    SquareGrows(baseline.within, within);
  }

  /** `distance` clears the band of every baseline with at most these two spreads. */
  predicate Clears(distance: real, between: real, within: real) {
    && distance > 0.0
    && distance * distance > K * K * (between * between + within * within)
    && distance * distance > K * K * (MINIMUM_SPREAD * MINIMUM_SPREAD)
  }

  lemma BeyondTheCap(baseline: Baseline, between: real, within: real, distance: real)
    requires 0.0 <= baseline.between <= between && 0.0 <= baseline.within <= within
    requires Clears(distance, between, within)
    ensures Outside(baseline, distance)
  {
    SpreadIsCapped(baseline, between, within);
  }

  lemma AboveTheCap(baseline: Baseline, high: real, between: real, within: real, value: real)
    requires 0.0 <= baseline.between <= between && 0.0 <= baseline.within <= within && baseline.center <= high
    requires Clears(value - high, between, within)
    ensures Above(baseline, value)
  {
    BeyondTheCap(baseline, between, within, value - high);
    FartherIsOutside(baseline, value - high, value - baseline.center);
  }

  lemma WithinIsHeld(spreads: seq<real>, within: real)
    requires within >= 0.0 && (spreads == [] || 2 * CountIn(spreads, 0.0, within) > |spreads|)
    ensures 0.0 <= WithinOf(spreads) <= within
  {
    if spreads != [] {
      MajorityHoldsTheMedian(spreads, 0.0, within);
    }
  }

  /**
    * If most hours read between `low` and `high` and most spread at most `within`, a reading far
    * enough above `high` for those two alone is outside the band, whatever the other hours were.
    */
  lemma OutlierIsCaught(means: seq<real>, spreads: seq<real>, low: real, high: real, within: real, value: real)
    requires |means| >= MIN_BASELINE_BUCKETS && 2 * CountIn(means, low, high) > |means|
    requires within >= 0.0 && (spreads == [] || 2 * CountIn(spreads, 0.0, within) > |spreads|)
    requires Clears(value - high, ToSigma(high - low), within)
    ensures BaselineOf(means, spreads).Some? && Above(BaselineOf(means, spreads).value, value)
  {
    MajorityHoldsTheBaseline(means, spreads, low, high);
    WithinIsHeld(spreads, within);
    var baseline := BaselineOf(means, spreads).value;
    AboveTheCap(baseline, high, ToSigma(high - low), within, value);
  }

  lemma BelowTheCap(baseline: Baseline, low: real, between: real, within: real, value: real)
    requires 0.0 <= baseline.between <= between && 0.0 <= baseline.within <= within && low <= baseline.center
    requires Clears(low - value, between, within)
    ensures Below(baseline, value)
  {
    BeyondTheCap(baseline, between, within, low - value);
    FartherIsOutside(baseline, low - value, baseline.center - value);
  }

  /** Most hours read between `low` and `high`, and most spread at most `within`. */
  ghost predicate MostlyIn(means: seq<real>, spreads: seq<real>, low: real, high: real, within: real) {
    && |means| >= 7 && 2 * CountIn(means, low, high) > |means|
    && within >= 0.0 && (spreads == [] || 2 * CountIn(spreads, 0.0, within) > |spreads|)
  }

  /** All the windows are far under `low`, or all far over `high`, for hours as tight as `MostlyIn` says. */
  ghost predicate AllFar(recent: seq<(int, real)>, low: real, high: real, within: real, under: bool) {
    forall i :: 0 <= i < |recent| ==>
      Clears(if under then low - recent[i].1 else recent[i].1 - high, ToSigma(high - low), within)
  }

  lemma FarIsOnItsSide(means: seq<real>, spreads: seq<real>, low: real, high: real, within: real, value: real,
                       under: bool)
    requires MostlyIn(means, spreads, low, high, within)
    requires Clears(if under then low - value else value - high, ToSigma(high - low), within)
    ensures BaselineOf(means, spreads).Some?
    ensures var baseline := BaselineOf(means, spreads).value;
      if under then Below(baseline, value) && value < baseline.center
        else Above(baseline, value) && value > baseline.center
  {
    MajorityHoldsTheBaseline(means, spreads, low, high);
    WithinIsHeld(spreads, within);
    var baseline := BaselineOf(means, spreads).value;
    if under {
      BelowTheCap(baseline, low, ToSigma(high - low), within, value);
    } else {
      AboveTheCap(baseline, high, ToSigma(high - low), within, value);
    }
  }

  /**
    * Three windows far on one side of what most hours read get their verdict, on that side, whatever the
    * other hours were.
    */
  lemma {:induction false} OutliersAreJudged(means: seq<real>, spreads: seq<real>, low: real, high: real, within: real,
                                             recent: seq<(int, real)>, under: bool)
    requires MostlyIn(means, spreads, low, high, within)
    requires |recent| >= 3 && AllFar(recent, low, high, within, under)
    ensures BaselineOf(means, spreads).Some?
    ensures Judge(recent, BaselineOf(means, spreads).value) == Some(Verdict(recent[0].0, recent[0].1, under))
  {
    MajorityHoldsTheBaseline(means, spreads, low, high);
    var baseline := BaselineOf(means, spreads).value;
    forall i | 0 <= i < |recent|
      ensures if under then Below(baseline, recent[i].1) else Above(baseline, recent[i].1)
      ensures if under then recent[i].1 < baseline.center else recent[i].1 > baseline.center
    {
      FarIsOnItsSide(means, spreads, low, high, within, recent[i].1, under);
    }
    SidesAreBands(recent, baseline);
    JudgeIsExact(recent, baseline);
  }
}
