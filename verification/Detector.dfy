/**
  * The deviation detector: one batched pass over the fleet, and the same judgement one series at a
  * time.
  */
module Detector {
  import opened Wrappers
  import opened Fleet
  import opened Buckets
  import opened Rearrangement
  import opened Baselines
  import opened Alarms

  const BASELINE_DAYS := 28

  /** The newest windows of each series, and the hourly rollups, as far as the detector reads them. */
  datatype Tables = Tables(windows: map<(Series, int), real>, hourly: map<(Series, int), Spread>)

  datatype Spread = Spread(mean: real, stddev: real)

  /** One row of the hourly rollups. */
  datatype HourRow = HourRow(series: Series, start: int, spread: Spread)

  function HourOf(at: int): int {
    at / HOUR % 24
  }

  // Which buckets a baseline reads.

  /** The bucket `back` days before `now`'s day, at `hour`. */
  function BucketBack(now: int, hour: int, back: nat): int {
    (now / DAY - back) * DAY + hour * HOUR
  }

  function BucketsBack(now: int, hour: int, count: nat): seq<int> {
    if count == 0 then []
    else
      var front := BucketsBack(now, hour, count - 1);
      var bucket := BucketBack(now, hour, count - 1);
      if now - BASELINE_DAYS * DAY <= bucket < now then front + [bucket] else front
  }

  /** Today and the 28 days before it, at one hour, as far as they lie in the last 28 days. */
  function BaselineBuckets(now: int, hour: int): seq<int> {
    BucketsBack(now, hour, BASELINE_DAYS + 1)
  }

  lemma {:induction false} BucketsBackHold(now: int, hour: int, count: nat, bucket: int)
    ensures bucket in BucketsBack(now, hour, count) <==>
      now - BASELINE_DAYS * DAY <= bucket < now && exists back: nat ::
        back < count && bucket == BucketBack(now, hour, back)
  {
    if count > 0 {
      BucketsBackHold(now, hour, count - 1, bucket);
      if bucket == BucketBack(now, hour, count - 1) {
        var last: nat := count - 1;
        assert bucket == BucketBack(now, hour, last);
      }
    }
  }

  /** A whole hour that starts at `hour` of some day. */
  predicate IsHour(bucket: int, hour: int) {
    bucket % HOUR == 0 && HourOf(bucket) == hour
  }

  lemma BucketBackIsHour(now: int, hour: int, back: nat)
    requires 0 <= hour < 24
    ensures IsHour(BucketBack(now, hour, back), hour)
  {
    var bucket := BucketBack(now, hour, back);
    assert bucket == HOUR * (24 * (now / DAY - back) + hour);
    assert bucket / HOUR == 24 * (now / DAY - back) + hour;
  }

  lemma HourIsBucketBack(now: int, hour: int, bucket: int) returns (back: nat)
    requires 0 <= hour < 24 && IsHour(bucket, hour)
    requires now - BASELINE_DAYS * DAY <= bucket < now
    ensures back <= BASELINE_DAYS && bucket == BucketBack(now, hour, back)
  {
    var days := bucket / HOUR / 24;
    assert bucket == HOUR * (bucket / HOUR);
    assert bucket / HOUR == 24 * days + hour;
    assert bucket == days * DAY + hour * HOUR;
    assert days <= now / DAY && now / DAY - BASELINE_DAYS <= days;
    back := now / DAY - days;
  }

  /**
    * The list of starts picks exactly the whole hours of the last 28 days that begin at that hour
    * of the day.
    */
  lemma BaselineBucketsAreTheHours(now: int, hour: int, bucket: int)
    requires 0 <= hour < 24
    ensures bucket in BaselineBuckets(now, hour) <==>
      now - 28 * 86_400 <= bucket < now && bucket % 3_600 == 0 && bucket / 3_600 % 24 == hour
  {
    BucketsBackHold(now, hour, BASELINE_DAYS + 1, bucket);
    if exists back: nat :: back < BASELINE_DAYS + 1 && bucket == BucketBack(now, hour, back) {
      var back: nat :| back < BASELINE_DAYS + 1 && bucket == BucketBack(now, hour, back);
      BucketBackIsHour(now, hour, back);
    }
    if IsHour(bucket, hour) && now - BASELINE_DAYS * DAY <= bucket < now {
      var back := HourIsBucketBack(now, hour, bucket);
    }
  }

  // What the database answers.

  datatype WindowRow = WindowRow(series: Series, start: int, mean: real)

  ghost function StartsSince(tables: Tables, series: Series, since: int): set<int> {
    set key | key in tables.windows && key.0 == series && key.1 >= since :: key.1
  }

  ghost predicate Descending(recent: seq<(int, real)>) {
    forall i, j :: 0 <= i < j < |recent| ==> recent[i].0 > recent[j].0
  }

  predicate Has(recent: seq<(int, real)>, start: int) {
    exists i :: 0 <= i < |recent| && recent[i].0 == start
  }

  /** The newest windows of a series since an instant, newest first, at most three. */
  ghost predicate IsRecent(recent: seq<(int, real)>, tables: Tables, series: Series, since: int) {
    var starts := StartsSince(tables, series, since);
    && |recent| == (if |starts| < CONSECUTIVE_WINDOWS then |starts| else CONSECUTIVE_WINDOWS)
    && Descending(recent)
    && (forall i :: 0 <= i < |recent| ==>
      (series, recent[i].0) in tables.windows && recent[i].0 >= since
        && recent[i].1 == tables.windows[(series, recent[i].0)])
    && (forall start, i :: start in starts && !Has(recent, start) && 0 <= i < |recent| ==> start < recent[i].0)
  }

  lemma NotBelow(a: seq<(int, real)>, b: seq<(int, real)>, tables: Tables, series: Series, since: int, i: nat)
    requires IsRecent(a, tables, series, since) && IsRecent(b, tables, series, since) && i < |a|
    requires forall k :: 0 <= k < i ==> a[k] == b[k]
    ensures a[i].0 <= b[i].0
  {
    var start := a[i].0;
    assert start in StartsSince(tables, series, since) by {
      assert (series, start) in tables.windows;
    }
  }

  lemma {:induction false} SameUpTo(a: seq<(int, real)>, b: seq<(int, real)>, tables: Tables, series: Series,
                                    since: int, n: nat)
    requires IsRecent(a, tables, series, since) && IsRecent(b, tables, series, since) && n <= |a|
    ensures forall k :: 0 <= k < n ==> a[k] == b[k]
  {
    if n > 0 {
      SameUpTo(a, b, tables, series, since, n - 1);
      NotBelow(a, b, tables, series, since, n - 1);
      NotBelow(b, a, tables, series, since, n - 1);
    }
  }

  /** There is only one answer to which windows are newest. */
  lemma RecentIsUnique(a: seq<(int, real)>, b: seq<(int, real)>, tables: Tables, series: Series, since: int)
    requires IsRecent(a, tables, series, since) && IsRecent(b, tables, series, since)
    ensures a == b
  {
    SameUpTo(a, b, tables, series, since, |a|);
  }

  /** The rows of one series, in the order they came. */
  function Picked(rows: seq<WindowRow>, series: Series): seq<(int, real)> {
    if rows == [] then []
    else
      var last := rows[|rows| - 1];
      var front := Picked(rows[..|rows| - 1], series);
      if last.series == series then front + [(last.start, last.mean)] else front
  }

  /** The query filters on node and channel only; the metric is left to the caller. */
  predicate Asked(only: Option<Series>, series: Series) {
    only.None? || (series.node == only.value.node && series.channel == only.value.channel)
  }

  ghost predicate AnswersWindows(rows: seq<WindowRow>, tables: Tables, since: int, only: Option<Series>) {
    forall series :: if Asked(only, series) then IsRecent(Picked(rows, series), tables, series, since)
      else Picked(rows, series) == []
  }

  ghost predicate AnswersHours(rows: seq<HourRow>, tables: Tables, now: int, only: Option<Series>) {
    && (forall i, j :: 0 <= i < j < |rows| ==> rows[i] != rows[j])
    && forall row :: row in rows <==>
      && (row.series, row.start) in tables.hourly
      && tables.hourly[(row.series, row.start)] == row.spread
      && row.start in BaselineBuckets(now, HourOf(now))
      && (only.None? || only.value == row.series)
  }

  // Windows, gathered.

  function WindowMap(rows: seq<WindowRow>, only: Option<Series>): (r: map<Series, seq<(int, real)>>)
    ensures forall s :: s in r <==> (only.None? || only.value == s) && Picked(rows, s) != []
    ensures forall s :: s in r ==> r[s] == Picked(rows, s)
  {
    if rows == [] then map[]
    else
      var last := rows[|rows| - 1];
      var front := WindowMap(rows[..|rows| - 1], only);
      if only.Some? && only.value != last.series then front
      else front[last.series := (if last.series in front then front[last.series] else []) + [(last.start, last.mean)]]
  }

  method GatherWindows(rows: seq<WindowRow>, only: Option<Series>) returns (windows: map<Series, seq<(int, real)>>)
    ensures windows == WindowMap(rows, only)
  {
    windows := map[];
    for i := 0 to |rows|
      invariant windows == WindowMap(rows[..i], only)
    {
      assert rows[..i + 1][..i] == rows[..i];
      var row := rows[i];
      if only.Some? && only.value != row.series {
        continue;
      }
      windows := windows[row.series :=
        (if row.series in windows then windows[row.series] else []) + [(row.start, row.mean)]];
    }
    assert rows[..|rows|] == rows;
  }

  // Baselines, gathered.

  function RowsOf(rows: seq<HourRow>, series: Series): (r: seq<HourRow>)
    ensures forall row :: row in r <==> row in rows && row.series == series
  {
    if rows == [] then []
    else
      var front := RowsOf(rows[..|rows| - 1], series);
      assert rows == rows[..|rows| - 1] + [rows[|rows| - 1]];
      if rows[|rows| - 1].series == series then front + [rows[|rows| - 1]] else front
  }

  function MeanOf(): HourRow -> real {
    (row: HourRow) => row.spread.mean
  }

  function StddevOf(): HourRow -> real {
    (row: HourRow) => row.spread.stddev
  }

  function MeansOf(rows: seq<HourRow>, series: Series): seq<real> {
    Mapped(RowsOf(rows, series), MeanOf())
  }

  function SpreadsOf(rows: seq<HourRow>, series: Series): seq<real> {
    Mapped(RowsOf(rows, series), StddevOf())
  }

  function BaselineIn(rows: seq<HourRow>, series: Series): Option<Baseline> {
    BaselineOf(MeansOf(rows, series), SpreadsOf(rows, series))
  }

  type Gathered = map<Series, (seq<real>, seq<real>)>

  ghost predicate GatheredHolds(gathered: Gathered, rows: seq<HourRow>) {
    && (forall s :: s in gathered ==> gathered[s] == (MeansOf(rows, s), SpreadsOf(rows, s)))
    && (forall s :: s !in gathered ==> MeansOf(rows, s) == [] && SpreadsOf(rows, s) == [])
  }

  lemma HoursGrow(front: seq<HourRow>, last: HourRow)
    ensures MeansOf(front + [last], last.series) == MeansOf(front, last.series) + [last.spread.mean]
    ensures SpreadsOf(front + [last], last.series) == SpreadsOf(front, last.series) + [last.spread.stddev]
    ensures forall s :: s != last.series ==> RowsOf(front + [last], s) == RowsOf(front, s)
  {
    assert (front + [last])[..|front|] == front;
  }

  /** What was gathered, with one more row. */
  function GatheredWith(gathered: Gathered, row: HourRow): Gathered {
    var entry := if row.series in gathered then gathered[row.series] else ([], []);
    gathered[row.series := (entry.0 + [row.spread.mean], entry.1 + [row.spread.stddev])]
  }

  lemma GatheredGrows(gathered: Gathered, front: seq<HourRow>, row: HourRow)
    requires GatheredHolds(gathered, front)
    ensures GatheredHolds(GatheredWith(gathered, row), front + [row])
  {
    HoursGrow(front, row);
  }

  lemma GatheredOneMore(gathered: Gathered, rows: seq<HourRow>, i: nat)
    requires i < |rows| && GatheredHolds(gathered, rows[..i])
    ensures GatheredHolds(GatheredWith(gathered, rows[i]), rows[..i + 1])
  {
    assert rows[..i + 1] == rows[..i] + [rows[i]];
    GatheredGrows(gathered, rows[..i], rows[i]);
  }

  lemma NothingGathered(rows: seq<HourRow>)
    requires rows == []
    ensures GatheredHolds(map[], rows)
  {
  }

  method GatherHours(rows: seq<HourRow>) returns (gathered: Gathered)
    ensures GatheredHolds(gathered, rows)
  {
    gathered := map[];
    NothingGathered(rows[..0]);
    for i := 0 to |rows|
      invariant GatheredHolds(gathered, rows[..i])
    {
      GatheredOneMore(gathered, rows, i);
      var row := rows[i];
      var entry := if row.series in gathered then gathered[row.series] else ([], []);
      gathered := gathered[row.series := (entry.0 + [row.spread.mean], entry.1 + [row.spread.stddev])];
    }
    assert rows[..|rows|] == rows;
  }

  ghost predicate BaselinesHold(baselines: map<Series, Baseline>, rows: seq<HourRow>) {
    forall s :: (if s in baselines then Some(baselines[s]) else None) == BaselineIn(rows, s)
  }

  method FoldOne(means: seq<real>, spreads: seq<real>) returns (r: Option<Baseline>)
    ensures r == BaselineOf(means, spreads)
  {
    var a := new real[|means|](i requires 0 <= i < |means| => means[i]);
    var b := new real[|spreads|](i requires 0 <= i < |spreads| => spreads[i]);
    assert a[..] == means && b[..] == spreads;
    r := FoldBaseline(a, b);
  }

  method FoldAll(gathered: Gathered, ghost rows: seq<HourRow>) returns (baselines: map<Series, Baseline>)
    requires GatheredHolds(gathered, rows)
    ensures BaselinesHold(baselines, rows)
  {
    baselines := map[];
    var left := gathered.Keys;
    while left != {}
      invariant left <= gathered.Keys
      invariant forall s :: s !in left ==> (if s in baselines then Some(baselines[s]) else None) == BaselineIn(rows, s)
      invariant forall s :: s in left ==> s !in baselines
      decreases |left|
    {
      var s :| s in left;
      var one := FoldOne(gathered[s].0, gathered[s].1);
      if one.Some? {
        baselines := baselines[s := one.value];
      }
      left := left - {s};
    }
  }

  // A batched answer and a single one say the same about a series.

  lemma {:induction false} RowsOfStaysUnrepeated(rows: seq<HourRow>, series: Series)
    requires Unrepeated(rows)
    ensures Unrepeated(RowsOf(rows, series))
  {
    if rows != [] {
      var front, last := rows[..|rows| - 1], rows[|rows| - 1];
      RowsOfStaysUnrepeated(front, series);
      assert last !in front;
      var kept := RowsOf(front, series);
      assert forall i :: 0 <= i < |kept| ==> kept[i] in kept;
    }
  }

  /** However the database orders its rows, a series has one baseline. */
  lemma BaselineIsOne(all: seq<HourRow>, one: seq<HourRow>, tables: Tables, now: int, series: Series)
    requires AnswersHours(all, tables, now, None) && AnswersHours(one, tables, now, Some(series))
    ensures BaselineIn(all, series) == BaselineIn(one, series)
  {
    var a, b := RowsOf(all, series), RowsOf(one, series);
    RowsOfStaysUnrepeated(all, series);
    RowsOfStaysUnrepeated(one, series);
    assert forall row :: row in a <==> row in b;
    SameMembersRearrange(a, b);
    MappedIgnoresOrder(a, b, MeanOf());
    MappedIgnoresOrder(a, b, StddevOf());
    BaselineIgnoresOrder(MeansOf(all, series), MeansOf(one, series), SpreadsOf(all, series), SpreadsOf(one, series));
  }

  lemma WindowsAreOne(all: seq<WindowRow>, one: seq<WindowRow>, tables: Tables, since: int, series: Series)
    requires AnswersWindows(all, tables, since, None) && AnswersWindows(one, tables, since, Some(series))
    ensures Picked(all, series) == Picked(one, series)
  {
    RecentIsUnique(Picked(all, series), Picked(one, series), tables, series, since);
  }

  /** Why a series would alarm now, given its rows, or nothing. */
  function Explained(recent: seq<(int, real)>, baseline: Option<Baseline>, now: int): Option<Explanation> {
    if recent == [] || baseline.None? then None
    else
      match Judge(recent, baseline.value)
      case None => None
      case Some(verdict) => Some(BaselineDeviation(HourOf(now), verdict, baseline.value))
  }

  // The pass over the fleet.

  /** Raise in order, looking only at what stood when the pass began. */
  function RaiseAll(book: Book, order: seq<Series>, open: set<Series>, why: Series -> Option<Explanation>): Book
    decreases |order|
  {
    if order == [] then book
    else
      var s := order[0];
      RaiseAll(if why(s).Some? && s !in open then RaiseOf(book, OfSeries(s), why(s).value)
        else book, order[1..], open, why)
  }

  /** Examine in order, looking each time at what stands then. */
  ghost function ExamineAll(book: Book, order: seq<Series>, why: Series -> Option<Explanation>): Book
    decreases |order|
  {
    if order == [] then book
    else
      var s := order[0];
      ExamineAll(if why(s).Some? && !IsStanding(book, OfSeries(s)) then RaiseOf(book, OfSeries(s), why(s).value)
        else book, order[1..], why)
  }

  lemma RaiseStands(book: Book, subject: Subject, explanation: Explanation, other: Subject)
    requires BookHolds(book) && other != subject
    ensures IsStanding(RaiseOf(book, subject, explanation), other) <==> IsStanding(book, other)
  {
    var after := RaiseOf(book, subject, explanation);
    if IsStanding(book, other) {
      var id :| Standing(book, id) && book.alarms[id].subject == other;
      assert AlarmHolds(book, id);
      assert Standing(after, id) && after.alarms[id].subject == other;
    }
    if IsStanding(after, other) {
      var id :| Standing(after, id) && after.alarms[id].subject == other;
      assert Standing(book, id) && book.alarms[id].subject == other;
    }
  }

  /** One snapshot at the start serves as well as looking again before every raise. */
  lemma {:induction false} SnapshotSuffices(book: Book, order: seq<Series>, open: set<Series>,
                                            why: Series -> Option<Explanation>)
    requires BookHolds(book) && Unrepeated(order)
    requires forall s :: s in order ==> (s in open <==> IsStanding(book, OfSeries(s)))
    ensures RaiseAll(book, order, open, why) == ExamineAll(book, order, why)
    decreases |order|
  {
    if order != [] {
      var s := order[0];
      assert forall i :: 0 <= i < |order[1..]| ==> order[1..][i] == order[i + 1];
      if why(s).Some? && s !in open {
        var raised := RaiseOf(book, OfSeries(s), why(s).value);
        RaiseKeepsBook(book, OfSeries(s), why(s).value);
        forall t | t in order[1..] ensures t in open <==> IsStanding(raised, OfSeries(t)) {
          assert t != s;
          RaiseStands(book, OfSeries(s), why(s).value, OfSeries(t));
        }
        SnapshotSuffices(raised, order[1..], open, why);
      } else {
        SnapshotSuffices(book, order[1..], open, why);
      }
    }
  }

  /** The series of `order` that `keep` has. */
  function Kept(order: seq<Series>, keep: set<Series>): (r: seq<Series>)
    ensures forall s :: s in r <==> s in order && s in keep
  {
    if order == [] then []
    else if order[0] in keep then [order[0]] + Kept(order[1..], keep) else Kept(order[1..], keep)
  }

  lemma {:induction false} QuietSeriesDoNothing(book: Book, order: seq<Series>, keep: set<Series>,
                                                why: Series -> Option<Explanation>)
    requires forall s :: s !in keep ==> why(s).None?
    ensures ExamineAll(book, order, why) == ExamineAll(book, Kept(order, keep), why)
    decreases |order|
  {
    if order != [] {
      var s := order[0];
      var raises := why(s).Some? && !IsStanding(book, OfSeries(s));
      var next := if raises then RaiseOf(book, OfSeries(s), why(s).value) else book;
      QuietSeriesDoNothing(next, order[1..], keep, why);
      if s in keep {
        assert Kept(order, keep)[1..] == Kept(order[1..], keep);
      }
    }
  }

  // Series in order.

  function MetricRank(metric: Metric): nat {
    match metric
    case SignalStrength => 0
    case SignalToNoise => 1
    case CarrierOffset => 2
    case DemodErrorRate => 3
    case SpectrumOccupancy => 4
  }

  lemma MetricsInOrder()
    ensures MetricRank(SignalStrength) < MetricRank(SignalToNoise) < MetricRank(CarrierOffset)
      < MetricRank(DemodErrorRate) < MetricRank(SpectrumOccupancy)
  {
  }

  predicate Before(a: Series, b: Series) {
    || a.node < b.node
    || (a.node == b.node && a.channel < b.channel)
    || (a.node == b.node && a.channel == b.channel && MetricRank(a.metric) < MetricRank(b.metric))
  }

  lemma BeforeIsTotal(a: Series, b: Series)
    ensures Before(a, b) || a == b || Before(b, a)
    ensures !(Before(a, b) && Before(b, a)) && !Before(a, a)
  {
  }

  predicate InOrder(order: seq<Series>) {
    forall i, j :: 0 <= i < j < |order| ==> Before(order[i], order[j])
  }

  lemma InOrderIsUnrepeated(order: seq<Series>)
    requires InOrder(order)
    ensures Unrepeated(order)
  {
  }

  lemma {:induction false} KeptStaysInOrder(order: seq<Series>, keep: set<Series>)
    requires InOrder(order)
    ensures InOrder(Kept(order, keep))
  {
    if order != [] {
      KeptStaysInOrder(order[1..], keep);
      var rest := Kept(order[1..], keep);
      forall j | 0 <= j < |rest| ensures Before(order[0], rest[j]) {
        assert rest[j] in order[1..];
      }
    }
  }

  lemma HeadIsFirst(a: seq<Series>, b: seq<Series>)
    requires InOrder(a) && InOrder(b) && a != [] && b != []
    requires forall s :: s in a <==> s in b
    ensures a[0] == b[0]
  {
    assert a[0] in b && b[0] in a;
    BeforeIsTotal(a[0], b[0]);
  }

  lemma NothingListed(order: seq<Series>)
    ensures (forall s :: s !in order) ==> order == []
  {
    if order != [] {
      assert order[0] in order;
    }
  }

  lemma TailHas(a: seq<Series>)
    requires InOrder(a) && a != []
    ensures forall s :: s in a[1..] <==> s in a && s != a[0]
  {
    assert a == [a[0]] + a[1..];
    InOrderIsUnrepeated(a);
  }

  /** There is one ascending list of a set of series. */
  lemma {:induction false} OrderIsUnique(a: seq<Series>, b: seq<Series>)
    requires InOrder(a) && InOrder(b) && forall s :: s in a <==> s in b
    ensures a == b
  {
    if a == [] {
      NothingListed(b);
    } else {
      assert a[0] in b;
      HeadIsFirst(a, b);
      TailHas(a);
      TailHas(b);
      OrderIsUnique(a[1..], b[1..]);
    }
  }

  predicate FirstOf(s: Series, keys: set<Series>) {
    s in keys && forall t :: t in keys ==> t == s || Before(s, t)
  }

  lemma {:induction false} HasFirst(keys: set<Series>) returns (s: Series)
    requires keys != {}
    ensures FirstOf(s, keys)
    decreases |keys|
  {
    s :| s in keys;
    var rest := keys - {s};
    assert forall t :: t in keys ==> t == s || t in rest;
    if rest != {} {
      var first := HasFirst(rest);
      BeforeIsTotal(first, s);
      if Before(first, s) {
        s := first;
      } else {
        forall t | t in keys ensures t == s || Before(s, t) {
          BeforeIsTotal(s, t);
        }
      }
    }
  }

  method Sorted(keys: set<Series>) returns (order: seq<Series>)
    ensures InOrder(order) && forall s :: s in order <==> s in keys
  {
    order := [];
    var left := keys;
    while left != {}
      invariant left <= keys && InOrder(order)
      invariant forall s :: s in order <==> s in keys && s !in left
      invariant forall s, t :: s in order && t in left ==> Before(s, t)
      decreases |left|
    {
      ghost var first := HasFirst(left);
      var s :| s in left && FirstOf(s, left);
      assert FirstOf(s, left);
      var rest := left - {s};
      forall t | t in rest ensures Before(s, t) {
        assert t in left && t != s;
      }
      assert forall i :: 0 <= i < |order| ==> order[i] in order;
      var listed := order + [s];
      assert forall t :: t in listed <==> t in order || t == s;
      order, left := listed, rest;
    }
  }

  // The two ways to run the detector.

  function SinceOf(now: int): int {
    now - HOUR
  }

  /** What one series' rows explain, from whichever answers hold them. */
  function Why(windows: seq<WindowRow>, hours: seq<HourRow>, now: int): Series -> Option<Explanation> {
    s => Explained(Picked(windows, s), BaselineIn(hours, s), now)
  }

  lemma WhyIs(windows: seq<WindowRow>, hours: seq<HourRow>, now: int, s: Series)
    ensures Why(windows, hours, now)(s) == Explained(Picked(windows, s), BaselineIn(hours, s), now)
  {
  }

  function RaiseOne(book: Book, s: Series, open: set<Series>, why: Option<Explanation>): Book {
    if why.Some? && s !in open then RaiseOf(book, OfSeries(s), why.value) else book
  }

  lemma RaiseAllSteps(book: Book, order: seq<Series>, i: nat, open: set<Series>, why: Series -> Option<Explanation>)
    requires i < |order|
    ensures RaiseAll(book, order[i..], open, why)
      == RaiseAll(RaiseOne(book, order[i], open, why(order[i])), order[i + 1..], open, why)
  {
    assert order[i..][0] == order[i] && order[i..][1..] == order[i + 1..];
  }

  /** Judge one series and raise, unless it stood in the snapshot. */
  method Consider(desk: AlarmDesk, s: Series, recent: seq<(int, real)>, baseline: Option<Baseline>, open: set<Series>,
                  now: int)
    requires recent != []
    modifies desk
    ensures desk.Contents() == RaiseOne(old(desk.Contents()), s, open, Explained(recent, baseline, now))
  {
    if baseline.None? {
      return;
    }
    var verdict := Judge(recent, baseline.value);
    if verdict.None? || s in open {
      return;
    }
    var id := desk.Raise(OfSeries(s), BaselineDeviation(HourOf(now), verdict.value, baseline.value));
  }

  function Lookup(baselines: map<Series, Baseline>, s: Series): Option<Baseline> {
    if s in baselines then Some(baselines[s]) else None
  }

  method RaiseInOrder(desk: AlarmDesk, order: seq<Series>, recent: map<Series, seq<(int, real)>>,
                      baselines: map<Series, Baseline>,
                      open: set<Series>, now: int, ghost why: Series -> Option<Explanation>)
    requires forall s :: s in order ==> s in recent && recent[s] != []
    requires forall s :: s in order ==> why(s) == Explained(recent[s], Lookup(baselines, s), now)
    modifies desk
    ensures desk.Contents() == RaiseAll(old(desk.Contents()), order, open, why)
  {
    assert order[0..] == order;
    for i := 0 to |order|
      invariant RaiseAll(desk.Contents(), order[i..], open, why) == RaiseAll(old(desk.Contents()), order, open, why)
    {
      var s := order[i];
      assert s in order;
      RaiseAllSteps(desk.Contents(), order, i, open, why);
      Consider(desk, s, recent[s], Lookup(baselines, s), open, now);
    }
    assert order[|order|..] == [];
  }

  /** One pass over the fleet: two batched queries, one snapshot of what stands, one raise after another. */
  method Run(desk: AlarmDesk, windows: seq<WindowRow>, hours: seq<HourRow>, now: int) returns (ghost order: seq<Series>)
    modifies desk
    ensures InOrder(order) && forall s :: s in order <==> s in WindowMap(windows, None)
    ensures desk.Contents() == RaiseAll(old(desk.Contents()), order, OpenSeries(old(desk.Contents())),
      Why(windows, hours, now))
  {
    var recent := GatherWindows(windows, None);
    var sorted := Sorted(recent.Keys);
    order := sorted;
    if recent == map[] {
      NothingListed(sorted);
      return;
    }
    var gathered := GatherHours(hours);
    var baselines := FoldAll(gathered, hours);
    var open := OpenSeries(desk.Contents());
    forall s | s in sorted ensures Why(windows, hours, now)(s) == Explained(recent[s], Lookup(baselines, s), now) {
      WhyIs(windows, hours, now, s);
    }
    RaiseInOrder(desk, sorted, recent, baselines, open, now, Why(windows, hours, now));
  }

  lemma ExamineOneIs(book: Book, s: Series, why: Series -> Option<Explanation>)
    ensures ExamineAll(book, [s], why) == RaiseOne(book, s, OpenSeries(book), why(s))
  {
    assert [s][1..] == [];
  }

  /** One series on its own, with its own queries. */
  method Examine(desk: AlarmDesk, windows: seq<WindowRow>, hours: seq<HourRow>, series: Series, now: int)
    modifies desk
    ensures desk.Contents() == ExamineAll(old(desk.Contents()), [series], Why(windows, hours, now))
  {
    ExamineOneIs(desk.Contents(), series, Why(windows, hours, now));
    var recent := GatherWindows(windows, Some(series));
    if series !in recent {
      WhyIs(windows, hours, now, series);
      return;
    }
    var gathered := GatherHours(hours);
    var baselines := FoldAll(gathered, hours);
    WhyIs(windows, hours, now, series);
    Consider(desk, series, recent[series], Lookup(baselines, series), OpenSeries(desk.Contents()), now);
  }

  lemma {:induction false} SameReasonsSameAlarms(book: Book, order: seq<Series>, a: Series -> Option<Explanation>,
                                                 b: Series -> Option<Explanation>)
    requires forall s :: s in order ==> a(s) == b(s)
    ensures ExamineAll(book, order, a) == ExamineAll(book, order, b)
    decreases |order|
  {
    if order != [] {
      var s := order[0];
      var next := if a(s).Some? && !IsStanding(book, OfSeries(s)) then RaiseOf(book, OfSeries(s), a(s).value) else book;
      SameReasonsSameAlarms(next, order[1..], a, b);
    }
  }

  /** The single queries' answers, one pair for each series. */
  datatype Answers = Answers(windows: map<Series, seq<WindowRow>>, hours: map<Series, seq<HourRow>>)

  ghost predicate AnswersEach(answers: Answers, tables: Tables, now: int, order: seq<Series>) {
    forall s :: s in order ==>
      && s in answers.windows && AnswersWindows(answers.windows[s], tables, SinceOf(now), Some(s))
      && s in answers.hours && AnswersHours(answers.hours[s], tables, now, Some(s))
  }

  function WhyEach(answers: Answers, now: int): Series -> Option<Explanation> {
    s => if s in answers.windows && s in answers.hours then Why(answers.windows[s], answers.hours[s], now)(s) else None
  }

  lemma WhyEachIs(answers: Answers, now: int, s: Series)
    requires s in answers.windows && s in answers.hours
    ensures WhyEach(answers, now)(s) == Explained(Picked(answers.windows[s], s), BaselineIn(answers.hours[s], s), now)
  {
    WhyIs(answers.windows[s], answers.hours[s], now, s);
  }

  lemma ReasonsAreOne(windows: seq<WindowRow>, hours: seq<HourRow>, answers: Answers, tables: Tables, now: int,
                      order: seq<Series>, s: Series)
    requires AnswersWindows(windows, tables, SinceOf(now), None) && AnswersHours(hours, tables, now, None)
    requires AnswersEach(answers, tables, now, order) && s in order
    ensures Why(windows, hours, now)(s) == WhyEach(answers, now)(s)
  {
    WindowsAreOne(windows, answers.windows[s], tables, SinceOf(now), s);
    BaselineIsOne(hours, answers.hours[s], tables, now, s);
    WhyIs(windows, hours, now, s);
    WhyEachIs(answers, now, s);
  }

  /**
    * The fleet-wide pass leaves exactly the book that examining, in ascending order, any list of
    * series leaves that has at least those with recent windows: same alarms, same numbers, same
    * explanations, in whatever order the database returned its rows.
    */
  lemma PassIsExaminingEach(book: Book, tables: Tables, now: int, windows: seq<WindowRow>, hours: seq<HourRow>,
                            order: seq<Series>, list: seq<Series>, answers: Answers)
    requires BookHolds(book)
    requires AnswersWindows(windows, tables, SinceOf(now), None) && AnswersHours(hours, tables, now, None)
    requires InOrder(order) && forall s :: s in order <==> s in WindowMap(windows, None)
    requires InOrder(list) && forall s :: s in order ==> s in list
    requires AnswersEach(answers, tables, now, list)
    ensures RaiseAll(book, order, OpenSeries(book), Why(windows, hours, now))
      == ExamineAll(book, list, WhyEach(answers, now))
  {
    var why := Why(windows, hours, now);
    var keys := WindowMap(windows, None).Keys;
    InOrderIsUnrepeated(order);
    SnapshotSuffices(book, order, OpenSeries(book), why);
    KeptStaysInOrder(list, keys);
    OrderIsUnique(order, Kept(list, keys));
    forall s | s !in keys ensures why(s).None? {
      assert Picked(windows, s) == [];
    }
    QuietSeriesDoNothing(book, list, keys, why);
    forall s | s in list ensures why(s) == WhyEach(answers, now)(s) {
      ReasonsAreOne(windows, hours, answers, tables, now, list, s);
    }
    SameReasonsSameAlarms(book, list, why, WhyEach(answers, now));
  }

  // What the detector alarms for, in plain terms.

  lemma {:induction false} RaiseAllKeeps(book: Book, order: seq<Series>, open: set<Series>,
                                         why: Series -> Option<Explanation>, id: int)
    requires BookHolds(book) && id in book.alarms
    ensures var after := RaiseAll(book, order, open, why);
      id in after.alarms && after.alarms[id] == book.alarms[id] && book.nextAlarm <= after.nextAlarm
    decreases |order|
  {
    if order != [] {
      var s := order[0];
      RaiseAllUnfolds(book, order, open, why);
      RaiseOneHolds(book, s, open, why(s));
      RaiseAllKeeps(RaiseOne(book, s, open, why(s)), order[1..], open, why, id);
    }
  }

  lemma RaiseAllUnfolds(book: Book, order: seq<Series>, open: set<Series>, why: Series -> Option<Explanation>)
    requires order != []
    ensures RaiseAll(book, order, open, why)
      == RaiseAll(RaiseOne(book, order[0], open, why(order[0])), order[1..], open, why)
  {
  }

  lemma RaiseOneHolds(book: Book, s: Series, open: set<Series>, why: Option<Explanation>)
    requires BookHolds(book)
    ensures BookHolds(RaiseOne(book, s, open, why))
    ensures forall id :: id in book.alarms ==>
      id in RaiseOne(book, s, open, why).alarms && RaiseOne(book, s, open, why).alarms[id] == book.alarms[id]
    ensures book.nextAlarm <= RaiseOne(book, s, open, why).nextAlarm
  {
    forall id | id in book.alarms ensures id < book.nextAlarm {
      assert AlarmHolds(book, id);
    }
    if why.Some? && s !in open {
      RaiseKeepsBook(book, OfSeries(s), why.value);
    }
  }

  /** A new alarm on a series, as the detector opens it. */
  predicate IsRaised(before: Book, after: Book, id: int, s: Series, explanation: Explanation) {
    id !in before.alarms && id in after.alarms && after.alarms[id] == Alarm(OfSeries(s), Open, explanation, None, None)
  }

  /** A listed series with a reason that did not stand in the snapshot gets its alarm. */
  lemma {:induction false} RaiseAllRaises(book: Book, order: seq<Series>, open: set<Series>,
                                          why: Series -> Option<Explanation>, s: Series) returns (id: int)
    requires BookHolds(book) && s in order && s !in open && why(s).Some?
    ensures book.nextAlarm <= id && IsRaised(book, RaiseAll(book, order, open, why), id, s, why(s).value)
    decreases |order|
  {
    var first := order[0];
    var next := RaiseOne(book, first, open, why(first));
    RaiseOneHolds(book, first, open, why(first));
    if first == s {
      id := book.nextAlarm;
      assert id in book.alarms ==> AlarmHolds(book, id);
      RaiseAllKeeps(next, order[1..], open, why, id);
    } else {
      id := RaiseAllRaises(next, order[1..], open, why, s);
    }
  }

  /** No other alarm is new. */
  lemma {:induction false} RaiseAllOnlyRaises(book: Book, order: seq<Series>, open: set<Series>,
                                              why: Series -> Option<Explanation>, id: int) returns (s: Series)
    requires BookHolds(book) && id in RaiseAll(book, order, open, why).alarms && id !in book.alarms
    ensures s in order && s !in open && why(s).Some?
    ensures IsRaised(book, RaiseAll(book, order, open, why), id, s, why(s).value)
    decreases |order|
  {
    assert order != [];
    var first := order[0];
    var next := RaiseOne(book, first, open, why(first));
    RaiseOneHolds(book, first, open, why(first));
    if id in next.alarms {
      s := first;
      RaiseAllKeeps(next, order[1..], open, why, id);
    } else {
      s := RaiseAllOnlyRaises(next, order[1..], open, why, id);
    }
  }

  /** What makes a series alarm: three windows, a baseline, and all of the windows on one side of its band. */
  ghost predicate Deviates(recent: seq<(int, real)>, baseline: Option<Baseline>) {
    |recent| >= 3 && baseline.Some? && (AllUnder(recent, baseline.value) || AllOver(recent, baseline.value))
  }

  /** What such an alarm says: the hour, the newest window, its side, and the baseline. */
  function DeviationIn(recent: seq<(int, real)>, baseline: Baseline, now: int): Explanation
    requires recent != []
  {
    BaselineDeviation(now / 3_600 % 24, Verdict(recent[0].0, recent[0].1, recent[0].1 < baseline.center), baseline)
  }

  lemma WhyIsExact(windows: seq<WindowRow>, hours: seq<HourRow>, now: int, s: Series)
    ensures var recent, baseline, why := Picked(windows, s), BaselineIn(hours, s), Why(windows, hours, now)(s);
      && (why.Some? <==> Deviates(recent, baseline))
      && (why.Some? ==> why == Some(DeviationIn(recent, baseline.value, now)))
  {
    WhyIs(windows, hours, now, s);
    if BaselineIn(hours, s).Some? {
      JudgeIsExact(Picked(windows, s), BaselineIn(hours, s).value);
    }
  }

  lemma PassAlarmsOnly(book: Book, windows: seq<WindowRow>, hours: seq<HourRow>, now: int, order: seq<Series>,
                       s: Series, id: int, explanation: Explanation)
    requires BookHolds(book)
    requires IsRaised(book, RaiseAll(book, order, OpenSeries(book), Why(windows, hours, now)), id, s, explanation)
    ensures Deviates(Picked(windows, s), BaselineIn(hours, s)) && !IsStanding(book, OfSeries(s))
    ensures explanation == DeviationIn(Picked(windows, s), BaselineIn(hours, s).value, now)
  {
    var t := RaiseAllOnlyRaises(book, order, OpenSeries(book), Why(windows, hours, now), id);
    WhyIsExact(windows, hours, now, s);
  }

  lemma PassAlarmsAll(book: Book, windows: seq<WindowRow>, hours: seq<HourRow>, now: int, order: seq<Series>,
                      s: Series) returns (id: int)
    requires BookHolds(book) && forall t :: t in order <==> t in WindowMap(windows, None)
    requires Deviates(Picked(windows, s), BaselineIn(hours, s)) && !IsStanding(book, OfSeries(s))
    ensures IsRaised(book, RaiseAll(book, order, OpenSeries(book), Why(windows, hours, now)), id, s,
      DeviationIn(Picked(windows, s), BaselineIn(hours, s).value, now))
  {
    WhyIsExact(windows, hours, now, s);
    assert s in order;
    id := RaiseAllRaises(book, order, OpenSeries(book), Why(windows, hours, now), s);
  }

  /**
    * The pass opens an alarm on exactly the series whose newest windows all lie on one side of their
    * band and that had none standing; it says when, what was read, on which side, and of which baseline.
    */
  lemma {:induction false} PassAlarmsExactly(book: Book, windows: seq<WindowRow>, hours: seq<HourRow>, now: int,
                                             order: seq<Series>, s: Series, after: Book)
    requires BookHolds(book) && forall t :: t in order <==> t in WindowMap(windows, None)
    requires after == RaiseAll(book, order, OpenSeries(book), Why(windows, hours, now))
    ensures (exists id, explanation :: IsRaised(book, after, id, s, explanation)) <==>
      Deviates(Picked(windows, s), BaselineIn(hours, s)) && !IsStanding(book, OfSeries(s))
    ensures forall id, explanation :: IsRaised(book, after, id, s, explanation) ==>
      Deviates(Picked(windows, s), BaselineIn(hours, s))
      && explanation == DeviationIn(Picked(windows, s), BaselineIn(hours, s).value, now)
  {
    forall id, explanation | IsRaised(book, after, id, s, explanation)
      ensures Deviates(Picked(windows, s), BaselineIn(hours, s)) && !IsStanding(book, OfSeries(s))
      ensures explanation == DeviationIn(Picked(windows, s), BaselineIn(hours, s).value, now)
    {
      PassAlarmsOnly(book, windows, hours, now, order, s, id, explanation);
    }
    if Deviates(Picked(windows, s), BaselineIn(hours, s)) && !IsStanding(book, OfSeries(s)) {
      var id := PassAlarmsAll(book, windows, hours, now, order, s);
    }
  }

  /** Examining one series does for it what the pass does. */
  lemma ExamineAlarmsExactly(book: Book, windows: seq<WindowRow>, hours: seq<HourRow>, now: int, s: Series)
    requires BookHolds(book)
    ensures var after := ExamineAll(book, [s], Why(windows, hours, now));
      var recent, baseline := Picked(windows, s), BaselineIn(hours, s);
      if Deviates(recent, baseline) && !IsStanding(book, OfSeries(s))
      then IsRaised(book, after, book.nextAlarm, s, DeviationIn(recent, baseline.value, now))
      else after == book
  {
    ExamineOneIs(book, s, Why(windows, hours, now));
    WhyIsExact(windows, hours, now, s);
    assert book.nextAlarm in book.alarms ==> AlarmHolds(book, book.nextAlarm);
  }

  /**
    * If most hours read within bounds and the newest three windows are far on one side of them, the
    * pass and the single examination both open an alarm that says so, whatever the other hours were.
    */
  lemma {:induction false} OutliersRaiseAlarms(book: Book, windows: seq<WindowRow>, hours: seq<HourRow>, now: int,
                                               order: seq<Series>, s: Series, low: real, high: real, within: real,
                                               under: bool) returns (id: int)
    requires BookHolds(book) && forall t :: t in order <==> t in WindowMap(windows, None)
    requires MostlyIn(MeansOf(hours, s), SpreadsOf(hours, s), low, high, within)
    requires |Picked(windows, s)| >= 3 && AllFar(Picked(windows, s), low, high, within, under)
    requires !IsStanding(book, OfSeries(s))
    ensures BaselineIn(hours, s).Some?
    ensures var newest := Picked(windows, s)[0];
      var explanation := BaselineDeviation(
        now / 3_600 % 24, Verdict(newest.0, newest.1, under), BaselineIn(hours, s).value);
      && IsRaised(book, RaiseAll(book, order, OpenSeries(book), Why(windows, hours, now)), id, s, explanation)
      && IsRaised(book, ExamineAll(book, [s], Why(windows, hours, now)), book.nextAlarm, s, explanation)
  {
    var recent := Picked(windows, s);
    OutliersAreJudged(MeansOf(hours, s), SpreadsOf(hours, s), low, high, within, recent, under);
    WhyIs(windows, hours, now, s);
    assert s in order;
    id := RaiseAllRaises(book, order, OpenSeries(book), Why(windows, hours, now), s);
    ExamineOneIs(book, s, Why(windows, hours, now));
    assert book.nextAlarm in book.alarms ==> AlarmHolds(book, book.nextAlarm);
  }

  /** Windows from an instant on, in strictly falling order. */
  ghost function StartsIn(recent: seq<(int, real)>): set<int> {
    set i | 0 <= i < |recent| :: recent[i].0
  }

  lemma {:induction false} StartsAreMany(recent: seq<(int, real)>)
    requires Descending(recent)
    ensures |StartsIn(recent)| == |recent|
  {
    if recent != [] {
      var front, last := recent[..|recent| - 1], recent[|recent| - 1];
      StartsAreMany(front);
      assert last.0 !in StartsIn(front);
      assert StartsIn(recent) == StartsIn(front) + {last.0};
    }
  }

  lemma SubsetIsSmaller(a: set<int>, b: set<int>)
    requires a <= b
    ensures |a| <= |b|
  {
    assert b * a == a;
    assert |b - a| == |b| - |b * a|;
  }

  lemma FewWindowsAreAllSeen(recent: seq<(int, real)>, tables: Tables, series: Series, since: int, start: int)
    requires IsRecent(recent, tables, series, since)
    requires start in StartsSince(tables, series, since) && !Has(recent, start)
    ensures |recent| == 3
  {
    StartsAreMany(recent);
    assert start !in StartsIn(recent);
    assert StartsIn(recent) + {start} <= StartsSince(tables, series, since) by {
      forall at | at in StartsIn(recent) ensures at in StartsSince(tables, series, since) {
        assert (series, at) in tables.windows;
      }
    }
    SubsetIsSmaller(StartsIn(recent) + {start}, StartsSince(tables, series, since));
  }

  /**
    * The windows a pass looks at are the newest of the last hour, at most three, newest first: a
    * stored one it does not see is older than three that it does.
    */
  lemma PassSeesTheLastHour(windows: seq<WindowRow>, tables: Tables, now: int, s: Series)
    requires AnswersWindows(windows, tables, SinceOf(now), None)
    ensures var recent := Picked(windows, s);
      && |recent| <= 3
      && (forall i :: 0 <= i < |recent| ==>
            recent[i].0 >= now - 3_600 && (s, recent[i].0) in tables.windows
            && tables.windows[(s, recent[i].0)] == recent[i].1)
      && (forall i, j :: 0 <= i < j < |recent| ==> recent[j].0 < recent[i].0)
      && (forall start :: (s, start) in tables.windows && start >= now - 3_600 && !Has(recent, start) ==>
            |recent| == 3 && start < recent[2].0)
  {
    var recent := Picked(windows, s);
    assert IsRecent(recent, tables, s, SinceOf(now));
    forall start | (s, start) in tables.windows && start >= now - 3_600 && !Has(recent, start)
      ensures |recent| == 3 && start < recent[2].0
    {
      assert start in StartsSince(tables, s, SinceOf(now));
      FewWindowsAreAllSeen(recent, tables, s, SinceOf(now), start);
    }
  }
}
