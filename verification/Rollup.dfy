/**
  * The rollup store: raw windows are summarised bucket by bucket, and only then pruned.
  * `MeasurementStore` is the two tables and the jobs over them; the functions beside it say what
  * each job leaves behind.
  */
module Rollup {
  import opened Wrappers
  import opened Fleet
  import opened Buckets
  import opened Pooling
  import opened PoolingOrder
  import opened Rearrangement

  const MAX_BUCKETS_PER_RUN: nat := 512

  /** One stored window; the server accepts it only with a positive count and ordered extremes. */
  datatype Row = Row(series: Series, start: int, window: Window)

  datatype RollupKey = RollupKey(series: Series, resolution: Resolution, start: int)

  type Rollups = map<RollupKey, Pooled>

  datatype Tables = Tables(raw: seq<Row>, rollups: Rollups)

  predicate AcceptedRow(row: Row) {
    row.window.count > 0 && row.window.min <= row.window.max
  }

  predicate Within(row: Row, from: int, to: int) {
    from <= row.start < to
  }

  /** The windows of one series that start in `from..to`, in table order. */
  function WindowsOf(rows: seq<Row>, series: Series, from: int, to: int): seq<Window> {
    if rows == [] then []
    else
      var last := rows[|rows| - 1];
      var front := WindowsOf(rows[..|rows| - 1], series, from, to);
      if last.series == series && Within(last, from, to) then front + [last.window] else front
  }

  /** What the rows in `from..to` say about one series, or nothing when it is silent there. */
  function PooledOf(rows: seq<Row>, series: Series, from: int, to: int): Option<Pooled> {
    Finish(AbsorbAll(WindowsOf(rows, series, from, to)))
  }

  function RollupOf(rows: seq<Row>, series: Series, resolution: Resolution, start: int): Option<Pooled> {
    PooledOf(rows, series, start, BucketEnd(resolution, start))
  }

  function SeriesOf(rows: seq<Row>): set<Series> {
    set row | row in rows :: row.series
  }

  /** Every rollup row one bucket folds to. */
  function Folded(raw: seq<Row>, resolution: Resolution, start: int): (folded: Rollups)
    ensures forall key: RollupKey :: key in folded <==>
      key.resolution == resolution && key.start == start && RollupOf(raw, key.series, resolution, start).Some?
    ensures forall key :: key in folded ==> folded[key] == RollupOf(raw, key.series, resolution, start).value
  {
    SilentSeriesHaveNoRollup(raw, resolution, start);
    var keys := set s | s in SeriesOf(raw) && RollupOf(raw, s, resolution, start).Some? ::
      RollupKey(s, resolution, start);
    map key | key in keys :: RollupOf(raw, key.series, resolution, start).value
  }

  lemma {:induction false} SilentSeriesHaveNoWindows(rows: seq<Row>, series: Series, from: int, to: int)
    requires series !in SeriesOf(rows)
    ensures WindowsOf(rows, series, from, to) == []
  {
    if rows != [] {
      var front := rows[..|rows| - 1];
      assert rows[|rows| - 1] in rows;
      assert forall row :: row in front ==> row in rows;
      SilentSeriesHaveNoWindows(front, series, from, to);
    }
  }

  lemma SilentSeriesHaveNoRollup(rows: seq<Row>, resolution: Resolution, start: int)
    ensures forall s :: s !in SeriesOf(rows) ==> RollupOf(rows, s, resolution, start).None?
  {
    forall s | s !in SeriesOf(rows) ensures RollupOf(rows, s, resolution, start).None? {
      SilentSeriesHaveNoWindows(rows, s, start, BucketEnd(resolution, start));
    }
  }

  /** Insert, leaving rows that are already there as they are. */
  function InsertIgnoring(table: Rollups, folded: Rollups): Rollups {
    folded + table
  }

  predicate Stored(rollups: Rollups, resolution: Resolution, start: int) {
    exists key :: key in rollups && key.resolution == resolution && key.start == start
  }

  /** The buckets from `from` on that hold a rollup of any series. */
  function BucketsFrom(rollups: Rollups, resolution: Resolution, from: int): (r: set<int>)
    ensures forall b :: b in r <==> from <= b && Stored(rollups, resolution, b)
  {
    set key | key in rollups && key.resolution == resolution && key.start >= from :: key.start
  }

  function BuildBucket(tables: Tables, resolution: Resolution, start: int): Tables {
    tables.(rollups := InsertIgnoring(tables.rollups, Folded(tables.raw, resolution, start)))
  }

  /** The catch-up loop from `start` on, with room for `room` more builds. */
  function RunFrom(tables: Tables, resolution: Resolution, start: int, now: int, room: nat): (r: Tables)
    ensures r.raw == tables.raw
    decreases now - start
  {
    var end := BucketEnd(resolution, start);
    if room == 0 || end > now then tables
    else if Stored(tables.rollups, resolution, start) then RunFrom(tables, resolution, end, now, room)
    else RunFrom(BuildBucket(tables, resolution, start), resolution, end, now, room - 1)
  }

  function EarliestOf(rows: seq<Row>): (r: Option<int>)
    ensures r.None? <==> rows == []
    ensures r.Some? ==> forall row :: row in rows ==> r.value <= row.start
  {
    if rows == [] then None
    else
      var last := rows[|rows| - 1];
      var front := EarliestOf(rows[..|rows| - 1]);
      if front.Some? && front.value <= last.start then front else Some(last.start)
  }

  function RunOf(tables: Tables, resolution: Resolution, now: int, room: nat): (r: Tables)
    ensures r.raw == tables.raw
  {
    match EarliestOf(tables.raw)
    case None => tables
    case Some(at) => RunFrom(tables, resolution, BucketStart(resolution, at), now, room)
  }

  function StartingFrom(rows: seq<Row>, before: int): (r: seq<Row>)
    ensures forall row :: row in r <==> row in rows && before <= row.start
  {
    if rows == [] then []
    else
      var last := rows[|rows| - 1];
      var front := StartingFrom(rows[..|rows| - 1], before);
      assert rows == rows[..|rows| - 1] + [last];
      if last.start < before then front else front + [last]
  }

  function WithoutOlder(rollups: Rollups, resolution: Resolution, before: int): Rollups {
    map key | key in rollups && !(key.resolution == resolution && key.start < before) :: rollups[key]
  }

  lemma {:induction false} PruningCounts(rows: seq<Row>, before: int)
    ensures |StartingFrom(rows, before)| <= |rows|
    ensures forall row :: multiset(StartingFrom(rows, before))[row] == if row.start < before then 0
      else multiset(rows)[row]
  {
    if rows != [] {
      var front, last := rows[..|rows| - 1], rows[|rows| - 1];
      assert rows == front + [last];
      PruningCounts(front, before);
    }
  }

  lemma PruningDropsExactly(rollups: Rollups, resolution: Resolution, before: int)
    ensures forall other, start :: Stored(WithoutOlder(rollups, resolution, before), other, start) <==>
      Stored(rollups, other, start) && !(other == resolution && start < before)
  {
    var kept := WithoutOlder(rollups, resolution, before);
    forall other, start ensures Stored(kept, other, start)
      <==> Stored(rollups, other, start) && !(other == resolution && start < before) {
      if !(other == resolution && start < before) {
        if key :| key in rollups && key.resolution == other && key.start == start {
          assert key in kept;
        }
      }
    }
  }

  lemma {:induction false} FewerMembers(a: set<RollupKey>, b: set<RollupKey>)
    requires a <= b
    ensures |a| <= |b|
  {
    if a != {} {
      var x :| x in a;
      FewerMembers(a - {x}, b - {x});
    }
  }

  lemma FewerKeys(a: Rollups, b: Rollups)
    requires forall key :: key in a ==> key in b
    ensures |a| <= |b|
  {
    FewerMembers(a.Keys, b.Keys);
  }

  /** Buckets that start from the horizon on read as before the prune; buckets that end by it are silent. */
  lemma {:induction false} PruningKeepsYoungBuckets(rows: seq<Row>, before: int, series: Series, from: int, to: int)
    ensures before <= from ==>
      WindowsOf(StartingFrom(rows, before), series, from, to) == WindowsOf(rows, series, from, to)
    ensures to <= before ==> WindowsOf(StartingFrom(rows, before), series, from, to) == []
  {
    if rows != [] {
      var front, last := rows[..|rows| - 1], rows[|rows| - 1];
      PruningKeepsYoungBuckets(front, before, series, from, to);
      WindowsGrow(StartingFrom(front, before), last, series, from, to);
    }
  }

  // The jobs, as the server runs them.

  /** The defined values of `f` over a set. */
  function Pick(f: Series -> Option<Pooled>, over: set<Series>): map<Series, Pooled> {
    map s | s in over && f(s).Some? :: f(s).value
  }

  lemma PickGrows(f: Series -> Option<Pooled>, over: set<Series>, s: Series)
    requires s !in over
    ensures Pick(f, over + {s}) == if f(s).Some? then Pick(f, over)[s := f(s).value] else Pick(f, over)
  {
  }

  function PooledIn(rows: seq<Row>, from: int, to: int): Series -> Option<Pooled> {
    s => PooledOf(rows, s, from, to)
  }

  function FoldOf(rows: seq<Row>, from: int, to: int): map<Series, Pooled> {
    Pick(PooledIn(rows, from, to), SeriesOf(rows))
  }

  lemma WindowsGrow(front: seq<Row>, last: Row, series: Series, from: int, to: int)
    ensures WindowsOf(front + [last], series, from, to)
         == WindowsOf(front, series, from, to)
           + (if last.series == series && from <= last.start < to then [last.window] else [])
  {
    assert (front + [last])[..|front|] == front;
  }

  lemma GroupTakes(front: seq<Row>, last: Row, from: int, to: int)
    requires Within(last, from, to)
    ensures AbsorbAll(WindowsOf(front + [last], last.series, from, to))
         == Absorb(AbsorbAll(WindowsOf(front, last.series, from, to)), last.window)
    ensures forall s :: s != last.series ==> WindowsOf(front + [last], s, from, to) == WindowsOf(front, s, from, to)
  {
    forall s | s != last.series ensures WindowsOf(front + [last], s, from, to) == WindowsOf(front, s, from, to) {
      WindowsGrow(front, last, s, from, to);
    }
    WindowsGrow(front, last, last.series, from, to);
    AbsorbUnsnoc(WindowsOf(front, last.series, from, to), last.window);
  }

  function Selected(rows: seq<Row>, from: int, to: int): (r: seq<Row>)
    ensures forall row :: row in r <==> row in rows && Within(row, from, to)
  {
    if rows == [] then []
    else
      var last := rows[|rows| - 1];
      var front := Selected(rows[..|rows| - 1], from, to);
      assert rows == rows[..|rows| - 1] + [last];
      if Within(last, from, to) then front + [last] else front
  }

  lemma {:induction false} SelectedWindows(rows: seq<Row>, series: Series, from: int, to: int)
    ensures WindowsOf(Selected(rows, from, to), series, from, to) == WindowsOf(rows, series, from, to)
  {
    if rows != [] {
      var front, last := rows[..|rows| - 1], rows[|rows| - 1];
      assert rows == front + [last];
      SelectedWindows(front, series, from, to);
      WindowsGrow(front, last, series, from, to);
      WindowsGrow(Selected(front, from, to), last, series, from, to);
    }
  }

  /** The groups while a bucket is folded: one object a series, none shared. */
  ghost predicate GroupsHold(groups: map<Series, Group>, rows: seq<Row>, from: int, to: int)
    reads groups.Values
  {
    && groups.Keys == SeriesOf(rows)
    && (forall s, t :: s in groups && t in groups && s != t ==> groups[s] != groups[t])
    && (forall s :: s in groups ==> groups[s].State() == AbsorbAll(WindowsOf(rows, s, from, to)))
  }

  lemma SeriesGrow(front: seq<Row>, row: Row)
    ensures SeriesOf(front + [row]) == SeriesOf(front) + {row.series}
  {
  }

  method PushRow(groups: map<Series, Group>, row: Row, ghost front: seq<Row>, ghost from: int, ghost to: int)
    returns (r: map<Series, Group>)
    requires GroupsHold(groups, front, from, to) && Within(row, from, to)
    modifies if row.series in groups then {groups[row.series]} else {}
    ensures GroupsHold(r, front + [row], from, to)
    ensures forall s :: s in r ==> (s in groups && r[s] == groups[s]) || fresh(r[s])
  {
    SeriesGrow(front, row);
    GroupTakes(front, row, from, to);
    SilentUntilNow(front, row.series, from, to);
    r := groups;
    if row.series !in groups {
      var group := new Group();
      r := r[row.series := group];
    }
    r[row.series].Push(row.window);
  }

  lemma SilentUntilNow(rows: seq<Row>, series: Series, from: int, to: int)
    ensures series !in SeriesOf(rows) ==> AbsorbAll(WindowsOf(rows, series, from, to)) == EMPTY
  {
    if series !in SeriesOf(rows) {
      SilentSeriesHaveNoWindows(rows, series, from, to);
    }
  }

  method Fold(rows: seq<Row>, from: int, to: int) returns (r: map<Series, Pooled>)
    requires forall row :: row in rows ==> Within(row, from, to)
    ensures r == FoldOf(rows, from, to)
  {
    var groups: map<Series, Group> := map[];
    for i := 0 to |rows|
      invariant GroupsHold(groups, rows[..i], from, to)
      invariant forall s :: s in groups ==> fresh(groups[s])
    {
      assert rows[..i + 1] == rows[..i] + [rows[i]];
      groups := PushRow(groups, rows[i], rows[..i], from, to);
    }
    assert rows[..|rows|] == rows;
    r := FinishAll(groups, rows, from, to);
  }

  method FinishAll(groups: map<Series, Group>, ghost rows: seq<Row>, ghost from: int, ghost to: int)
    returns (r: map<Series, Pooled>)
    requires GroupsHold(groups, rows, from, to)
    ensures r == FoldOf(rows, from, to)
  {
    ghost var f := PooledIn(rows, from, to);
    r := map[];
    var left := groups.Keys;
    while left != {}
      invariant left <= groups.Keys
      invariant r == Pick(f, groups.Keys - left)
      decreases |left|
    {
      var s :| s in left;
      var row := groups[s].Finished();
      assert row == f(s);
      PickGrows(f, groups.Keys - left, s);
      assert groups.Keys - (left - {s}) == (groups.Keys - left) + {s};
      if row.Some? {
        r := r[s := row.value];
      }
      left := left - {s};
    }
    assert groups.Keys - {} == groups.Keys;
  }

  function Keyed(folded: map<Series, Pooled>, resolution: Resolution, start: int): Rollups {
    var keys := set s | s in folded :: RollupKey(s, resolution, start);
    map key | key in keys :: folded[key.series]
  }

  lemma KeyedHolds(folded: map<Series, Pooled>, resolution: Resolution, start: int)
    ensures forall key :: key in Keyed(folded, resolution, start) <==>
      key == RollupKey(key.series, resolution, start) && key.series in folded
    ensures forall key :: key in Keyed(folded, resolution, start) ==>
      Keyed(folded, resolution, start)[key] == folded[key.series]
  {
  }

  lemma KeyedIsFolded(rows: seq<Row>, raw: seq<Row>, resolution: Resolution, start: int, f: Series -> Option<Pooled>)
    requires forall s :: f(s) == RollupOf(raw, s, resolution, start)
    requires forall s :: s !in SeriesOf(rows) ==> f(s).None?
    ensures Keyed(Pick(f, SeriesOf(rows)), resolution, start) == Folded(raw, resolution, start)
  {
    var picked := Pick(f, SeriesOf(rows));
    KeyedHolds(picked, resolution, start);
    SameEntries(Keyed(picked, resolution, start), Folded(raw, resolution, start));
  }

  lemma SameEntries(a: Rollups, b: Rollups)
    requires forall key :: key in a <==> key in b
    requires forall key :: key in a ==> a[key] == b[key]
    ensures a == b
  {
  }

  lemma FoldedIsKeyed(raw: seq<Row>, resolution: Resolution, start: int)
    ensures var end := BucketEnd(resolution, start);
      Keyed(FoldOf(Selected(raw, start, end), start, end), resolution, start) == Folded(raw, resolution, start)
  {
    var end := BucketEnd(resolution, start);
    var rows := Selected(raw, start, end);
    var f := PooledIn(rows, start, end);
    forall s ensures f(s) == RollupOf(raw, s, resolution, start) {
      SelectedWindows(raw, s, start, end);
    }
    forall s | s !in SeriesOf(rows) ensures f(s).None? {
      SilentSeriesHaveNoWindows(rows, s, start, end);
    }
    KeyedIsFolded(rows, raw, resolution, start, f);
  }

  lemma NothingSelected(raw: seq<Row>, resolution: Resolution, start: int)
    requires Selected(raw, start, BucketEnd(resolution, start)) == []
    ensures Folded(raw, resolution, start) == map[]
  {
    forall s ensures RollupOf(raw, s, resolution, start).None? {
      SelectedWindows(raw, s, start, BucketEnd(resolution, start));
    }
  }

  // The database hands rows over in any order.

  lemma {:induction false} WindowsSplit(a: seq<Row>, b: seq<Row>, series: Series, from: int, to: int)
    ensures WindowsOf(a + b, series, from, to) == WindowsOf(a, series, from, to) + WindowsOf(b, series, from, to)
  {
    if b == [] {
      assert a + b == a;
    } else {
      var front, last := b[..|b| - 1], b[|b| - 1];
      assert a + b == (a + front) + [last];
      WindowsSplit(a, front, series, from, to);
      WindowsGrow(a + front, last, series, from, to);
    }
  }

  lemma WindowsTakeOut(rows: seq<Row>, k: nat, series: Series, from: int, to: int)
    requires k < |rows|
    ensures multiset(WindowsOf(rows, series, from, to))
         == multiset(WindowsOf(rows[..k] + rows[k + 1..], series, from, to))
           + multiset(WindowsOf([rows[k]], series, from, to))
  {
    assert rows == rows[..k] + ([rows[k]] + rows[k + 1..]);
    WindowsSplit(rows[..k], [rows[k]] + rows[k + 1..], series, from, to);
    WindowsSplit([rows[k]], rows[k + 1..], series, from, to);
    WindowsSplit(rows[..k], rows[k + 1..], series, from, to);
  }

  lemma WindowsHead(rows: seq<Row>, series: Series, from: int, to: int)
    requires rows != []
    ensures WindowsOf(rows, series, from, to)
      == WindowsOf([rows[0]], series, from, to) + WindowsOf(rows[1..], series, from, to)
  {
    assert rows == [rows[0]] + rows[1..];
    WindowsSplit([rows[0]], rows[1..], series, from, to);
  }

  lemma WindowsMatch(a: seq<Row>, b: seq<Row>, k: nat, series: Series, from: int, to: int)
    requires a != [] && k < |b| && b[k] == a[0]
    requires multiset(WindowsOf(a[1..], series, from, to)) == multiset(WindowsOf(b[..k] + b[k + 1..], series, from, to))
    ensures multiset(WindowsOf(a, series, from, to)) == multiset(WindowsOf(b, series, from, to))
  {
    WindowsHead(a, series, from, to);
    WindowsTakeOut(b, k, series, from, to);
  }

  lemma {:induction false} WindowsIgnoreOrder(a: seq<Row>, b: seq<Row>, series: Series, from: int, to: int)
    requires multiset(a) == multiset(b)
    ensures multiset(WindowsOf(a, series, from, to)) == multiset(WindowsOf(b, series, from, to))
    decreases |a|
  {
    NoneMeansNone(a, b);
    if a != [] {
      assert a[0] in multiset(a);
      var k :| 0 <= k < |b| && b[k] == a[0];
      RemoveOne(a, b, k);
      WindowsIgnoreOrder(a[1..], b[..k] + b[k + 1..], series, from, to);
      WindowsMatch(a, b, k, series, from, to);
    }
  }

  /** What rows say about a series does not depend on their order. */
  lemma PooledIgnoresOrder(a: seq<Row>, b: seq<Row>, series: Series, from: int, to: int)
    requires multiset(a) == multiset(b)
    ensures PooledOf(a, series, from, to) == PooledOf(b, series, from, to)
  {
    WindowsIgnoreOrder(a, b, series, from, to);
    PoolingIgnoresOrder(WindowsOf(a, series, from, to), WindowsOf(b, series, from, to));
  }

  lemma SameRows(a: seq<Row>, b: seq<Row>)
    requires multiset(a) == multiset(b)
    ensures forall row :: row in a <==> row in b
  {
    forall row ensures row in a <==> row in b {
      assert row in multiset(a) <==> row in multiset(b);
    }
  }

  lemma FoldIgnoresOrder(a: seq<Row>, b: seq<Row>, from: int, to: int)
    requires multiset(a) == multiset(b)
    ensures FoldOf(a, from, to) == FoldOf(b, from, to)
  {
    SameRows(a, b);
    assert SeriesOf(a) == SeriesOf(b);
    forall s ensures PooledIn(a, from, to)(s) == PooledIn(b, from, to)(s) {
      PooledIgnoresOrder(a, b, s, from, to);
    }
  }

  // The catch-up loop, one iteration at a time.

  lemma RunSteps(tables: Tables, resolution: Resolution, start: int, now: int, room: nat)
    requires room > 0 && BucketEnd(resolution, start) <= now
    ensures RunFrom(tables, resolution, start, now, room)
         == if Stored(tables.rollups, resolution, start)
            then RunFrom(tables, resolution, BucketEnd(resolution, start), now, room)
            else RunFrom(BuildBucket(tables, resolution, start), resolution, BucketEnd(resolution, start), now,
              room - 1)
  {
  }

  lemma RunStops(tables: Tables, resolution: Resolution, start: int, now: int, room: nat)
    requires room == 0 || BucketEnd(resolution, start) > now
    ensures RunFrom(tables, resolution, start, now, room) == tables
  {
  }

  /** From here the loop ends in `target`. */
  ghost predicate LeadsTo(tables: Tables, resolution: Resolution, start: int, now: int, room: nat, target: Tables) {
    RunFrom(tables, resolution, start, now, room) == target
  }

  lemma RunLeadsOn(tables: Tables, resolution: Resolution, start: int, now: int, room: nat, target: Tables)
    requires room > 0 && BucketEnd(resolution, start) <= now
    requires LeadsTo(tables, resolution, start, now, room, target)
    ensures if Stored(tables.rollups, resolution, start)
            then LeadsTo(tables, resolution, BucketEnd(resolution, start), now, room, target)
            else LeadsTo(BuildBucket(tables, resolution, start), resolution, BucketEnd(resolution, start), now,
              room - 1, target)
  {
    RunSteps(tables, resolution, start, now, room);
  }

  lemma RunBegins(tables: Tables, resolution: Resolution, now: int, room: nat)
    requires EarliestOf(tables.raw).Some?
    ensures LeadsTo(tables, resolution, BucketStart(resolution, EarliestOf(tables.raw).value), now, room,
                    RunOf(tables, resolution, now, room))
  {
  }

  /** The measurement and rollup tables with the maintenance jobs that write them. */
  class MeasurementStore {
    var raw: seq<Row>
    var rollups: Rollups

    function Contents(): Tables
      reads this
    {
      Tables(raw, rollups)
    }

    constructor ()
      ensures Contents() == Tables([], map[])
    {
      raw, rollups := [], map[];
    }

    /** The rows of a stretch of time. The query sorts them by series only. */
    method Load(from: int, to: int) returns (rows: seq<Row>)
      ensures multiset(rows) == multiset(Selected(raw, from, to))
    {
      rows := Selected(raw, from, to);
    }

    /** The database says how many rows it really inserted. */
    method Insert(folded: Rollups) returns (written: nat)
      modifies this
      ensures raw == old(raw) && rollups == InsertIgnoring(old(rollups), folded)
      ensures |rollups| == |old(rollups)| + written
    {
      var before := |rollups|;
      FewerKeys(rollups, InsertIgnoring(rollups, folded));
      rollups := InsertIgnoring(rollups, folded);
      written := |rollups| - before;
    }

    method Build(resolution: Resolution, start: int, end: int) returns (written: nat)
      requires end == BucketEnd(resolution, start)
      modifies this
      ensures Contents() == BuildBucket(old(Contents()), resolution, start)
      ensures |rollups| == |old(rollups)| + written
    {
      var summaries := Load(start, end);
      NoneMeansNone(summaries, Selected(raw, start, end));
      SameRows(summaries, Selected(raw, start, end));
      if summaries == [] {
        NothingSelected(raw, resolution, start);
        return 0;
      }
      var folded := Fold(summaries, start, end);
      FoldIgnoresOrder(summaries, Selected(raw, start, end), start, end);
      FoldedIsKeyed(raw, resolution, start);
      written := Insert(Keyed(folded, resolution, start));
    }

    /** One build of the catch-up loop, on its way to `target`. */
    method BuildNext(resolution: Resolution, start: int, end: int, ghost now: int, ghost room: nat,
                     ghost target: Tables)
      returns (written: nat)
      requires end == BucketEnd(resolution, start) && end <= now && room > 0
      requires !Stored(rollups, resolution, start) && LeadsTo(Contents(), resolution, start, now, room, target)
      modifies this
      ensures Contents() == BuildBucket(old(Contents()), resolution, start)
      ensures LeadsTo(Contents(), resolution, end, now, room - 1, target)
      ensures |rollups| == |old(rollups)| + written
      ensures forall b :: b != start ==> (Stored(rollups, resolution, b) <==> Stored(old(rollups), resolution, b))
    {
      RunLeadsOn(Contents(), resolution, start, now, room, target);
      BuildTouchesOneBucket(rollups, raw, resolution, start);
      written := Build(resolution, start, end);
    }

    method Run(resolution: Resolution, now: int) returns (written: nat)
      modifies this
      ensures Contents() == RunOf(old(Contents()), resolution, now, MAX_BUCKETS_PER_RUN)
      ensures |rollups| == |old(rollups)| + written
    {
      written := 0;
      ghost var target := RunOf(Contents(), resolution, now, MAX_BUCKETS_PER_RUN);
      var oldest := EarliestOf(raw);
      if oldest.None? {
        return;
      }
      var start := BucketStart(resolution, oldest.value);
      RunBegins(Contents(), resolution, now, MAX_BUCKETS_PER_RUN);
      var stored := BucketsFrom(rollups, resolution, start);
      var built: nat := 0;
      ghost var room: nat := MAX_BUCKETS_PER_RUN;
      while built < MAX_BUCKETS_PER_RUN
        invariant built + room == MAX_BUCKETS_PER_RUN
        invariant forall b :: start <= b ==> (b in stored <==> Stored(rollups, resolution, b))
        invariant LeadsTo(Contents(), resolution, start, now, room, target)
        invariant |rollups| == |old(rollups)| + written
        decreases now - start
      {
        var end := BucketEnd(resolution, start);
        if end > now {
          break;
        }
        if start !in stored {
          var inserted := BuildNext(resolution, start, end, now, room, target);
          written := written + inserted;
          built, room := built + 1, room - 1;
        } else {
          RunLeadsOn(Contents(), resolution, start, now, room, target);
        }
        start := end;
      }
      RunStops(Contents(), resolution, start, now, room);
    }

    method RunAll(now: int) returns (written: nat)
      modifies this
      ensures Contents() == RunAllOf(old(Contents()), now)
      ensures |rollups| == |old(rollups)| + written
    {
      var hourly := Run(Hourly, now);
      var daily := Run(Daily, now);
      var weekly := Run(Weekly, now);
      written := hourly + daily + weekly;
    }

    /** Exactly the older rows go, and they are counted. */
    method PruneRaw(before: int) returns (deleted: nat)
      modifies this
      ensures Contents() == old(Contents()).(raw := StartingFrom(old(raw), before))
      ensures forall row :: multiset(raw)[row] == if row.start < before then 0 else multiset(old(raw))[row]
      ensures |old(raw)| == |raw| + deleted
    {
      ghost var rows := raw;
      PruningCounts(rows, before);
      var size := |raw|;
      raw := StartingFrom(raw, before);
      deleted := size - |raw|;
    }

    /** Exactly the older buckets of the resolution go, and they are counted. */
    method PruneRollups(resolution: Resolution, before: int) returns (deleted: nat)
      modifies this
      ensures Contents() == old(Contents()).(rollups := WithoutOlder(old(rollups), resolution, before))
      ensures forall other, start :: Stored(rollups, other, start) <==>
        Stored(old(rollups), other, start) && !(other == resolution && start < before)
      ensures |old(rollups)| == |rollups| + deleted
    {
      ghost var were := rollups;
      PruningDropsExactly(were, resolution, before);
      FewerKeys(WithoutOlder(rollups, resolution, before), rollups);
      var size := |rollups|;
      rollups := WithoutOlder(rollups, resolution, before);
      deleted := size - |rollups|;
    }

    method Once(now: int, before: int, hourly: int, daily: int)
      modifies this
      ensures Contents() == OnceOf(old(Contents()), now, before, hourly, daily)
    {
      var written := RunAll(now);
      var windows := PruneRaw(before);
      var hours := PruneRollups(Hourly, hourly);
      var days := PruneRollups(Daily, daily);
    }
  }

  function RunAllOf(tables: Tables, now: int): Tables {
    var hourly := RunOf(tables, Hourly, now, MAX_BUCKETS_PER_RUN);
    var daily := RunOf(hourly, Daily, now, MAX_BUCKETS_PER_RUN);
    RunOf(daily, Weekly, now, MAX_BUCKETS_PER_RUN)
  }

  /** One maintenance pass: catch up, prune the raw table, and prune the two finer rollups. */
  function OnceOf(tables: Tables, now: int, before: int, hourly: int, daily: int): Tables {
    var swept := RunAllOf(tables, now);
    Tables(StartingFrom(swept.raw, before), WithoutOlder(WithoutOlder(swept.rollups, Hourly, hourly), Daily, daily))
  }

  lemma BuildTouchesOneBucket(rollups: Rollups, raw: seq<Row>, resolution: Resolution, start: int)
    ensures var r := InsertIgnoring(rollups, Folded(raw, resolution, start));
      && (forall key: RollupKey ::
         key.resolution != resolution || key.start != start ==> (key in r <==> key in rollups))
      && (forall key :: key in rollups ==> key in r && r[key] == rollups[key])
      && (forall b :: b != start ==> (Stored(r, resolution, b) <==> Stored(rollups, resolution, b)))
  {
    var r := InsertIgnoring(rollups, Folded(raw, resolution, start));
    forall b | b != start ensures Stored(r, resolution, b) <==> Stored(rollups, resolution, b) {
      if key :| key in r && key.resolution == resolution && key.start == b {
        assert key in rollups;
      }
      if key :| key in rollups && key.resolution == resolution && key.start == b {
        assert key in r;
      }
    }
  }

  lemma FoldedHasRow(raw: seq<Row>, resolution: Resolution, start: int, key: RollupKey)
    requires key in Folded(raw, resolution, start)
    ensures exists row :: row in raw && row.series == key.series && Within(row, start, BucketEnd(resolution, start))
  {
    if forall row :: row in raw && row.series == key.series ==> !Within(row, start, BucketEnd(resolution, start)) {
      OutsideRowsAreSilent(raw, key.series, start, BucketEnd(resolution, start));
    }
  }

  lemma {:induction false} OutsideRowsAreSilent(rows: seq<Row>, series: Series, from: int, to: int)
    requires forall row :: row in rows && row.series == series ==> !Within(row, from, to)
    ensures WindowsOf(rows, series, from, to) == []
  {
    if rows != [] {
      var front := rows[..|rows| - 1];
      assert rows[|rows| - 1] in rows;
      assert forall row :: row in front ==> row in rows;
      OutsideRowsAreSilent(front, series, from, to);
    }
  }

  /** What a run adds: the fold of a bucket of the calendar that is over and has rows. */
  ghost predicate IsRollupOf(raw: seq<Row>, resolution: Resolution, now: int, key: RollupKey, value: Pooled) {
    && key.resolution == resolution
    && OnCalendar(resolution, key.start)
    && key.start + SecondsIn(resolution) <= now
    && (exists row ::
      row in raw && row.series == key.series && key.start <= row.start < key.start + SecondsIn(resolution))
    && PooledOf(raw, key.series, key.start, key.start + SecondsIn(resolution)) == Some(value)
  }

  lemma BuiltKeyIsRollup(raw: seq<Row>, resolution: Resolution, start: int, now: int, key: RollupKey)
    requires Aligned(resolution, start) && BucketEnd(resolution, start) <= now && key in Folded(raw, resolution, start)
    ensures IsRollupOf(raw, resolution, now, key, Folded(raw, resolution, start)[key])
  {
    BucketIsOnCalendar(resolution, start, start);
    FoldedHasRow(raw, resolution, start, key);
  }

  /** What `r` has more than `before` is rollups of `raw`. */
  ghost predicate Adds(before: Rollups, r: Rollups, raw: seq<Row>, resolution: Resolution, now: int, key: RollupKey) {
    key in r && key !in before ==> IsRollupOf(raw, resolution, now, key, r[key])
  }

  lemma AddsPastBuilt(before: Rollups, r: Rollups, raw: seq<Row>, resolution: Resolution, start: int, now: int,
                      key: RollupKey)
    requires Aligned(resolution, start) && BucketEnd(resolution, start) <= now
    requires var next := InsertIgnoring(before, Folded(raw, resolution, start));
      Adds(next, r, raw, resolution, now, key) && (key in next ==> key in r && r[key] == next[key])
    ensures Adds(before, r, raw, resolution, now, key)
  {
    if key in Folded(raw, resolution, start) && key !in before {
      BuiltKeyIsRollup(raw, resolution, start, now, key);
    }
  }

  lemma TargetKeeps(tables: Tables, resolution: Resolution, start: int, now: int, room: nat, target: Tables,
                    key: RollupKey)
    requires LeadsTo(tables, resolution, start, now, room, target) && key in tables.rollups
    ensures key in target.rollups && target.rollups[key] == tables.rollups[key]
  {
    RunKeepsTheRest(tables, resolution, start, now, room);
  }

  lemma LeadsNowhere(tables: Tables, resolution: Resolution, start: int, now: int, room: nat, target: Tables)
    requires LeadsTo(tables, resolution, start, now, room, target)
    requires room == 0 || BucketEnd(resolution, start) > now
    ensures target == tables
  {
    RunStops(tables, resolution, start, now, room);
  }

  lemma {:induction false} LoopAddsRollups(tables: Tables, resolution: Resolution, start: int, now: int, room: nat,
                                           target: Tables, key: RollupKey)
    requires Aligned(resolution, start) && LeadsTo(tables, resolution, start, now, room, target)
    ensures Adds(tables.rollups, target.rollups, tables.raw, resolution, now, key)
    decreases now - start
  {
    var end := BucketEnd(resolution, start);
    if room == 0 || end > now {
      LeadsNowhere(tables, resolution, start, now, room, target);
    } else {
      NextBucketIsAligned(resolution, start);
      RunLeadsOn(tables, resolution, start, now, room, target);
      if Stored(tables.rollups, resolution, start) {
        LoopAddsRollups(tables, resolution, end, now, room, target, key);
      } else {
        var next, left := BuildBucket(tables, resolution, start), room - 1;
        LoopAddsRollups(next, resolution, end, now, left, target, key);
        if key in next.rollups {
          TargetKeeps(next, resolution, end, now, left, target, key);
        }
        AddsPastBuilt(tables.rollups, target.rollups, tables.raw, resolution, start, now, key);
      }
    }
  }

  /**
    * Every rollup a run adds belongs to a bucket of the calendar, in plain numbers, that ended by
    * the run's instant and has raw rows of its series, and holds what those rows pool to.
    */
  lemma RunAddsRollups(tables: Tables, resolution: Resolution, now: int, room: nat, key: RollupKey)
    ensures var r := RunOf(tables, resolution, now, room).rollups;
      key in r && key !in tables.rollups ==> IsRollupOf(tables.raw, resolution, now, key, r[key])
  {
    match EarliestOf(tables.raw)
    case None =>
    case Some(at) =>
      InstantIsInItsBucket(resolution, at);
      RunBegins(tables, resolution, now, room);
      LoopAddsRollups(tables, resolution, BucketStart(resolution, at), now, room, RunOf(tables, resolution, now, room),
        key);
  }

  lemma {:induction false} EarliestIsARow(rows: seq<Row>)
    ensures EarliestOf(rows).Some? ==> exists row :: row in rows && row.start == EarliestOf(rows).value
  {
    if rows != [] {
      var front, last := rows[..|rows| - 1], rows[|rows| - 1];
      EarliestIsARow(front);
      assert last in rows;
      assert forall row :: row in front ==> row in rows;
    }
  }

  /** What pruning took from both tables no later run brings back. */
  lemma PrunedBucketsStayGone(tables: Tables, resolution: Resolution, before: int, now: int, key: RollupKey)
    requires (forall row :: row in tables.raw ==> before <= row.start) && Aligned(key.resolution, key.start)
    requires BucketEnd(key.resolution, key.start) <= before
    ensures key in RunOf(tables, resolution, now, MAX_BUCKETS_PER_RUN).rollups <==> key in tables.rollups
  {
    match EarliestOf(tables.raw)
    case None =>
    case Some(at) =>
      EarliestIsARow(tables.raw);
      InstantIsInItsBucket(resolution, at);
      RunKeepsTheRest(tables, resolution, BucketStart(resolution, at), now, MAX_BUCKETS_PER_RUN);
      if key.resolution == resolution && BucketStart(resolution, at) < key.start {
        BucketsAreApart(resolution, BucketStart(resolution, at), key.start);
      }
  }

  // Exactly which buckets one run reaches.

  /** Buckets in `from..until` that hold no rollup, empty ones included. */
  function UnstoredBetween(rollups: Rollups, resolution: Resolution, from: int, until: int): nat
    decreases until - from
  {
    if from >= until then 0
    else (if Stored(rollups, resolution, from) then 0 else 1)
         + UnstoredBetween(rollups, resolution, BucketEnd(resolution, from), until)
  }

  lemma {:induction false} UnstoredIgnoresEarlier(a: Rollups, b: Rollups, resolution: Resolution, from: int, until: int)
    requires forall at :: at >= from ==> (Stored(a, resolution, at) <==> Stored(b, resolution, at))
    ensures UnstoredBetween(a, resolution, from, until) == UnstoredBetween(b, resolution, from, until)
    decreases until - from
  {
    if from < until {
      UnstoredIgnoresEarlier(a, b, resolution, BucketEnd(resolution, from), until);
    }
  }

  /** Nothing outside the swept buckets moves, and what is stored stays as it was. */
  lemma {:induction false} RunKeepsTheRest(tables: Tables, resolution: Resolution, start: int, now: int, room: nat)
    ensures var r := RunFrom(tables, resolution, start, now, room).rollups;
      && (forall key :: key in tables.rollups ==> key in r && r[key] == tables.rollups[key])
      && (forall key :: key in r && key !in tables.rollups ==> key.resolution == resolution && key.start >= start)
    decreases now - start
  {
    var end := BucketEnd(resolution, start);
    if room == 0 || end > now {
    } else if Stored(tables.rollups, resolution, start) {
      RunKeepsTheRest(tables, resolution, end, now, room);
    } else {
      BuildTouchesOneBucket(tables.rollups, tables.raw, resolution, start);
      RunKeepsTheRest(BuildBucket(tables, resolution, start), resolution, end, now, room - 1);
    }
  }

  /** In `r`, one bucket holds exactly its fold when it was reached and nothing otherwise. */
  ghost predicate BucketHolds(r: Rollups, folded: Rollups, resolution: Resolution, bucket: int, reached: bool) {
    forall key: RollupKey :: key.resolution == resolution && key.start == bucket ==>
      && (key in r <==> reached && key in folded)
      && (key in r ==> r[key] == folded[key])
  }

  lemma BuiltBucketHolds(rollups: Rollups, folded: Rollups, resolution: Resolution, bucket: int)
    requires !Stored(rollups, resolution, bucket)
    ensures BucketHolds(InsertIgnoring(rollups, folded), folded, resolution, bucket, true)
  {
  }

  lemma UnstoredBucketHolds(rollups: Rollups, folded: Rollups, resolution: Resolution, bucket: int)
    requires !Stored(rollups, resolution, bucket)
    ensures BucketHolds(rollups, folded, resolution, bucket, false)
  {
  }

  lemma SweptBucketHolds(tables: Tables, folded: Rollups, resolution: Resolution, start: int, now: int, room: nat,
                         bucket: int)
    requires BucketHolds(tables.rollups, folded, resolution, bucket, true) && bucket < start
    ensures BucketHolds(RunFrom(tables, resolution, start, now, room).rollups, folded, resolution, bucket, true)
  {
    RunKeepsTheRest(tables, resolution, start, now, room);
  }

  lemma UnstoredSteps(rollups: Rollups, resolution: Resolution, from: int, until: int)
    requires from < until
    ensures UnstoredBetween(rollups, resolution, from, until)
         == (if Stored(rollups, resolution, from) then 0 else 1)
            + UnstoredBetween(rollups, resolution, BucketEnd(resolution, from), until)
  {
  }

  lemma BuildKeepsUnstored(tables: Tables, resolution: Resolution, start: int, bucket: int)
    requires start < bucket && !Stored(tables.rollups, resolution, bucket)
    ensures var next := BuildBucket(tables, resolution, start);
      && !Stored(next.rollups, resolution, bucket)
      && UnstoredBetween(next.rollups, resolution, BucketEnd(resolution, start), bucket)
         == UnstoredBetween(tables.rollups, resolution, BucketEnd(resolution, start), bucket)
  {
    BuildTouchesOneBucket(tables.rollups, tables.raw, resolution, start);
    UnstoredIgnoresEarlier(tables.rollups, BuildBucket(tables, resolution, start).rollups, resolution,
      BucketEnd(resolution, start), bucket);
  }

  ghost predicate Reaches(tables: Tables, resolution: Resolution, start: int, now: int, room: nat, bucket: int) {
    BucketHolds(RunFrom(tables, resolution, start, now, room).rollups,
                Folded(tables.raw, resolution, bucket), resolution, bucket,
                UnstoredBetween(tables.rollups, resolution, start, bucket) < room)
  }

  lemma RunBuildsFirst(tables: Tables, folded: Rollups, resolution: Resolution, now: int, room: nat, bucket: int)
    requires room > 0 && BucketEnd(resolution, bucket) <= now && !Stored(tables.rollups, resolution, bucket)
    requires folded == Folded(tables.raw, resolution, bucket)
    ensures BucketHolds(RunFrom(tables, resolution, bucket, now, room).rollups, folded, resolution, bucket, true)
  {
    var next, end, left := BuildBucket(tables, resolution, bucket), BucketEnd(resolution, bucket), room - 1;
    RunBuilds(tables, next, resolution, bucket, end, now, left);
    BuiltBucketHolds(tables.rollups, folded, resolution, bucket);
    SweptBucketHolds(next, folded, resolution, end, now, left, bucket);
  }

  lemma ReachesHere(tables: Tables, resolution: Resolution, now: int, room: nat, bucket: int)
    requires room > 0 && BucketEnd(resolution, bucket) <= now && !Stored(tables.rollups, resolution, bucket)
    ensures Reaches(tables, resolution, bucket, now, room, bucket)
  {
    RunBuildsFirst(tables, Folded(tables.raw, resolution, bucket), resolution, now, room, bucket);
  }

  lemma ReachesPastStored(tables: Tables, resolution: Resolution, start: int, now: int, room: nat, bucket: int)
    requires room > 0 && start < bucket && BucketEnd(resolution, start) <= now
    requires Stored(tables.rollups, resolution, start)
    requires Reaches(tables, resolution, BucketEnd(resolution, start), now, room, bucket)
    ensures Reaches(tables, resolution, start, now, room, bucket)
  {
    RunSteps(tables, resolution, start, now, room);
    UnstoredSteps(tables.rollups, resolution, start, bucket);
  }

  lemma RunBuilds(tables: Tables, next: Tables, resolution: Resolution, start: int, end: int, now: int, left: nat)
    requires end == BucketEnd(resolution, start) && end <= now
    requires !Stored(tables.rollups, resolution, start) && next == BuildBucket(tables, resolution, start)
    ensures RunFrom(tables, resolution, start, now, left + 1) == RunFrom(next, resolution, end, now, left)
  {
    RunSteps(tables, resolution, start, now, left + 1);
  }

  lemma ReachesPastBuilt(tables: Tables, next: Tables, resolution: Resolution, start: int, end: int, now: int,
                         room: nat, left: nat, bucket: int)
    requires room == left + 1 && start < bucket && end == BucketEnd(resolution, start) && end <= now
    requires !Stored(tables.rollups, resolution, start) && !Stored(tables.rollups, resolution, bucket)
    requires next == BuildBucket(tables, resolution, start)
    requires Reaches(next, resolution, end, now, left, bucket)
    ensures Reaches(tables, resolution, start, now, room, bucket)
  {
    RunBuilds(tables, next, resolution, start, end, now, left);
    UnstoredSteps(tables.rollups, resolution, start, bucket);
    BuildKeepsUnstored(tables, resolution, start, bucket);
  }

  /**
    * A run folds an unstored, complete bucket exactly when fewer than `room` unstored buckets
    * stand between it and where the run begins; a bucket it does not reach stays unstored.
    */
  lemma {:induction false} RunReachesExactly(tables: Tables, resolution: Resolution, start: int, now: int, room: nat,
                                             bucket: int)
    requires Aligned(resolution, start) && Aligned(resolution, bucket) && start <= bucket
    requires BucketEnd(resolution, bucket) <= now && !Stored(tables.rollups, resolution, bucket)
    ensures Reaches(tables, resolution, start, now, room, bucket)
    decreases now - start
  {
    if room == 0 {
      UnstoredBucketHolds(tables.rollups, Folded(tables.raw, resolution, bucket), resolution, bucket);
    } else if start == bucket {
      ReachesHere(tables, resolution, now, room, bucket);
    } else {
      BucketsAreApart(resolution, start, bucket);
      NextBucketIsAligned(resolution, start);
      if Stored(tables.rollups, resolution, start) {
        RunReachesExactly(tables, resolution, BucketEnd(resolution, start), now, room, bucket);
        ReachesPastStored(tables, resolution, start, now, room, bucket);
      } else {
        var next, end, left := BuildBucket(tables, resolution, start), BucketEnd(resolution, start), room - 1;
        BuildKeepsUnstored(tables, resolution, start, bucket);
        RunReachesExactly(next, resolution, end, now, left, bucket);
        ReachesPastBuilt(tables, next, resolution, start, end, now, room, left, bucket);
      }
    }
  }
}
