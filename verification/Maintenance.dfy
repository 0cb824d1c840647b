/** What the maintenance jobs leave behind, rollup by rollup, in plain numbers. */
module Maintenance {
  import opened Fleet
  import opened Wrappers
  import opened Buckets
  import opened Pooling
  import opened PoolingOrder
  import opened Rollup
  import opened RetentionRuns

  /** A run has this rollup to add: its bucket is over, heard and empty, and fewer than 512 unstored ones precede it. */
  ghost predicate IsDue(tables: Tables, now: int, oldest: int, key: RollupKey) {
    && OnCalendar(key.resolution, key.start)
    && key.start + SecondsIn(key.resolution) <= now
    && PooledOf(tables.raw, key.series, key.start, key.start + SecondsIn(key.resolution)).Some?
    && (forall other :: other in tables.rollups ==> other.resolution != key.resolution || other.start != key.start)
    && UnstoredBetween(tables.rollups, key.resolution, BucketStart(key.resolution, oldest), key.start) < 512
  }

  ghost predicate IsOldest(raw: seq<Row>, oldest: int) {
    && (exists row :: row in raw && row.start == oldest)
    && (forall row :: row in raw ==> oldest <= row.start)
  }

  /** The rollup `r` holds for `key`: the one there was, or else the fold of the raw rows. */
  ghost predicate Holds(tables: Tables, r: Rollups, key: RollupKey) {
    key in r ==>
      Some(r[key]) == if key in tables.rollups then Some(tables.rollups[key])
                      else PooledOf(tables.raw, key.series, key.start, key.start + SecondsIn(key.resolution))
  }

  lemma UnstoredInWords(rollups: Rollups, resolution: Resolution, start: int)
    ensures Stored(rollups, resolution, start)
       <==> !forall other :: other in rollups ==> other.resolution != resolution || other.start != start
  {
  }

  lemma AddedBucketWasUnstored(tables: Tables, resolution: Resolution, start: int, now: int, room: nat, key: RollupKey)
    requires key in RunFrom(tables, resolution, start, now, room).rollups && key !in tables.rollups
    ensures !Stored(tables.rollups, key.resolution, key.start)
  {
    if Stored(tables.rollups, key.resolution, key.start) {
      StoredBucketsAreNeverRefolded(tables, resolution, start, now, room, key);
    }
  }

  lemma BucketIsReached(tables: Tables, resolution: Resolution, start: int, now: int, room: nat, key: RollupKey)
    requires Aligned(resolution, start) && Aligned(resolution, key.start) && start <= key.start
    requires key.resolution == resolution && BucketEnd(resolution, key.start) <= now
    requires !Stored(tables.rollups, resolution, key.start)
    ensures key in RunFrom(tables, resolution, start, now, room).rollups
       <==> RollupOf(tables.raw, key.series, resolution, key.start).Some?
            && UnstoredBetween(tables.rollups, resolution, start, key.start) < room
  {
    RunReachesExactly(tables, resolution, start, now, room, key.start);
  }

  lemma RollupsAreOnCalendar(resolution: Resolution, start: int)
    ensures Aligned(resolution, start) <==> OnCalendar(resolution, start)
    ensures BucketEnd(resolution, start) == start + SecondsIn(resolution)
  {
    BucketIsOnCalendar(resolution, start, start);
  }

  lemma HeardBucketStartsLate(raw: seq<Row>, series: Series, resolution: Resolution, start: int, oldest: int)
    requires IsOldest(raw, oldest) && Aligned(resolution, start)
    requires PooledOf(raw, series, start, BucketEnd(resolution, start)).Some?
    ensures BucketStart(resolution, oldest) <= start
  {
    if BucketEnd(resolution, start) <= oldest {
      OutsideRowsAreSilent(raw, series, start, BucketEnd(resolution, start));
    }
    InstantIsInItsBucket(resolution, oldest);
    if start < BucketStart(resolution, oldest) {
      BucketsAreApart(resolution, start, BucketStart(resolution, oldest));
    }
  }

  lemma OldestIsEarliest(raw: seq<Row>, oldest: int)
    requires IsOldest(raw, oldest)
    ensures EarliestOf(raw) == Some(oldest)
  {
    EarliestIsARow(raw);
  }

  lemma DueIsReached(tables: Tables, now: int, oldest: int, key: RollupKey)
    requires IsOldest(tables.raw, oldest) && key !in tables.rollups
    requires IsDue(tables, now, oldest, key)
    ensures key in RunOf(tables, key.resolution, now, 512).rollups
  {
    OldestIsEarliest(tables.raw, oldest);
    RollupsAreOnCalendar(key.resolution, key.start);
    HeardBucketStartsLate(tables.raw, key.series, key.resolution, key.start, oldest);
    InstantIsInItsBucket(key.resolution, oldest);
    BucketIsReached(tables, key.resolution, BucketStart(key.resolution, oldest), now, 512, key);
  }

  lemma AddedInLoopIsDue(tables: Tables, start: int, now: int, oldest: int, key: RollupKey, value: Pooled)
    requires IsOldest(tables.raw, oldest) && key !in tables.rollups && start == BucketStart(key.resolution, oldest)
    requires key in RunFrom(tables, key.resolution, start, now, 512).rollups
    requires IsRollupOf(tables.raw, key.resolution, now, key, value)
    ensures IsDue(tables, now, oldest, key)
  {
    RollupsAreOnCalendar(key.resolution, key.start);
    AddedBucketWasUnstored(tables, key.resolution, start, now, 512, key);
    HeardBucketStartsLate(tables.raw, key.series, key.resolution, key.start, oldest);
    InstantIsInItsBucket(key.resolution, oldest);
    BucketIsReached(tables, key.resolution, start, now, 512, key);
  }

  lemma AddedIsDue(tables: Tables, resolution: Resolution, now: int, oldest: int, key: RollupKey, r: Rollups)
    requires IsOldest(tables.raw, oldest) && key !in tables.rollups
    requires r == RunOf(tables, resolution, now, 512).rollups && key in r
    ensures IsRollupOf(tables.raw, resolution, now, key, r[key]) && IsDue(tables, now, oldest, key)
  {
    OldestIsEarliest(tables.raw, oldest);
    RunAddsRollups(tables, resolution, now, 512, key);
    AddedInLoopIsDue(tables, BucketStart(resolution, oldest), now, oldest, key, r[key]);
  }

  lemma RunKeeps(tables: Tables, resolution: Resolution, now: int, key: RollupKey)
    requires key in tables.rollups
    ensures key in RunOf(tables, resolution, now, 512).rollups
    ensures RunOf(tables, resolution, now, 512).rollups[key] == tables.rollups[key]
  {
    match EarliestOf(tables.raw)
    case None =>
    case Some(at) => RunKeepsTheRest(tables, resolution, BucketStart(resolution, at), now, 512);
  }

  /** One run of the catch-up loop: which rollups there are afterwards, and what they say. */
  lemma RunIsExact(tables: Tables, resolution: Resolution, now: int, oldest: int, key: RollupKey)
    requires IsOldest(tables.raw, oldest)
    ensures var r := RunOf(tables, resolution, now, MAX_BUCKETS_PER_RUN).rollups;
      && (key in r <==> key in tables.rollups || (key.resolution == resolution && IsDue(tables, now, oldest, key)))
      && Holds(tables, r, key)
  {
    if key in tables.rollups {
      RunKeeps(tables, resolution, now, key);
    } else {
      if key.resolution == resolution && IsDue(tables, now, oldest, key) {
        DueIsReached(tables, now, oldest, key);
      }
      var r := RunOf(tables, resolution, now, 512).rollups;
      if key in r {
        AddedIsDue(tables, resolution, now, oldest, key, r);
      }
    }
  }

  /** What is due at one resolution does not depend on the others. */
  lemma DueStaysDue(a: Tables, b: Tables, now: int, oldest: int, key: RollupKey)
    requires a.raw == b.raw
    requires forall other: RollupKey ::
      other.resolution == key.resolution ==> (other in a.rollups <==> other in b.rollups)
    ensures IsDue(a, now, oldest, key) <==> IsDue(b, now, oldest, key)
  {
    forall at ensures Stored(a.rollups, key.resolution, at) <==> Stored(b.rollups, key.resolution, at) {
      UnstoredInWords(a.rollups, key.resolution, at);
      UnstoredInWords(b.rollups, key.resolution, at);
    }
    UnstoredIgnoresEarlier(a.rollups, b.rollups, key.resolution, BucketStart(key.resolution, oldest), key.start);
  }

  lemma RunKeepsOtherResolutions(tables: Tables, resolution: Resolution, now: int, oldest: int, other: Resolution)
    requires IsOldest(tables.raw, oldest) && other != resolution
    ensures var r := RunOf(tables, resolution, now, MAX_BUCKETS_PER_RUN).rollups;
      forall key: RollupKey :: key.resolution == other ==>
        (key in r <==> key in tables.rollups) && (key in r ==> r[key] == tables.rollups[key])
  {
    var r := RunOf(tables, resolution, now, MAX_BUCKETS_PER_RUN).rollups;
    forall key: RollupKey | key.resolution == other
      ensures (key in r <==> key in tables.rollups) && (key in r ==> r[key] == tables.rollups[key])
    {
      RunIsExact(tables, resolution, now, oldest, key);
    }
  }

  /** All three runs one after the other: each resolution gets what is due to it. */
  lemma RunAllIsExact(tables: Tables, now: int, oldest: int, key: RollupKey)
    requires IsOldest(tables.raw, oldest)
    ensures RunAllOf(tables, now).raw == tables.raw
    ensures var r := RunAllOf(tables, now).rollups;
      && (key in r <==> key in tables.rollups || IsDue(tables, now, oldest, key))
      && Holds(tables, r, key)
  {
    var hourly := RunOf(tables, Hourly, now, MAX_BUCKETS_PER_RUN);
    var daily := RunOf(hourly, Daily, now, MAX_BUCKETS_PER_RUN);
    match key.resolution
    case Hourly =>
      RunIsExact(tables, Hourly, now, oldest, key);
      RunKeepsOtherResolutions(hourly, Daily, now, oldest, Hourly);
      RunKeepsOtherResolutions(daily, Weekly, now, oldest, Hourly);
    case Daily =>
      RunKeepsOtherResolutions(tables, Hourly, now, oldest, Daily);
      DueStaysDue(tables, hourly, now, oldest, key);
      RunIsExact(hourly, Daily, now, oldest, key);
      RunKeepsOtherResolutions(daily, Weekly, now, oldest, Daily);
    case Weekly =>
      RunKeepsOtherResolutions(tables, Hourly, now, oldest, Weekly);
      RunKeepsOtherResolutions(hourly, Daily, now, oldest, Weekly);
      DueStaysDue(tables, hourly, now, oldest, key);
      DueStaysDue(hourly, daily, now, oldest, key);
      RunIsExact(daily, Weekly, now, oldest, key);
  }

  /**
    * One maintenance pass: a rollup is there afterwards exactly when it was there or was due, unless
    * it is an hourly or daily one from before its horizon, and a raw row exactly when it is young.
    */
  lemma OnceIsExact(tables: Tables, now: int, oldest: int, before: int, hourly: int, daily: int, key: RollupKey,
                    row: Row)
    requires IsOldest(tables.raw, oldest)
    ensures var r := OnceOf(tables, now, before, hourly, daily);
      && (key in r.rollups <==>
           && (key in tables.rollups || IsDue(tables, now, oldest, key))
           && (key.resolution.Hourly? ==> key.start >= hourly)
           && (key.resolution.Daily? ==> key.start >= daily))
      && Holds(tables, r.rollups, key)
      && multiset(r.raw)[row] == if row.start < before then 0 else multiset(tables.raw)[row]
  {
    RunAllIsExact(tables, now, oldest, key);
    PruningCounts(tables.raw, before);
  }

  /** A table with rows has an oldest one, and a pass over one without folds nothing. */
  lemma OldestOrNothing(tables: Tables, now: int)
    ensures if tables.raw == [] then RunAllOf(tables, now) == tables else exists at :: IsOldest(tables.raw, at)
  {
    match EarliestOf(tables.raw)
    case None =>
    case Some(at) =>
      EarliestIsARow(tables.raw);
      assert IsOldest(tables.raw, at);
  }

  lemma {:induction false} WindowIsHeard(rows: seq<Row>, series: Series, from: int, to: int, window: Window)
    ensures window in WindowsOf(rows, series, from, to)
       <==> exists row :: row in rows && row.series == series && from <= row.start < to && row.window == window
  {
    if rows != [] {
      var front, last := rows[..|rows| - 1], rows[|rows| - 1];
      assert rows == front + [last];
      WindowIsHeard(front, series, from, to, window);
      WindowsGrow(front, last, series, from, to);
    }
  }

  /** Rows of `a` and `b` with samples, of one series and stretch, whose extremes are not crossed. */
  ghost predicate Agree(rows: seq<Row>, series: Series, from: int, to: int, a: Row, b: Row) {
    && a in rows && a.series == series && from <= a.start < to && a.window.count > 0
    && b in rows && b.series == series && from <= b.start < to && b.window.count > 0
    && a.window.min <= b.window.max
  }

  /** A stretch of time has something to say about a series exactly when it has such rows. */
  lemma HeardExactly(rows: seq<Row>, series: Series, from: int, to: int)
    ensures PooledOf(rows, series, from, to).Some? <==> exists a, b :: Agree(rows, series, from, to, a, b)
  {
    var ws := WindowsOf(rows, series, from, to);
    PooledInWords(ws, seq(|Kept(ws)|, i requires 0 <= i < |Kept(ws)| => Kept(ws)[i].median));
    if a, b :| Agree(rows, series, from, to, a, b) {
      WindowIsHeard(rows, series, from, to, a.window);
      WindowIsHeard(rows, series, from, to, b.window);
    }
    if PooledOf(rows, series, from, to).Some? {
      var i, j :| 0 <= i < |ws| && 0 <= j < |ws| && ws[i].count > 0 && ws[j].count > 0 && ws[i].min <= ws[j].max;
      WindowIsHeard(rows, series, from, to, ws[i]);
      WindowIsHeard(rows, series, from, to, ws[j]);
      var a :| a in rows && a.series == series && from <= a.start < to && a.window == ws[i];
      var b :| b in rows && b.series == series && from <= b.start < to && b.window == ws[j];
      assert Agree(rows, series, from, to, a, b);
    }
  }
}
