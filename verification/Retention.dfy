/**
  * Ingest and maintenance, step by step, in any interleaving.
  *
  * One maintenance pass begins at an instant, sweeps the hourly, daily and weekly buckets one at a
  * time, and then deletes old raw rows, drops old partitions one by one and deletes old rollups; rows
  * arrive between any two of those steps, and a delete may fail. `System` keeps, beside the tables,
  * every row that was ever ingested and every rollup that was ever written, so that what pruning
  * forgets can still be talked about.
  */
module Retention {
  import opened Wrappers
  import opened Fleet
  import opened Buckets
  import opened Pooling
  import opened Rollup

  /** A row that was ingested, and whether the raw table still has it. */
  datatype Entry = Entry(row: Row, present: bool)

  /** Where the maintenance pass stands; `cleared` says whether its raw delete went through. */
  datatype Pass =
    | Idle
    | Between(now: int, done: nat)
    | Sweeping(now: int, done: nat, cursor: int, stored: set<int>, built: nat)
    | Pruning(now: int, before: int, cleared: bool)

  /** `missed` are the rows that came once the newest hourly sweep was past their hour. */
  datatype System = System(log: seq<Entry>, rollups: Rollups, history: Rollups, missed: set<nat>, pass: Pass)

  datatype Step =
    | Ingest(row: Row)
    | BeginPass(at: int)
    | BeginSweep
    | SweepBucket
    | EndSweep
    | PruneRawBefore(before: int, done: bool)
    | DropPartition(day: int)
    | PruneRollupsBefore(resolution: Resolution, before: int)
    | EndPass

  const INITIAL := System([], map[], map[], {}, Idle)

  /** The order in which a pass takes the resolutions. */
  function ResolutionAt(done: nat): Resolution
    requires done < 3
  {
    if done == 0 then Hourly else if done == 1 then Daily else Weekly
  }

  function RankOf(resolution: Resolution): nat {
    match resolution
    case Hourly => 0
    case Daily => 1
    case Weekly => 2
  }

  /** The raw table, in insertion order. */
  function Present(log: seq<Entry>): seq<Row> {
    if log == [] then []
    else
      var last := log[|log| - 1];
      var front := Present(log[..|log| - 1]);
      if last.present then front + [last.row] else front
  }

  function Rows(log: seq<Entry>): (rows: seq<Row>)
    ensures |rows| == |log|
    ensures forall i :: 0 <= i < |log| ==> rows[i] == log[i].row
  {
    seq(|log|, i requires 0 <= i < |log| => log[i].row)
  }

  /** What one statement takes out of the raw table: everything older, or one day's partition. */
  datatype Removal = Older(before: int) | OfDay(day: int)

  predicate Takes(removal: Removal, row: Row) {
    match removal
    case Older(before) => row.start < before
    case OfDay(day) => row.start / DAY == day
  }

  function Without(log: seq<Entry>, removal: Removal): (r: seq<Entry>)
    ensures |r| == |log|
    ensures forall i :: 0 <= i < |log| ==> r[i] == Entry(log[i].row, log[i].present && !Takes(removal, log[i].row))
  {
    seq(|log|, i requires 0 <= i < |log| => Entry(log[i].row, log[i].present && !Takes(removal, log[i].row)))
  }

  /** The raw table refuses a second window of a series with the same start. */
  predicate Taken(log: seq<Entry>, row: Row) {
    exists i :: 0 <= i < |log| && log[i].present && log[i].row.series == row.series && log[i].row.start == row.start
  }

  /** What one iteration of the catch-up loop writes. */
  function Written(log: seq<Entry>, resolution: Resolution, cursor: int, stored: set<int>): Rollups {
    if cursor in stored then map[] else Folded(Present(log), resolution, cursor)
  }

  /** The hourly sweep of this pass will not come to this row's hour any more. */
  predicate Late(pass: Pass, row: Row) {
    match pass
    case Idle => false
    case Between(_, done) => done > 0
    case Sweeping(_, done, cursor, _, _) => done > 0 || BucketStart(Hourly, row.start) < cursor
    case Pruning(_, _, _) => true
  }

  function Ingested(s: System, row: Row): System {
    s.(log := s.log + [Entry(row, true)], missed := if Late(s.pass, row) then s.missed + {|s.log|} else s.missed)
  }

  predicate LoopGoesOn(pass: Pass)
    requires pass.Sweeping? && pass.done < 3
  {
    pass.built < MAX_BUCKETS_PER_RUN && BucketEnd(ResolutionAt(pass.done), pass.cursor) <= pass.now
  }

  /** What the server does; a step that is not enabled has no successor. */
  function Next(s: System, step: Step): Option<System> {
    match step
    case Ingest(row) =>
      if Taken(s.log, row) then Some(s) else Some(Ingested(s, row))
    case BeginPass(at) =>
      if s.pass.Idle? then Some(s.(pass := Between(at, 0))) else None
    case BeginSweep =>
      if !s.pass.Between? || s.pass.done >= 3 then None
      else
        var resolution := ResolutionAt(s.pass.done);
        var missed := if s.pass.done == 0 then {} else s.missed;
        (match EarliestOf(Present(s.log))
         case None => Some(s.(missed := missed, pass := Between(s.pass.now, s.pass.done + 1)))
         case Some(at) =>
           var start := BucketStart(resolution, at);
           Some(s.(missed := missed, pass := Sweeping(s.pass.now, s.pass.done, start,
                                                      BucketsFrom(s.rollups, resolution, start), 0))))
    case SweepBucket =>
      if !s.pass.Sweeping? || s.pass.done >= 3 || !LoopGoesOn(s.pass) then None
      else
        var resolution := ResolutionAt(s.pass.done);
        var written := Written(s.log, resolution, s.pass.cursor, s.pass.stored);
        Some(System(
               s.log,
               InsertIgnoring(s.rollups, written),
               InsertIgnoring(s.history, written),
               s.missed,
               s.pass.(cursor := BucketEnd(resolution, s.pass.cursor),
                       built := if s.pass.cursor in s.pass.stored then s.pass.built else s.pass.built + 1)))
    case EndSweep =>
      if !s.pass.Sweeping? || s.pass.done >= 3 || LoopGoesOn(s.pass) then None
      else Some(s.(pass := Between(s.pass.now, s.pass.done + 1)))
    case PruneRawBefore(before, done) =>
      if !s.pass.Between? || s.pass.done != 3 then None
      else
        var log := if done then Without(s.log, Older(before)) else s.log;
        Some(s.(log := log, pass := Pruning(s.pass.now, before, done)))
    case DropPartition(day) =>
      if !s.pass.Pruning? || (day + 1) * DAY > s.pass.before then None
      else Some(s.(log := Without(s.log, OfDay(day))))
    case PruneRollupsBefore(resolution, before) =>
      if !s.pass.Pruning? || resolution == Weekly then None
      else Some(s.(rollups := WithoutOlder(s.rollups, resolution, before)))
    case EndPass => Some(s.(pass := Idle))
  }

  // What is asked of the world for the guarantees below.

  /** A rollup was once written for this bucket. */
  predicate Closed(history: Rollups, resolution: Resolution, bucket: int) {
    Stored(history, resolution, bucket)
  }

  ghost predicate OnTime(history: Rollups, row: Row) {
    forall resolution :: !Closed(history, resolution, BucketStart(resolution, row.start))
  }

  /** The unstored complete buckets a sweep would have to build fit one run. */
  predicate BacklogFits(rollups: Rollups, raw: seq<Row>, resolution: Resolution, now: int) {
    EarliestOf(raw).Some? ==>
      UnstoredBetween(rollups, resolution, BucketStart(resolution, EarliestOf(raw).value), BucketStart(resolution, now))
        <= MAX_BUCKETS_PER_RUN
  }

  /** The horizon is a midnight at least a week back. */
  predicate HorizonHolds(now: int, before: int) {
    before % DAY == 0 && before + WEEK <= now
  }

  /** What is taken out was there in time for the hourly sweep. */
  predicate NoneMissed(log: seq<Entry>, missed: set<nat>, removal: Removal) {
    forall i :: i in missed && i < |log| && log[i].present ==> !Takes(removal, log[i].row)
  }

  predicate NoneOlder(log: seq<Entry>, before: int) {
    forall i :: 0 <= i < |log| && log[i].present ==> before <= log[i].row.start
  }

  ghost predicate Fair(s: System, step: Step) {
    match step
    case Ingest(row) => AcceptedRow(row) && OnTime(s.history, row)
    case BeginSweep =>
      s.pass.Between? && s.pass.done < 3 ==>
        BacklogFits(s.rollups, Present(s.log), ResolutionAt(s.pass.done), s.pass.now)
    case PruneRawBefore(before, done) =>
      && (s.pass.Between? ==> HorizonHolds(s.pass.now, before))
      && (done ==> NoneMissed(s.log, s.missed, Older(before)))
    case DropPartition(day) => NoneMissed(s.log, s.missed, OfDay(day))
    case PruneRollupsBefore(_, before) =>
      && before % DAY == 0
      && (s.pass.Pruning? ==> (s.pass.cleared && before <= s.pass.before) || NoneOlder(s.log, before))
    case _ => true
  }

  // The invariant.

  predicate AllAccepted(log: seq<Entry>) {
    forall i :: 0 <= i < |log| ==> AcceptedRow(log[i].row)
  }

  /** Nothing left the raw table before all three of its buckets were written. */
  ghost predicate AbsentAreClosed(log: seq<Entry>, history: Rollups) {
    forall i, resolution :: 0 <= i < |log| && !log[i].present ==>
      Closed(history, resolution, BucketStart(resolution, log[i].row.start))
  }

  /** A closed bucket holds, for every series, the fold of every row ever ingested in it. */
  ghost predicate Faithful(history: Rollups, rows: seq<Row>) {
    forall key: RollupKey :: Closed(history, key.resolution, key.start) ==>
      && Aligned(key.resolution, key.start)
      && (key in history <==> RollupOf(rows, key.series, key.resolution, key.start).Some?)
      && (key in history ==> RollupOf(rows, key.series, key.resolution, key.start) == Some(history[key]))
  }

  predicate PartOf(rollups: Rollups, history: Rollups) {
    forall key :: key in rollups ==> key in history && history[key] == rollups[key]
  }

  /** While the raw table still has a row of a closed bucket, that bucket's rollups are still there. */
  ghost predicate StillStored(log: seq<Entry>, history: Rollups, rollups: Rollups) {
    forall i, resolution :: 0 <= i < |log| && log[i].present ==>
      Closed(history, resolution, BucketStart(resolution, log[i].row.start)) ==>
      Stored(rollups, resolution, BucketStart(resolution, log[i].row.start))
  }

  predicate Complete(resolution: Resolution, at: int, now: int) {
    BucketEnd(resolution, BucketStart(resolution, at)) <= now
  }

  /** Rows the hourly sweep did not miss are summarised once their bucket is complete. */
  predicate Summarised(log: seq<Entry>, history: Rollups, missed: set<nat>, resolution: Resolution, now: int) {
    forall i :: 0 <= i < |log| && i !in missed && log[i].present && Complete(resolution, log[i].row.start, now) ==>
      Closed(history, resolution, BucketStart(resolution, log[i].row.start))
  }

  predicate SummarisedBefore(log: seq<Entry>, history: Rollups, missed: set<nat>, resolution: Resolution, cursor: int) {
    forall i ::
      0 <= i < |log| && i !in missed && log[i].present && BucketStart(resolution, log[i].row.start) < cursor ==>
      Closed(history, resolution, BucketStart(resolution, log[i].row.start))
  }

  ghost predicate SummarisedUpTo(log: seq<Entry>, history: Rollups, missed: set<nat>, done: nat, now: int) {
    forall resolution :: RankOf(resolution) < done ==> Summarised(log, history, missed, resolution, now)
  }

  ghost predicate SweepHolds(s: System, resolution: Resolution, now: int, cursor: int, stored: set<int>, built: nat) {
    && built <= MAX_BUCKETS_PER_RUN
    && Aligned(resolution, cursor)
    && SummarisedBefore(s.log, s.history, s.missed, resolution, cursor)
    && (forall b :: cursor <= b ==> (b in stored <==> Stored(s.rollups, resolution, b)))
    && UnstoredBetween(s.rollups, resolution, cursor, BucketStart(resolution, now)) <= MAX_BUCKETS_PER_RUN - built
  }

  /** Rows below the horizon that are still there came on time after the prune. */
  ghost predicate HorizonClear(log: seq<Entry>, history: Rollups, before: int) {
    forall i, resolution :: 0 <= i < |log| && log[i].present && log[i].row.start < before ==>
      !Closed(history, resolution, BucketStart(resolution, log[i].row.start))
  }

  /** Missed rows lie in hours that no rollup was written for. */
  ghost predicate MissedAreOpen(log: seq<Entry>, history: Rollups, missed: set<nat>) {
    forall i :: i in missed ==>
      && i < |log|
      && (log[i].present ==> !Closed(history, Hourly, BucketStart(Hourly, log[i].row.start)))
  }

  predicate MissedAreBehind(log: seq<Entry>, missed: set<nat>, cursor: int) {
    forall i :: i in missed ==> i < |log| && BucketStart(Hourly, log[i].row.start) < cursor
  }

  ghost predicate PassHolds(s: System) {
    match s.pass
    case Idle => true
    case Between(now, done) => done <= 3 && SummarisedUpTo(s.log, s.history, s.missed, done, now)
    case Sweeping(now, done, cursor, stored, built) =>
      && done < 3
      && SummarisedUpTo(s.log, s.history, s.missed, done, now)
      && SweepHolds(s, ResolutionAt(done), now, cursor, stored, built)
      && (done == 0 ==> MissedAreBehind(s.log, s.missed, cursor))
    case Pruning(now, before, cleared) =>
      && HorizonHolds(now, before)
      && SummarisedUpTo(s.log, s.history, s.missed, 3, now)
      && (cleared ==> HorizonClear(s.log, s.history, before))
  }

  ghost predicate TablesHold(log: seq<Entry>, rollups: Rollups, history: Rollups) {
    && AllAccepted(log)
    && AbsentAreClosed(log, history)
    && Faithful(history, Rows(log))
    && PartOf(rollups, history)
    && StillStored(log, history, rollups)
  }

  ghost predicate Invariant(s: System) {
    TablesHold(s.log, s.rollups, s.history) && MissedAreOpen(s.log, s.history, s.missed) && PassHolds(s)
  }

  // Rows, present and past.

  lemma PresentGrows(log: seq<Entry>, entry: Entry)
    ensures Present(log + [entry]) == if entry.present then Present(log) + [entry.row] else Present(log)
  {
    assert (log + [entry])[..|log|] == log;
  }

  lemma {:induction false} PresentHas(log: seq<Entry>, row: Row)
    ensures row in Present(log) <==> exists i :: 0 <= i < |log| && log[i].present && log[i].row == row
  {
    if log != [] {
      var front, last := log[..|log| - 1], log[|log| - 1];
      PresentHas(front, row);
      assert last.present && last.row == row ==> log[|log| - 1].row == row;
      assert forall i :: 0 <= i < |front| ==> front[i] == log[i];
    }
  }

  /** Where no row of a stretch of time has been pruned, the raw table tells the whole story. */
  lemma {:induction false} PresentTellsAll(log: seq<Entry>, series: Series, from: int, to: int)
    requires forall i :: 0 <= i < |log| && Within(log[i].row, from, to) ==> log[i].present
    ensures WindowsOf(Present(log), series, from, to) == WindowsOf(Rows(log), series, from, to)
  {
    if log != [] {
      var front, last := log[..|log| - 1], log[|log| - 1];
      PresentTellsAll(front, series, from, to);
      assert Rows(log) == Rows(front) + [last.row];
      WindowsGrow(Rows(front), last.row, series, from, to);
      WindowsGrow(Present(front), last.row, series, from, to);
    }
  }

  lemma {:induction false} AcceptedWindowsReport(rows: seq<Row>, series: Series, from: int, to: int)
    requires forall row :: row in rows ==> AcceptedRow(row)
    ensures var ws := WindowsOf(rows, series, from, to);
      ws == [] || SoundPool(AbsorbAll(ws))
  {
    if rows != [] {
      var front, last := rows[..|rows| - 1], rows[|rows| - 1];
      assert rows == front + [last];
      AcceptedWindowsReport(front, series, from, to);
      if last.series == series && Within(last, from, to) {
        assert AcceptedRow(last);
        var ws := WindowsOf(front, series, from, to);
        assert ws == [] ==> AbsorbAll(ws) == EMPTY;
        AbsorbUnsnoc(ws, last.window);
        AbsorbKeepsSound(AbsorbAll(ws), last.window);
      }
    }
  }

  predicate SoundPool(p: Pool) {
    Reportable(p) && p.low.value <= p.high.value
  }

  lemma AbsorbKeepsSound(p: Pool, w: Window)
    requires p == EMPTY || SoundPool(p)
    requires w.count > 0 && w.min <= w.max
    ensures SoundPool(Absorb(p, w))
  {
  }

  lemma SoundPoolReports(p: Pool)
    requires SoundPool(p)
    ensures Finish(p).Some?
  {
  }

  lemma {:induction false} WindowsHaveRow(rows: seq<Row>, row: Row, from: int, to: int)
    requires row in rows && Within(row, from, to)
    ensures WindowsOf(rows, row.series, from, to) != []
  {
    var front := rows[..|rows| - 1];
    assert rows == front + [rows[|rows| - 1]];
    if row in front {
      WindowsHaveRow(front, row, from, to);
    }
  }

  /** A series with an accepted row in a bucket gets a rollup there. */
  lemma RowGetsRollup(rows: seq<Row>, row: Row, resolution: Resolution)
    requires row in rows && forall r :: r in rows ==> AcceptedRow(r)
    ensures RollupOf(rows, row.series, resolution, BucketStart(resolution, row.start)).Some?
  {
    var start := BucketStart(resolution, row.start);
    var end := BucketEnd(resolution, start);
    InstantIsInItsBucket(resolution, row.start);
    WindowsHaveRow(rows, row, start, end);
    AcceptedWindowsReport(rows, row.series, start, end);
    SoundPoolReports(AbsorbAll(WindowsOf(rows, row.series, start, end)));
  }

  // Ingest.

  lemma {:induction false} OutsideRowLeavesFold(rows: seq<Row>, row: Row, series: Series, resolution: Resolution,
                                                start: int)
    requires Aligned(resolution, start) && BucketStart(resolution, row.start) != start
    ensures RollupOf(rows + [row], series, resolution, start) == RollupOf(rows, series, resolution, start)
  {
    if Within(row, start, BucketEnd(resolution, start)) {
      BucketIsUnique(resolution, start, row.start);
      assert false;
    }
    WindowsGrow(rows, row, series, start, BucketEnd(resolution, start));
  }

  lemma IngestKeepsFaith(history: Rollups, rows: seq<Row>, row: Row)
    requires Faithful(history, rows) && OnTime(history, row)
    ensures Faithful(history, rows + [row])
  {
    forall key: RollupKey | Closed(history, key.resolution, key.start)
      ensures RollupOf(rows + [row], key.series, key.resolution, key.start)
           == RollupOf(rows, key.series, key.resolution, key.start)
      ensures Aligned(key.resolution, key.start)
    {
      OutsideRowLeavesFold(rows, row, key.series, key.resolution, key.start);
    }
  }

  lemma IngestKeepsLog(log: seq<Entry>, row: Row, history: Rollups, rollups: Rollups)
    requires AllAccepted(log) && AbsentAreClosed(log, history) && StillStored(log, history, rollups)
    requires AcceptedRow(row) && OnTime(history, row)
    ensures var grown := log + [Entry(row, true)];
      AllAccepted(grown) && AbsentAreClosed(grown, history) && StillStored(grown, history, rollups)
  {
  }

  lemma LateIsSummarised(log: seq<Entry>, row: Row, history: Rollups, missed: set<nat>, done: nat, now: int)
    requires SummarisedUpTo(log, history, missed, done, now)
    ensures SummarisedUpTo(log + [Entry(row, true)], history, missed + {|log|}, done, now)
  {
    forall resolution | RankOf(resolution) < done
      ensures Summarised(log + [Entry(row, true)], history, missed + {|log|}, resolution, now)
    {
      assert Summarised(log, history, missed, resolution, now);
    }
  }

  lemma IngestKeepsSweep(s: System, row: Row)
    requires s.pass.Sweeping? && PassHolds(s)
    ensures PassHolds(Ingested(s, row))
  {
    var Sweeping(now, done, cursor, stored, built) := s.pass;
    if Late(s.pass, row) {
      LateIsSummarised(s.log, row, s.history, s.missed, done, now);
    }
    var after := Ingested(s, row);
    assert SummarisedBefore(after.log, after.history, after.missed, ResolutionAt(done), cursor);
  }

  lemma IngestKeepsPass(s: System, row: Row)
    requires PassHolds(s) && OnTime(s.history, row)
    ensures PassHolds(Ingested(s, row))
  {
    match s.pass
    case Between(now, done) =>
      if done > 0 {
        LateIsSummarised(s.log, row, s.history, s.missed, done, now);
      }
    case Sweeping(_, _, _, _, _) => IngestKeepsSweep(s, row);
    case Pruning(now, _, _) => LateIsSummarised(s.log, row, s.history, s.missed, 3, now);
    case Idle =>
  }

  lemma IngestKeeps(s: System, row: Row)
    requires Invariant(s) && AcceptedRow(row) && OnTime(s.history, row)
    ensures Invariant(Ingested(s, row))
  {
    IngestKeepsLog(s.log, row, s.history, s.rollups);
    assert Rows(s.log + [Entry(row, true)]) == Rows(s.log) + [row];
    IngestKeepsFaith(s.history, Rows(s.log), row);
    IngestKeepsPass(s, row);
  }

  // A sweep, bucket by bucket.

  lemma BeginSweepKeeps(s: System, resolution: Resolution, now: int, at: int)
    requires EarliestOf(Present(s.log)) == Some(at) && BacklogFits(s.rollups, Present(s.log), resolution, now)
    ensures var start := BucketStart(resolution, at);
      SweepHolds(s, resolution, now, start, BucketsFrom(s.rollups, resolution, start), 0)
  {
    InstantIsInItsBucket(resolution, at);
    forall i | 0 <= i < |s.log| && i !in s.missed && s.log[i].present
      ensures BucketStart(resolution, at) <= BucketStart(resolution, s.log[i].row.start)
    {
      PresentHas(s.log, s.log[i].row);
      BucketStartIsMonotone(resolution, at, s.log[i].row.start);
    }
  }

  lemma NothingPresent(log: seq<Entry>, history: Rollups, missed: set<nat>, resolution: Resolution, now: int)
    requires EarliestOf(Present(log)).None?
    ensures Summarised(log, history, missed, resolution, now)
  {
    forall i | 0 <= i < |log| ensures !log[i].present {
      PresentHas(log, log[i].row);
    }
  }

  lemma OneMoreDone(log: seq<Entry>, history: Rollups, missed: set<nat>, done: nat, now: int)
    requires done < 3 && SummarisedUpTo(log, history, missed, done, now)
    requires Summarised(log, history, missed, ResolutionAt(done), now)
    ensures SummarisedUpTo(log, history, missed, done + 1, now)
  {
    forall resolution | RankOf(resolution) < done + 1 ensures Summarised(log, history, missed, resolution, now) {
      assert RankOf(resolution) == done ==> resolution == ResolutionAt(done);
    }
  }

  lemma {:induction false} NoneLeftMeansStored(rollups: Rollups, resolution: Resolution, from: int, until: int,
                                               bucket: int)
    requires UnstoredBetween(rollups, resolution, from, until) == 0
    requires Aligned(resolution, from) && Aligned(resolution, bucket) && from <= bucket < until
    ensures Stored(rollups, resolution, bucket)
    decreases until - from
  {
    UnstoredSteps(rollups, resolution, from, until);
    if from < bucket {
      BucketsAreApart(resolution, from, bucket);
      NextBucketIsAligned(resolution, from);
      NoneLeftMeansStored(rollups, resolution, BucketEnd(resolution, from), until, bucket);
    }
  }

  lemma CompleteBucketsEndBeforeNow(resolution: Resolution, at: int, now: int)
    requires Complete(resolution, at, now)
    ensures BucketStart(resolution, at) < BucketStart(resolution, now)
  {
    InstantIsInItsBucket(resolution, at);
    NextBucketIsAligned(resolution, BucketStart(resolution, at));
    BucketStartIsMonotone(resolution, BucketEnd(resolution, BucketStart(resolution, at)), now);
  }

  lemma StoredWasClosed(rollups: Rollups, history: Rollups, resolution: Resolution, bucket: int)
    requires PartOf(rollups, history) && Stored(rollups, resolution, bucket)
    ensures Closed(history, resolution, bucket)
  {
    var key :| key in rollups && key.resolution == resolution && key.start == bucket;
    assert key in history;
  }

  /** When the loop stops, by the clock or by the cap, no complete bucket with an older row is left. */
  lemma EndSweepSummarises(s: System, resolution: Resolution, now: int, cursor: int, stored: set<int>, built: nat)
    requires SweepHolds(s, resolution, now, cursor, stored, built) && PartOf(s.rollups, s.history)
    requires built == MAX_BUCKETS_PER_RUN || BucketEnd(resolution, cursor) > now
    ensures Summarised(s.log, s.history, s.missed, resolution, now)
  {
    forall i | 0 <= i < |s.log| && i !in s.missed && s.log[i].present && Complete(resolution, s.log[i].row.start, now)
      ensures Closed(s.history, resolution, BucketStart(resolution, s.log[i].row.start))
    {
      var bucket := BucketStart(resolution, s.log[i].row.start);
      InstantIsInItsBucket(resolution, s.log[i].row.start);
      if cursor <= bucket {
        if cursor < bucket {
          BucketsAreApart(resolution, cursor, bucket);
        }
        assert built == MAX_BUCKETS_PER_RUN;
        CompleteBucketsEndBeforeNow(resolution, s.log[i].row.start, now);
        NoneLeftMeansStored(s.rollups, resolution, cursor, BucketStart(resolution, now), bucket);
        StoredWasClosed(s.rollups, s.history, resolution, bucket);
      }
    }
  }

  lemma OpenBucketIsAllPresent(log: seq<Entry>, history: Rollups, resolution: Resolution, bucket: int, series: Series)
    requires AbsentAreClosed(log, history) && !Closed(history, resolution, bucket) && Aligned(resolution, bucket)
    ensures RollupOf(Present(log), series, resolution, bucket) == RollupOf(Rows(log), series, resolution, bucket)
  {
    forall i | 0 <= i < |log| && Within(log[i].row, bucket, BucketEnd(resolution, bucket)) ensures log[i].present {
      BucketIsUnique(resolution, bucket, log[i].row.start);
    }
    PresentTellsAll(log, series, bucket, BucketEnd(resolution, bucket));
  }

  /** Folding an open bucket from the raw table records what every row ever ingested there says. */
  lemma BuildKeepsFaith(log: seq<Entry>, history: Rollups, resolution: Resolution, bucket: int)
    requires AbsentAreClosed(log, history) && Faithful(history, Rows(log))
    requires !Closed(history, resolution, bucket) && Aligned(resolution, bucket)
    ensures Faithful(InsertIgnoring(history, Folded(Present(log), resolution, bucket)), Rows(log))
  {
    var folded := Folded(Present(log), resolution, bucket);
    var history' := InsertIgnoring(history, folded);
    BuildTouchesOneBucket(history, Present(log), resolution, bucket);
    forall key: RollupKey | Closed(history', key.resolution, key.start)
      ensures Aligned(key.resolution, key.start)
      ensures key in history' <==> RollupOf(Rows(log), key.series, key.resolution, key.start).Some?
      ensures key in history' ==> RollupOf(Rows(log), key.series, key.resolution, key.start) == Some(history'[key])
    {
      if key.resolution == resolution && key.start == bucket {
        OpenBucketIsAllPresent(log, history, resolution, bucket, key.series);
        assert key !in history;
      } else {
        ClosedElsewhere(history, Present(log), resolution, bucket, key.resolution, key.start);
      }
    }
  }

  lemma ClosedElsewhere(history: Rollups, raw: seq<Row>, resolution: Resolution, bucket: int, other: Resolution,
                        at: int)
    requires other != resolution || at != bucket
    ensures Closed(InsertIgnoring(history, Folded(raw, resolution, bucket)), other, at) <==> Closed(history, other, at)
  {
    var history' := InsertIgnoring(history, Folded(raw, resolution, bucket));
    BuildTouchesOneBucket(history, raw, resolution, bucket);
    if key :| key in history' && key.resolution == other && key.start == at {
      assert key in history;
    }
    if key :| key in history && key.resolution == other && key.start == at {
      assert key in history';
    }
  }

  /** `after` is `before` with the fold of one bucket that neither table had, or unchanged. */
  ghost predicate Writes(rollups: Rollups, history: Rollups, raw: seq<Row>, resolution: Resolution, bucket: int,
                         written: Rollups) {
    || written == map[]
    || (written == Folded(raw, resolution, bucket)
        && !Stored(rollups, resolution, bucket) && !Closed(history, resolution, bucket))
  }

  lemma ClosedBucketHasNothingLeft(log: seq<Entry>, history: Rollups, rollups: Rollups, resolution: Resolution,
                                   bucket: int)
    requires StillStored(log, history, rollups) && Aligned(resolution, bucket)
    requires Closed(history, resolution, bucket) && !Stored(rollups, resolution, bucket)
    ensures Folded(Present(log), resolution, bucket) == map[]
  {
    var left := Selected(Present(log), bucket, BucketEnd(resolution, bucket));
    if left != [] {
      assert left[0] in left;
      BucketIsUnique(resolution, bucket, left[0].start);
      PresentHas(log, left[0]);
      assert false;
    }
    NothingSelected(Present(log), resolution, bucket);
  }

  lemma SweepWrites(s: System, resolution: Resolution, now: int, cursor: int, stored: set<int>, built: nat)
    requires StillStored(s.log, s.history, s.rollups)
    requires SweepHolds(s, resolution, now, cursor, stored, built)
    ensures Writes(s.rollups, s.history, Present(s.log), resolution, cursor, Written(s.log, resolution, cursor, stored))
  {
    if cursor !in stored && Closed(s.history, resolution, cursor) {
      ClosedBucketHasNothingLeft(s.log, s.history, s.rollups, resolution, cursor);
    }
  }

  lemma InsertingNothing(table: Rollups)
    ensures InsertIgnoring(table, map[]) == table
  {
  }

  lemma StoredStays(table: Rollups, written: Rollups, resolution: Resolution, bucket: int)
    requires Stored(table, resolution, bucket)
    ensures Stored(InsertIgnoring(table, written), resolution, bucket)
  {
    var key :| key in table && key.resolution == resolution && key.start == bucket;
    assert key in InsertIgnoring(table, written);
  }

  lemma WritesKeepFaith(s: System, resolution: Resolution, bucket: int, written: Rollups)
    requires AbsentAreClosed(s.log, s.history) && Faithful(s.history, Rows(s.log)) && Aligned(resolution, bucket)
    requires Writes(s.rollups, s.history, Present(s.log), resolution, bucket, written)
    ensures Faithful(InsertIgnoring(s.history, written), Rows(s.log))
  {
    if written == map[] {
      InsertingNothing(s.history);
    } else {
      BuildKeepsFaith(s.log, s.history, resolution, bucket);
    }
  }

  lemma WritesKeepPart(rollups: Rollups, history: Rollups, raw: seq<Row>, resolution: Resolution, bucket: int,
                       written: Rollups)
    requires PartOf(rollups, history) && Writes(rollups, history, raw, resolution, bucket, written)
    ensures PartOf(InsertIgnoring(rollups, written), InsertIgnoring(history, written))
  {
    forall key | key in written && key !in rollups ensures key !in history {
    }
  }

  lemma WritesKeepAbsent(log: seq<Entry>, history: Rollups, written: Rollups)
    requires AbsentAreClosed(log, history)
    ensures AbsentAreClosed(log, InsertIgnoring(history, written))
  {
    forall i, resolution | 0 <= i < |log| && !log[i].present
      ensures Closed(InsertIgnoring(history, written), resolution, BucketStart(resolution, log[i].row.start))
    {
      StoredStays(history, written, resolution, BucketStart(resolution, log[i].row.start));
    }
  }

  lemma WritesKeepStored(log: seq<Entry>, rollups: Rollups, history: Rollups, raw: seq<Row>, resolution: Resolution,
                         bucket: int, written: Rollups)
    requires StillStored(log, history, rollups) && Writes(rollups, history, raw, resolution, bucket, written)
    ensures StillStored(log, InsertIgnoring(history, written), InsertIgnoring(rollups, written))
  {
    forall i, other: Resolution | 0 <= i < |log| && log[i].present
      && Closed(InsertIgnoring(history, written), other, BucketStart(other, log[i].row.start))
      ensures Stored(InsertIgnoring(rollups, written), other, BucketStart(other, log[i].row.start))
    {
      ClosedNowMeansStored(rollups, history, written, other, BucketStart(other, log[i].row.start));
      if Closed(history, other, BucketStart(other, log[i].row.start)) {
        StoredStays(rollups, written, other, BucketStart(other, log[i].row.start));
      }
    }
  }

  lemma ClosedNowMeansStored(rollups: Rollups, history: Rollups, written: Rollups, resolution: Resolution, bucket: int)
    requires Closed(InsertIgnoring(history, written), resolution, bucket)
    ensures Closed(history, resolution, bucket) || Stored(InsertIgnoring(rollups, written), resolution, bucket)
  {
    var key :| key in InsertIgnoring(history, written) && key.resolution == resolution && key.start == bucket;
    if key !in history {
      assert key in InsertIgnoring(rollups, written);
    }
  }

  lemma WritesKeepSummarised(log: seq<Entry>, history: Rollups, written: Rollups, missed: set<nat>, done: nat, now: int)
    requires SummarisedUpTo(log, history, missed, done, now)
    ensures SummarisedUpTo(log, InsertIgnoring(history, written), missed, done, now)
  {
    forall resolution | RankOf(resolution) < done
      ensures Summarised(log, InsertIgnoring(history, written), missed, resolution, now)
    {
      assert Summarised(log, history, missed, resolution, now);
      forall i | 0 <= i < |log| && i !in missed && log[i].present && Complete(resolution, log[i].row.start, now)
        ensures Closed(InsertIgnoring(history, written), resolution, BucketStart(resolution, log[i].row.start))
      {
        StoredStays(history, written, resolution, BucketStart(resolution, log[i].row.start));
      }
    }
  }

  /** The bucket just swept is closed if the raw table has a row in it. */
  lemma SweptRowIsClosed(s: System, resolution: Resolution, now: int, cursor: int, stored: set<int>, built: nat, i: nat)
    requires AllAccepted(s.log) && PartOf(s.rollups, s.history)
    requires SweepHolds(s, resolution, now, cursor, stored, built)
    requires i < |s.log| && s.log[i].present && BucketStart(resolution, s.log[i].row.start) == cursor
    ensures Closed(InsertIgnoring(s.history, Written(s.log, resolution, cursor, stored)), resolution, cursor)
  {
    var written := Written(s.log, resolution, cursor, stored);
    if cursor in stored {
      StoredWasClosed(s.rollups, s.history, resolution, cursor);
      StoredStays(s.history, written, resolution, cursor);
    } else {
      var row := s.log[i].row;
      PresentHas(s.log, row);
      AllPresentAccepted(s.log);
      RowGetsRollup(Present(s.log), row, resolution);
      var key := RollupKey(row.series, resolution, cursor);
      assert key in InsertIgnoring(s.history, written);
    }
  }

  lemma AllPresentAccepted(log: seq<Entry>)
    requires AllAccepted(log)
    ensures forall row :: row in Present(log) ==> AcceptedRow(row)
  {
    forall row | row in Present(log) ensures AcceptedRow(row) {
      PresentHas(log, row);
    }
  }

  lemma SweepAdvances(s: System, resolution: Resolution, now: int, cursor: int, stored: set<int>, built: nat)
    requires AllAccepted(s.log) && PartOf(s.rollups, s.history)
    requires SweepHolds(s, resolution, now, cursor, stored, built)
    ensures SummarisedBefore(s.log, InsertIgnoring(s.history, Written(s.log, resolution, cursor, stored)), s.missed,
                             resolution, BucketEnd(resolution, cursor))
  {
    var written := Written(s.log, resolution, cursor, stored);
    forall i | 0 <= i < |s.log| && i !in s.missed && s.log[i].present
      && BucketStart(resolution, s.log[i].row.start) < BucketEnd(resolution, cursor)
      ensures Closed(InsertIgnoring(s.history, written), resolution, BucketStart(resolution, s.log[i].row.start))
    {
      var bucket := BucketStart(resolution, s.log[i].row.start);
      InstantIsInItsBucket(resolution, s.log[i].row.start);
      if bucket < cursor {
        StoredStays(s.history, written, resolution, bucket);
      } else {
        if cursor < bucket {
          BucketsAreApart(resolution, cursor, bucket);
          assert false;
        }
        SweptRowIsClosed(s, resolution, now, cursor, stored, built, i);
      }
    }
  }

  lemma SweepCounts(s: System, resolution: Resolution, now: int, cursor: int, stored: set<int>, built: nat)
    requires SweepHolds(s, resolution, now, cursor, stored, built)
    requires built < MAX_BUCKETS_PER_RUN && BucketEnd(resolution, cursor) <= now
    ensures var rollups := InsertIgnoring(s.rollups, Written(s.log, resolution, cursor, stored));
      && (forall b :: b != cursor ==> (Stored(rollups, resolution, b) <==> Stored(s.rollups, resolution, b)))
      && UnstoredBetween(rollups, resolution, BucketEnd(resolution, cursor), BucketStart(resolution, now))
         <= MAX_BUCKETS_PER_RUN - (if cursor in stored then built else built + 1)
  {
    var written := Written(s.log, resolution, cursor, stored);
    var rollups := InsertIgnoring(s.rollups, written);
    if cursor in stored {
      InsertingNothing(s.rollups);
    } else {
      BuildTouchesOneBucket(s.rollups, Present(s.log), resolution, cursor);
    }
    UnstoredIgnoresEarlier(s.rollups, rollups, resolution, BucketEnd(resolution, cursor), BucketStart(resolution, now));
    CursorIsBehindNow(resolution, cursor, now);
    UnstoredSteps(s.rollups, resolution, cursor, BucketStart(resolution, now));
  }

  lemma CursorIsBehindNow(resolution: Resolution, cursor: int, now: int)
    requires Aligned(resolution, cursor) && BucketEnd(resolution, cursor) <= now
    ensures cursor < BucketStart(resolution, now)
  {
    CompleteBucketsEndBeforeNow(resolution, cursor, now);
  }

  ghost predicate SweptHolds(s: System, resolution: Resolution, now: int, cursor: int, stored: set<int>, built: nat,
                             written: Rollups) {
    SweepHolds(System(s.log, InsertIgnoring(s.rollups, written), InsertIgnoring(s.history, written), s.missed, s.pass),
               resolution, now, BucketEnd(resolution, cursor), stored, if cursor in stored then built else built + 1)
  }

  lemma SweepStepHolds(s: System, resolution: Resolution, now: int, cursor: int, stored: set<int>, built: nat)
    requires AllAccepted(s.log) && PartOf(s.rollups, s.history)
    requires SweepHolds(s, resolution, now, cursor, stored, built)
    requires built < MAX_BUCKETS_PER_RUN && BucketEnd(resolution, cursor) <= now
    ensures SweptHolds(s, resolution, now, cursor, stored, built, Written(s.log, resolution, cursor, stored))
  {
    SweepAdvances(s, resolution, now, cursor, stored, built);
    SweepCounts(s, resolution, now, cursor, stored, built);
    NextBucketIsAligned(resolution, cursor);
  }

  lemma WritesKeepTables(s: System, resolution: Resolution, bucket: int, written: Rollups)
    requires TablesHold(s.log, s.rollups, s.history) && Aligned(resolution, bucket)
    requires Writes(s.rollups, s.history, Present(s.log), resolution, bucket, written)
    ensures TablesHold(s.log, InsertIgnoring(s.rollups, written), InsertIgnoring(s.history, written))
  {
    WritesKeepFaith(s, resolution, bucket, written);
    WritesKeepPart(s.rollups, s.history, Present(s.log), resolution, bucket, written);
    WritesKeepAbsent(s.log, s.history, written);
    WritesKeepStored(s.log, s.rollups, s.history, Present(s.log), resolution, bucket, written);
  }

  // Pruning.

  lemma PresentAfterPrune(log: seq<Entry>, before: int)
    ensures Present(Without(log, Older(before))) == StartingFrom(Present(log), before)
    decreases |log|
  {
    if log != [] {
      var front, last := log[..|log| - 1], log[|log| - 1];
      PresentAfterPrune(front, before);
      var kept := Entry(last.row, last.present && before <= last.row.start);
      assert Without(log, Older(before)) == Without(front, Older(before)) + [kept];
      PresentGrows(Without(front, Older(before)), kept);
      if last.present {
        assert (Present(front) + [last.row])[..|Present(front)|] == Present(front);
      }
    }
  }

  lemma OldRowIsComplete(resolution: Resolution, at: int, now: int, before: int)
    requires at < before && before + WEEK <= now
    ensures Complete(resolution, at, now)
  {
    BucketIsAtMostAWeek(resolution, at);
  }

  /**
    * What is older than the horizon and was there in time for the hourly sweep is summarised at all three
    * resolutions.
    */
  lemma PrunedWasClosed(log: seq<Entry>, history: Rollups, missed: set<nat>, now: int, before: int, i: nat,
                        resolution: Resolution)
    requires SummarisedUpTo(log, history, missed, 3, now) && before + WEEK <= now
    requires i < |log| && i !in missed && log[i].present && log[i].row.start < before
    ensures Closed(history, resolution, BucketStart(resolution, log[i].row.start))
  {
    OldRowIsComplete(resolution, log[i].row.start, now, before);
    assert RankOf(resolution) < 3;
    assert Summarised(log, history, missed, resolution, now);
  }

  lemma RemovalKeepsTables(log: seq<Entry>, rollups: Rollups, history: Rollups, removal: Removal)
    requires TablesHold(log, rollups, history)
    requires forall i, resolution :: 0 <= i < |log| && log[i].present && Takes(removal, log[i].row) ==>
      Closed(history, resolution, BucketStart(resolution, log[i].row.start))
    ensures TablesHold(Without(log, removal), rollups, history)
  {
    assert Rows(Without(log, removal)) == Rows(log);
  }

  lemma SafeRemovalKeepsTables(s: System, now: int, before: int, removal: Removal)
    requires TablesHold(s.log, s.rollups, s.history)
    requires SummarisedUpTo(s.log, s.history, s.missed, 3, now) && before + WEEK <= now
    requires forall row :: Takes(removal, row) ==> row.start < before
    requires NoneMissed(s.log, s.missed, removal)
    ensures TablesHold(Without(s.log, removal), s.rollups, s.history)
  {
    forall i, resolution | 0 <= i < |s.log| && s.log[i].present && Takes(removal, s.log[i].row)
      ensures Closed(s.history, resolution, BucketStart(resolution, s.log[i].row.start))
    {
      PrunedWasClosed(s.log, s.history, s.missed, now, before, i, resolution);
    }
    RemovalKeepsTables(s.log, s.rollups, s.history, removal);
  }

  /**
    * Once the sweeps of a pass are over, taking old rows out of the raw table, by the delete or with
    * their partition, keeps the tables right exactly when none of them was missed by the hourly sweep.
    */
  lemma RemovalIsSafeExactlyWhen(s: System, now: int, before: int, removal: Removal)
    requires TablesHold(s.log, s.rollups, s.history) && MissedAreOpen(s.log, s.history, s.missed)
    requires SummarisedUpTo(s.log, s.history, s.missed, 3, now) && before + WEEK <= now
    requires forall row :: Takes(removal, row) ==> row.start < before
    ensures TablesHold(Without(s.log, removal), s.rollups, s.history) <==> NoneMissed(s.log, s.missed, removal)
  {
    if NoneMissed(s.log, s.missed, removal) {
      SafeRemovalKeepsTables(s, now, before, removal);
    } else {
      var i: nat :| i in s.missed && i < |s.log| && s.log[i].present && Takes(removal, s.log[i].row);
      assert !Without(s.log, removal)[i].present;
      assert !Closed(s.history, Hourly, BucketStart(Hourly, s.log[i].row.start));
    }
  }

  lemma RemovalKeepsSummarised(log: seq<Entry>, history: Rollups, missed: set<nat>, removal: Removal, now: int)
    requires SummarisedUpTo(log, history, missed, 3, now)
    ensures SummarisedUpTo(Without(log, removal), history, missed, 3, now)
  {
    forall resolution | RankOf(resolution) < 3
      ensures Summarised(Without(log, removal), history, missed, resolution, now)
    {
      assert Summarised(log, history, missed, resolution, now);
    }
  }

  lemma PruneRawKeeps(s: System, before: int, done: bool)
    requires Invariant(s) && Fair(s, PruneRawBefore(before, done)) && s.pass.Between? && s.pass.done == 3
    ensures Invariant(Next(s, PruneRawBefore(before, done)).value)
  {
    if done {
      SafeRemovalKeepsTables(s, s.pass.now, before, Older(before));
      RemovalKeepsSummarised(s.log, s.history, s.missed, Older(before), s.pass.now);
    }
  }

  lemma DayIsBefore(day: int, before: int)
    requires (day + 1) * DAY <= before
    ensures forall row :: Takes(OfDay(day), row) ==> row.start < before
  {
    forall row | Takes(OfDay(day), row) ensures row.start < before {
      assert row.start == DAY * (row.start / DAY) + row.start % DAY;
    }
  }

  lemma DropKeeps(s: System, day: int)
    requires Invariant(s) && Fair(s, DropPartition(day)) && s.pass.Pruning? && (day + 1) * DAY <= s.pass.before
    ensures Invariant(Next(s, DropPartition(day)).value)
  {
    DayIsBefore(day, s.pass.before);
    SafeRemovalKeepsTables(s, s.pass.now, s.pass.before, OfDay(day));
    RemovalKeepsSummarised(s.log, s.history, s.missed, OfDay(day), s.pass.now);
  }

  lemma BucketEndsByMidnight(resolution: Resolution, at: int, midnight: int)
    requires resolution != Weekly && midnight % DAY == 0 && BucketStart(resolution, at) < midnight
    ensures at < midnight
  {
    if resolution == Hourly {
      var hour, days := at / HOUR, midnight / DAY;
      assert at == HOUR * hour + at % HOUR;
      assert midnight == HOUR * (24 * days);
      assert hour < 24 * days;
    }
  }

  lemma PruneRollupsKeepsTables(log: seq<Entry>, rollups: Rollups, history: Rollups, resolution: Resolution,
                                before: int)
    requires TablesHold(log, rollups, history) && HorizonClear(log, history, before)
    requires resolution != Weekly && before % DAY == 0
    ensures TablesHold(log, WithoutOlder(rollups, resolution, before), history)
  {
    var kept := WithoutOlder(rollups, resolution, before);
    forall i, other: Resolution | 0 <= i < |log| && log[i].present
      && Closed(history, other, BucketStart(other, log[i].row.start))
      ensures Stored(kept, other, BucketStart(other, log[i].row.start))
    {
      var bucket := BucketStart(other, log[i].row.start);
      var key :| key in rollups && key.resolution == other && key.start == bucket;
      if other == resolution && bucket < before {
        BucketEndsByMidnight(resolution, log[i].row.start, before);
        assert false;
      }
      assert key in kept;
    }
  }

  lemma PruneRollupsKeeps(s: System, resolution: Resolution, before: int)
    requires Invariant(s) && Fair(s, PruneRollupsBefore(resolution, before)) && s.pass.Pruning? && resolution != Weekly
    ensures Invariant(Next(s, PruneRollupsBefore(resolution, before)).value)
  {
    assert HorizonClear(s.log, s.history, before);
    PruneRollupsKeepsTables(s.log, s.rollups, s.history, resolution, before);
  }

  // Every step.

  lemma WritesKeepMissed(s: System, resolution: Resolution, cursor: int, written: Rollups)
    requires MissedAreOpen(s.log, s.history, s.missed)
    requires resolution == Hourly ==> MissedAreBehind(s.log, s.missed, cursor)
    requires Writes(s.rollups, s.history, Present(s.log), resolution, cursor, written)
    ensures MissedAreOpen(s.log, InsertIgnoring(s.history, written), s.missed)
  {
    if written == map[] {
      InsertingNothing(s.history);
    } else {
      forall i | i in s.missed && s.log[i].present
        ensures !Closed(InsertIgnoring(s.history, written), Hourly, BucketStart(Hourly, s.log[i].row.start))
      {
        ClosedElsewhere(s.history, Present(s.log), resolution, cursor, Hourly, BucketStart(Hourly, s.log[i].row.start));
      }
    }
  }

  lemma SweepKeeps(s: System)
    requires Invariant(s) && s.pass.Sweeping? && LoopGoesOn(s.pass)
    ensures Invariant(Next(s, SweepBucket).value)
  {
    var Sweeping(now, done, cursor, stored, built) := s.pass;
    var resolution := ResolutionAt(done);
    var written := Written(s.log, resolution, cursor, stored);
    SweepWrites(s, resolution, now, cursor, stored, built);
    WritesKeepTables(s, resolution, cursor, written);
    WritesKeepMissed(s, resolution, cursor, written);
    WritesKeepSummarised(s.log, s.history, written, s.missed, done, now);
    SweepStepHolds(s, resolution, now, cursor, stored, built);
  }

  lemma BeginSweepHolds(s: System)
    requires Invariant(s) && Fair(s, BeginSweep) && s.pass.Between? && s.pass.done < 3
    ensures PassHolds(Next(s, BeginSweep).value)
  {
    var Between(now, done) := s.pass;
    var resolution := ResolutionAt(done);
    var next := Next(s, BeginSweep).value;
    assert SummarisedUpTo(next.log, next.history, next.missed, done, now);
    match EarliestOf(Present(s.log))
    case None =>
      NothingPresent(s.log, s.history, next.missed, resolution, now);
      OneMoreDone(s.log, s.history, next.missed, done, now);
    case Some(at) =>
      BeginSweepKeeps(next, resolution, now, at);
  }

  lemma EndSweepHolds(s: System)
    requires Invariant(s) && s.pass.Sweeping? && !LoopGoesOn(s.pass)
    ensures PassHolds(Next(s, EndSweep).value)
  {
    var Sweeping(now, done, cursor, stored, built) := s.pass;
    EndSweepSummarises(s, ResolutionAt(done), now, cursor, stored, built);
    OneMoreDone(s.log, s.history, s.missed, done, now);
  }

  lemma StepKeeps(s: System, step: Step)
    requires Invariant(s) && Fair(s, step) && Next(s, step).Some?
    ensures Invariant(Next(s, step).value)
  {
    match step
    case Ingest(row) => IngestKeeps(s, row);
    case BeginSweep => BeginSweepHolds(s);
    case SweepBucket => SweepKeeps(s);
    case EndSweep => EndSweepHolds(s);
    case PruneRawBefore(before, done) => PruneRawKeeps(s, before, done);
    case DropPartition(day) => DropKeeps(s, day);
    case PruneRollupsBefore(resolution, before) => PruneRollupsKeeps(s, resolution, before);
    case _ =>
  }
}
