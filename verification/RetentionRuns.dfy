/** Every run of ingest and maintenance: what is never lost, what never changes, and what can be. */
module RetentionRuns {
  import opened Wrappers
  import opened Buckets
  import opened Rollup
  import opened Retention

  // Every run.

  ghost predicate IsRun(states: seq<System>, steps: seq<Step>) {
    && |states| == |steps| + 1
    && states[0] == INITIAL
    && forall i :: 0 <= i < |steps| ==> Fair(states[i], steps[i]) && Next(states[i], steps[i]) == Some(states[i + 1])
  }

  lemma {:induction false} RunHolds(states: seq<System>, steps: seq<Step>, i: nat)
    requires IsRun(states, steps) && i < |states|
    ensures Invariant(states[i])
  {
    if i > 0 {
      RunHolds(states, steps, i - 1);
      assert Fair(states[i - 1], steps[i - 1]);
      StepKeeps(states[i - 1], steps[i - 1]);
    }
  }

  lemma StepKeepsHistory(s: System, step: Step)
    requires Next(s, step).Some?
    ensures PartOf(s.history, Next(s, step).value.history)
  {
  }

  lemma {:induction false} HistoryOnlyGrows(states: seq<System>, steps: seq<Step>, i: nat, j: nat)
    requires IsRun(states, steps) && i <= j < |states|
    ensures PartOf(states[i].history, states[j].history)
  {
    if i < j {
      HistoryOnlyGrows(states, steps, i, j - 1);
      assert Next(states[j - 1], steps[j - 1]) == Some(states[j]);
      StepKeepsHistory(states[j - 1], steps[j - 1]);
    }
  }

  lemma AllRowsAccepted(log: seq<Entry>)
    requires AllAccepted(log)
    ensures forall row :: row in Rows(log) ==> AcceptedRow(row)
  {
  }

  /**
    * In every run, a row that is no longer in the raw table has a rollup at all three
    * resolutions, each the fold of every row its bucket ever received.
    */
  lemma NothingIsPrunedUnsummarised(states: seq<System>, steps: seq<Step>, i: nat, k: nat, resolution: Resolution)
    requires IsRun(states, steps) && i < |states|
    requires k < |states[i].log| && !states[i].log[k].present
    ensures var row := states[i].log[k].row;
      var key := RollupKey(row.series, resolution, BucketStart(resolution, row.start));
      key in states[i].history
      && RollupOf(Rows(states[i].log), key.series, key.resolution, key.start) == Some(states[i].history[key])
  {
    RunHolds(states, steps, i);
    var log, row := states[i].log, states[i].log[k].row;
    assert Closed(states[i].history, resolution, BucketStart(resolution, row.start));
    AllRowsAccepted(log);
    assert Rows(log)[k] == row;
    RowGetsRollup(Rows(log), row, resolution);
    var key := RollupKey(row.series, resolution, BucketStart(resolution, row.start));
    assert Closed(states[i].history, key.resolution, key.start);
  }

  /**
    * In every run, a stored rollup is the fold of every row its bucket ever receives, before and
    * after, and reads the same for as long as it is stored.
    */
  lemma StoredRollupsAreFinal(states: seq<System>, steps: seq<Step>, i: nat, j: nat, key: RollupKey)
    requires IsRun(states, steps) && i <= j < |states|
    requires key in states[i].rollups
    ensures RollupOf(Rows(states[j].log), key.series, key.resolution, key.start) == Some(states[i].rollups[key])
    ensures key in states[j].rollups ==> states[j].rollups[key] == states[i].rollups[key]
  {
    RunHolds(states, steps, i);
    RunHolds(states, steps, j);
    HistoryOnlyGrows(states, steps, i, j);
    assert key in states[j].history;
    assert Closed(states[j].history, key.resolution, key.start);
  }

  // The steps of an undisturbed sweep are the catch-up loop.

  function SweepOut(s: System): (r: System)
    requires s.pass.Sweeping? && s.pass.done < 3
    ensures r.pass.Sweeping? && r.pass.now == s.pass.now && r.pass.done == s.pass.done && !LoopGoesOn(r.pass)
    ensures r.log == s.log
    decreases s.pass.now - s.pass.cursor
  {
    if LoopGoesOn(s.pass) then SweepOut(Next(s, SweepBucket).value) else s
  }

  ghost predicate SnapshotHolds(s: System, resolution: Resolution)
    requires s.pass.Sweeping?
  {
    && s.pass.built <= MAX_BUCKETS_PER_RUN
    && forall b :: s.pass.cursor <= b ==> (b in s.pass.stored <==> Stored(s.rollups, resolution, b))
  }

  lemma {:induction false} SweepIsTheLoop(s: System, room: nat)
    requires s.pass.Sweeping? && s.pass.done < 3
    requires SnapshotHolds(s, ResolutionAt(s.pass.done)) && room == MAX_BUCKETS_PER_RUN - s.pass.built
    ensures SweepOut(s).rollups
         == RunFrom(Tables(Present(s.log), s.rollups), ResolutionAt(s.pass.done), s.pass.cursor, s.pass.now,
           room).rollups
    decreases s.pass.now - s.pass.cursor
  {
    var resolution := ResolutionAt(s.pass.done);
    var tables := Tables(Present(s.log), s.rollups);
    if LoopGoesOn(s.pass) {
      var next := Next(s, SweepBucket).value;
      RunSteps(tables, resolution, s.pass.cursor, s.pass.now, room);
      if s.pass.cursor in s.pass.stored {
        InsertingNothing(s.rollups);
        SweepIsTheLoop(next, room);
      } else {
        BuildTouchesOneBucket(s.rollups, Present(s.log), resolution, s.pass.cursor);
        SweepIsTheLoop(next, room - 1);
      }
    } else {
      RunStops(tables, resolution, s.pass.cursor, s.pass.now, room);
    }
  }

  /** One resolution swept with nothing in between. */
  function QuietSweep(s: System): System
    requires s.pass.Between? && s.pass.done < 3
  {
    var begun := Next(s, BeginSweep).value;
    if begun.pass.Sweeping? then Next(SweepOut(begun), EndSweep).value else begun
  }

  function Seen(s: System): Tables {
    Tables(Present(s.log), s.rollups)
  }

  /** A sweep that nothing interrupts leaves what one call of the job leaves. */
  lemma QuietSweepIsOneRun(s: System)
    requires s.pass.Between? && s.pass.done < 3
    ensures Seen(QuietSweep(s)) == RunOf(Seen(s), ResolutionAt(s.pass.done), s.pass.now, MAX_BUCKETS_PER_RUN)
    ensures QuietSweep(s).log == s.log && QuietSweep(s).pass == Between(s.pass.now, s.pass.done + 1)
  {
    var begun := Next(s, BeginSweep).value;
    if begun.pass.Sweeping? {
      SweepIsTheLoop(begun, MAX_BUCKETS_PER_RUN);
    }
  }

  predicate AllEndBy(days: seq<int>, before: int) {
    forall i :: 0 <= i < |days| ==> (days[i] + 1) * DAY <= before
  }

  /** The partitions of these days dropped one after the other. */
  function DropOut(s: System, days: seq<int>): (r: System)
    requires s.pass.Pruning? && AllEndBy(days, s.pass.before)
    ensures r.pass == s.pass
    decreases |days|
  {
    if days == [] then s
    else DropOut(Next(s, DropPartition(days[0])).value, days[1..])
  }

  /** A whole pass with nothing in between; every statement of it goes through. */
  function QuietPass(s: System, now: int, before: int, days: seq<int>, hourly: int, daily: int): System
    requires s.pass.Idle? && AllEndBy(days, before)
  {
    var swept := QuietSwept(s, now);
    var pruned := DropOut(Next(swept, PruneRawBefore(before, true)).value, days);
    var thinned := Next(pruned, PruneRollupsBefore(Hourly, hourly)).value;
    Next(Next(thinned, PruneRollupsBefore(Daily, daily)).value, EndPass).value
  }

  function QuietSwept(s: System, now: int): (r: System)
    requires s.pass.Idle?
    ensures r.pass == Between(now, 3)
  {
    var begun := Next(s, BeginPass(now)).value;
    QuietSweepIsOneRun(begun);
    QuietSweepIsOneRun(QuietSweep(begun));
    QuietSweepIsOneRun(QuietSweep(QuietSweep(begun)));
    QuietSweep(QuietSweep(QuietSweep(begun)))
  }

  lemma QuietSweptIsRunAll(s: System, now: int)
    requires s.pass.Idle?
    ensures Seen(QuietSwept(s, now)) == RunAllOf(Seen(s), now) && QuietSwept(s, now).log == s.log
  {
    var begun := Next(s, BeginPass(now)).value;
    QuietSweepIsOneRun(begun);
    QuietSweepIsOneRun(QuietSweep(begun));
    QuietSweepIsOneRun(QuietSweep(QuietSweep(begun)));
  }

  lemma NothingLeftToDrop(log: seq<Entry>, before: int, day: int)
    requires NoneOlder(log, before) && (day + 1) * DAY <= before
    ensures Without(log, OfDay(day)) == log
  {
    forall i | 0 <= i < |log| && log[i].present ensures !Takes(OfDay(day), log[i].row) {
      assert log[i].row.start == DAY * (log[i].row.start / DAY) + log[i].row.start % DAY;
    }
  }

  lemma {:induction false} DropOutAddsNothing(s: System, days: seq<int>)
    requires s.pass.Pruning? && NoneOlder(s.log, s.pass.before)
    requires AllEndBy(days, s.pass.before)
    ensures DropOut(s, days) == s
    decreases |days|
  {
    if days != [] {
      NothingLeftToDrop(s.log, s.pass.before, days[0]);
      DropOutAddsNothing(s, days[1..]);
    }
  }

  /** A pass that nothing interrupts is one call of the maintenance job, whichever partitions it drops. */
  lemma QuietPassIsOnce(s: System, now: int, before: int, days: seq<int>, hourly: int, daily: int)
    requires s.pass.Idle? && AllEndBy(days, before)
    ensures Seen(QuietPass(s, now, before, days, hourly, daily)) == OnceOf(Seen(s), now, before, hourly, daily)
  {
    var swept := QuietSwept(s, now);
    QuietSweptIsRunAll(s, now);
    PresentAfterPrune(swept.log, before);
    DropOutAddsNothing(Next(swept, PruneRawBefore(before, true)).value, days);
  }

  // When the hypotheses fail.

  /** No run ever touches a bucket that is already stored, so a row that comes late is never folded in. */
  lemma {:induction false} StoredBucketsAreNeverRefolded(tables: Tables, resolution: Resolution, start: int, now: int,
                                                         room: nat, key: RollupKey)
    requires Stored(tables.rollups, key.resolution, key.start)
    ensures var r := RunFrom(tables, resolution, start, now, room).rollups;
      (key in r <==> key in tables.rollups) && (key in r ==> r[key] == tables.rollups[key])
    decreases now - start
  {
    if room == 0 || BucketEnd(resolution, start) > now {
      RunStops(tables, resolution, start, now, room);
    } else {
      RunSteps(tables, resolution, start, now, room);
      if Stored(tables.rollups, resolution, start) {
        StoredBucketsAreNeverRefolded(tables, resolution, BucketEnd(resolution, start), now, room, key);
      } else {
        BuildTouchesOneBucket(tables.rollups, tables.raw, resolution, start);
        StoredStays(tables.rollups, Folded(tables.raw, resolution, start), key.resolution, key.start);
        StoredBucketsAreNeverRefolded(BuildBucket(tables, resolution, start), resolution, BucketEnd(resolution, start),
          now, room - 1, key);
      }
    }
  }

  /** A bucket out of reach of the cap and below the horizon is gone from both tables after the pass. */
  lemma BeyondTheCapIsLost(tables: Tables, resolution: Resolution, start: int, now: int, bucket: int, before: int)
    requires Aligned(resolution, start) && Aligned(resolution, bucket) && start <= bucket
    requires BucketEnd(resolution, bucket) <= now && !Stored(tables.rollups, resolution, bucket)
    requires UnstoredBetween(tables.rollups, resolution, start, bucket) >= 512
    requires BucketEnd(resolution, bucket) <= before
    ensures var swept := RunFrom(tables, resolution, start, now, MAX_BUCKETS_PER_RUN);
      && !Stored(swept.rollups, resolution, bucket)
      && forall row :: row in StartingFrom(swept.raw, before) ==> BucketStart(resolution, row.start) != bucket
  {
    RunReachesExactly(tables, resolution, start, now, MAX_BUCKETS_PER_RUN, bucket);
    forall row | row in StartingFrom(tables.raw, before) ensures BucketStart(resolution, row.start) != bucket {
      InstantIsInItsBucket(resolution, row.start);
    }
  }

  /** A row that arrives after the last sweep and is older than the horizon is pruned unsummarised. */
  lemma MidPassArrivalIsLost(s: System, row: Row, before: int, resolution: Resolution)
    requires s.pass.Between? && s.pass.done == 3 && !Taken(s.log, row)
    requires OnTime(s.history, row) && row.start < before
    ensures var came := Next(s, Ingest(row)).value;
      var pruned := Next(came, PruneRawBefore(before, true)).value;
      |s.log| in came.missed && |pruned.log| == |s.log| + 1 && pruned.log[|s.log|] == Entry(row, false)
      && !Closed(pruned.history, resolution, BucketStart(resolution, row.start))
  {
  }

  /** A row older than the horizon that arrives after the raw delete goes with its day's partition, unsummarised. */
  lemma DropTakesLateArrival(s: System, row: Row, day: int, resolution: Resolution)
    requires s.pass.Pruning? && !Taken(s.log, row) && OnTime(s.history, row)
    requires day == row.start / DAY && (day + 1) * DAY <= s.pass.before
    ensures var came := Next(s, Ingest(row)).value;
      var dropped := Next(came, DropPartition(day)).value;
      |s.log| in came.missed && |dropped.log| == |s.log| + 1 && dropped.log[|s.log|] == Entry(row, false)
      && !Closed(dropped.history, resolution, BucketStart(resolution, row.start))
  {
  }

  /** Such an arrival happens in a run that is fair up to the drop: any first pass, over an empty table. */
  lemma LateArrivalRun(row: Row, now: int, before: int) returns (states: seq<System>, steps: seq<Step>)
    requires AcceptedRow(row) && HorizonHolds(now, before) && row.start < before
    ensures IsRun(states, steps)
    ensures var s := states[|steps|];
      && s == System([Entry(row, true)], map[], map[], {0}, Pruning(now, before, true))
      && Next(s, DropPartition(row.start / DAY)).Some? && !Fair(s, DropPartition(row.start / DAY))
  {
    steps := [BeginPass(now), BeginSweep, BeginSweep, BeginSweep, PruneRawBefore(before, true), Ingest(row)];
    var pruning := System([], map[], map[], {}, Pruning(now, before, true));
    var came := System([Entry(row, true)], map[], map[], {0}, Pruning(now, before, true));
    states := [INITIAL, INITIAL.(pass := Between(now, 0)), INITIAL.(pass := Between(now, 1)),
               INITIAL.(pass := Between(now, 2)), INITIAL.(pass := Between(now, 3)), pruning, came];
    assert Without([], Older(before)) == [];
    assert Next(pruning, Ingest(row)) == Some(came) by {
      assert Next(pruning, Ingest(row)) == Some(Ingested(pruning, row));
      assert Ingested(pruning, row).log == came.log;
      assert Ingested(pruning, row).missed == came.missed;
    }
    MidnightEndsDays(row.start, before);
    assert 0 in came.missed && came.log[0].present;
    assert !NoneMissed(came.log, came.missed, OfDay(row.start / DAY));
  }

  lemma MidnightEndsDays(at: int, midnight: int)
    requires midnight % DAY == 0 && at < midnight
    ensures (at / DAY + 1) * DAY <= midnight
  {
    var day, last := at / DAY, midnight / DAY;
    assert midnight == DAY * last && at == DAY * day + at % DAY;
    assert day < last;
  }

  // The cap is generous enough whenever the raw table is young enough.

  lemma {:induction false} UnstoredIsBounded(rollups: Rollups, resolution: Resolution, from: int, until: int)
    requires Aligned(resolution, from) && Aligned(resolution, until) && from <= until
    ensures UnstoredBetween(rollups, resolution, from, until) * BucketEnd(resolution, 0) <= until - from
    decreases until - from
  {
    if from < until {
      BucketsAreApart(resolution, from, until);
      NextBucketIsAligned(resolution, from);
      UnstoredIsBounded(rollups, resolution, BucketEnd(resolution, from), until);
    }
  }

  /** With no raw row older than the cap in hours, every resolution fits one run. */
  lemma YoungTableFits(rollups: Rollups, raw: seq<Row>, resolution: Resolution, now: int)
    requires forall row :: row in raw ==> now - 512 * 3_600 <= row.start <= now
    ensures BacklogFits(rollups, raw, resolution, now)
  {
    match EarliestOf(raw)
    case None =>
    case Some(at) =>
      EarliestIsARow(raw);
      var from, until := BucketStart(resolution, at), BucketStart(resolution, now);
      InstantIsInItsBucket(resolution, at);
      InstantIsInItsBucket(resolution, now);
      BucketStartIsMonotone(resolution, at, now);
      UnstoredIsBounded(rollups, resolution, from, until);
  }
}
