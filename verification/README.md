# Spektra, verified

Spektra is a fleet of radio nodes and a server. A node measures broadcast channels, summarises
what it measured into windows, journals the reports and delivers them when it can. The server
validates and stores them, rolls windows up into buckets, prunes what is old, compares the newest
windows with a baseline, raises alarms and follows them through a work-order lifecycle.

This project models that logic in Dafny and proves what the system relies on. Code that changes
things step by step is a method or a class here (`Aggregator`, `ReportBuffer`, `MeasurementServer`,
`MeasurementStore`, `Group`, `AlarmDesk`, `Sessions`, `PartitionedTable`, `Decimator`, `Welch`, the
medians and sorts in place); each is tied to a function of its inputs, and the lemmas are about
those functions. What several parts do between each other is a state machine over their steps, and
its theorems are about every run.

| file | what it models |
|---|---|
| `Journal.dfy`, `TornJournal.dfy` | the journal's bytes: varint frames, torn tails, the byte limit, and what is read behind a tear |
| `Wire.dfy`, `Validation.dfy`, `Ingest.dfy` | the messages, the server's checks, and storing a report in one transaction |
| `Aggregation.dfy`, `Statistics.dfy` | gathering samples into a window and summarising them |
| `Delivery.dfy` | store and forward: close, submit, lost acknowledgement, trim, restart, other nodes |
| `Pooling.dfy`, `PoolingOrder.dfy`, `Buckets.dfy`, `Rollup.dfy` | pooling windows in any order, the calendar's buckets, the catch-up run and pruning |
| `Maintenance.dfy` | which rollups a run and a whole pass leave, one by one |
| `Retention.dfy`, `RetentionRuns.dfy` | ingest and maintenance interleaved bucket by bucket, and every run of them |
| `OrderStatistics.dfy`, `Baselines.dfy`, `Detector.dfy` | the in-place median, the robust baseline, the fleet-wide pass and the single examiner |
| `Alarms.dfy` | alarms, events and work orders under three interleaved writers |
| `Rds.dfy` | the RDS block code, group synchronisation and counting (EN 50067:1998, sections 2.3 and 2.4) |
| `Sliding.dfy`, `Decimation.dfy`, `Spectrum.dfy` | block-fed slicing, the decimator and the Welch estimator |
| `Schedule.dfy` | report slots, saturating gaps, live sessions on the node |
| `LiveSessions.dfy`, `SessionRuns.dfy` | the server's live sessions and every run over them |
| `PartitionNames.dfy`, `Partitions.dfy` | daily partitions, their names, and what moving and dropping them keeps |
| `Fleet.dfy`, `Wrappers.dfy`, `Integers.dfy`, `Rearrangement.dfy` | shared names and small facts |

Samples are exact reals and a spread is compared by its square; block arithmetic in the two filters
is left open, so only its order is fixed. A table is a map or a sequence, a transaction one step.
Clocks, database row orders and the behaviour of the link are parameters: the theorems hold for
every value of them that the stated hypotheses admit.

## What the model shows about the code

- A window whose two ends round to the same second passes validation and is refused by the
  measurements table, whose timestamps carry no fraction and whose check wants the end after the
  start. Delivery stops at the first refused report, so such a report holds back everything behind
  it for good unless the byte limit drops it (`Delivery.ShortWindowIsRefused`,
  `Delivery.RefusedReportBlocksForever`). Exactly which reports are taken is
  `Delivery.EmittedReportIsAdmissible`; windows of a second to a day are always taken
  (`Delivery.OrdinaryWindowIsKept`).
- Because a stored window spans at least one second after rounding and windows do not overlap, no
  two accepted reports of a node share a key, with no assumption on window length
  (`Delivery.SourceIsUnique`).
- A torn append is forgiven only until the next append: a payload cut short takes its missing bytes,
  and a length cut short its missing digits, from whatever follows (`TornJournal.TornAppendReads`,
  for every codec, tear and tail). Under a codec that accepts only what it writes, at most one report
  could survive behind a given tear, so an append is safe exactly when nothing of the torn frame was
  written or the journal was rewritten since (`TornJournal.AppendIsSafeExactlyWithoutTear`,
  `TornJournal.RewrittenJournalIsWhole`).
- The rollup cap counts empty buckets; a bucket beyond it and below the horizon is lost
  (`Rollup.RunReachesExactly`, `RetentionRuns.BeyondTheCapIsLost`). A raw table no older than 512 hours
  is always within the cap (`RetentionRuns.YoungTableFits`).
- A row that arrives once the hourly sweep is past its hour, and is older than the horizon, is deleted
  or dropped with its day's partition although no rollup has it (`RetentionRuns.MidPassArrivalIsLost`,
  `RetentionRuns.DropTakesLateArrival`, and a run in which it happens: `RetentionRuns.LateArrivalRun`).
  Taking rows out of the raw table is safe exactly when there is no such row among them
  (`Retention.RemovalIsSafeExactlyWhen`). A row that arrives in a stored bucket is never folded in
  (`RetentionRuns.StoredBucketsAreNeverRefolded`).
- Past 2^32 samples in a bucket the sum is divided by the largest double. The pooled mean is the mean
  exactly when there are fewer, or the samples add up to zero, or they are all the same
  (`Pooling.PooledMeanIsExactlyWhen`).
- At a group's third position a seven-bit burst turns block C into a valid block C', so bursts are
  only promised elsewhere; exactly which errors pass is `Rds.HitPassesExactly`.
- Node numbers that agree modulo the cycle share a slot as long as their products with the slot
  multiplier stay within 64 bits (`Schedule.OperatorSlotsSharedExactly`). Beyond that they share it
  exactly when the cycle divides the 64-bit spans they wrap by, more or fewer
  (`Schedule.AgreeingNodesShareExactly`); `Schedule.WrappedNodeLeavesItsSlot` is a pair that does not.
- `open` reads the clock before it takes the lock; exactly when that revives an ended session is
  `SessionRuns.StaleOpenRevivesExactlyWhen`. That no number is ever accepted from two nodes does not
  depend on it.

## Model

| member | source | states |
|---|---|---|
| Journal.VarintReadsBack | node-agent/src/report.rs:294-298 | Every 64-bit length reads back from its base 128 varint whatever follows it. |
| Journal.VarintIsExact | node-agent/src/report.rs:294-298 | A length is written as the one sequence of seven-bit groups, lowest first, all but the last marked, that has its value and no needless zero at the end. |
| Journal.VarintReadsExactly | node-agent/src/report.rs:378-397 | Of any bytes at all: a length is read exactly when they begin with at most ten such groups, the tenth 0 or 1, and it is their value. |
| Journal.FrameIsDelimited | node-agent/src/report.rs:294-298 | A frame is a report's bytes behind the varint of how many they are. |
| Journal.CutFrameIsNone | node-agent/src/report.rs:378-397 | A frame cut anywhere short of its end is not a report, whatever the codec. |
| Journal.EarlierReportsSurvive | node-agent/src/report.rs:378-397 | Whatever bytes follow, the whole frames at the front of a journal whose reports read back are all recovered first, in order. |
| Journal.JournalReadsBack | node-agent/src/report.rs:378-397 | Any list of frames of reports that read back, followed by any strict prefix of any frame, decodes to exactly that list. |
| Journal.AnyReportsHaveACodec | node-agent/src/report.rs:294-298 | For any list of reports there is a codec under which all of them read back. |
| TornJournal.TornAppendReads | node-agent/src/report.rs:300-306 | For every codec, tear and appended bytes: the reports before the tear, then the torn payload filled from the tail, or the torn length continued by it, and reading resumes behind that; nothing more if too few bytes follow. |
| TornJournal.ShortFrameIsSwallowed | node-agent/src/report.rs:300-306 | A next frame shorter than what a torn payload misses is lost without a trace. |
| TornJournal.AtMostOneSurvives | node-agent/src/report.rs:300-306 | Behind one tear at most one report could be read back, under a codec that accepts only what it writes. |
| TornJournal.AppendIsSafeExactlyWithoutTear | node-agent/src/report.rs:300-306 | Either of two reports appended next is read back exactly when nothing of the torn frame was written. |
| TornJournal.RewrittenJournalIsWhole | node-agent/src/report.rs:332-356 | A journal rewritten from what it reads as forgets the tear: the next append is read back. |
| TornJournal.TornAppendSwallowsTheNext | node-agent/src/report.rs:300-306 | Two reports that read back, a tear of one, and out comes a report that nobody wrote. |
| Journal.ReportBuffer.Pending | node-agent/src/report.rs:314-325 | Reading decodes the file's bytes; if they are whole frames of reports that read back it returns exactly those. |
| Journal.ReportBuffer.Replace | node-agent/src/report.rs:332-356 | The journal becomes exactly the remaining reports. |
| Journal.ReportBuffer.EnforceLimit | node-agent/src/report.rs:358-376 | Over the limit the newest n / 2 of the n reports that can be read are kept, in order, and a torn tail is left behind; within it, or with a limit of zero, nothing changes. |
| Journal.NewerHalfStays | node-agent/src/report.rs:364-371 | The half that stays is the last n / 2 of them: with two or more the newest stays, with one nothing does. |
| Journal.ReportBuffer.Push | node-agent/src/report.rs:289-307 | The frame goes to the end of the file, torn or not, and the limit is enforced on the whole. |
| Journal.ReportBuffer.TornPush | node-agent/src/report.rs:300-304 | After an append cut short an untorn journal still reads as before it. |
| Validation.MeasurementsVerdict | server/src/grpc/validate.rs:92-135 | A report passes exactly when each of its parts is good, independently of the order of checks. |
| Validation.ChannelVerdict | server/src/grpc/validate.rs:119-132 | A channel passes exactly when it is in its band, has readings, and all of them are good. |
| Validation.StatsVerdict | server/src/grpc/validate.rs:193-251 | A reading passes exactly when its statistics are finite and ordered and its extremes lie in the metric's range. |
| Validation.RefusalNamesAFault | server/src/grpc/validate.rs:92-251 | A report is refused for a fault it really has, each of the nineteen named as it is. |
| Validation.GoodReportPrepares | server/src/grpc/persist.rs:46-127 | A validated report is converted exactly when its labels have at most 100 characters, its counts fit 64 bits and its window ends lie in the calendar. |
| Validation.PreparedCarriesTheReport | server/src/grpc/persist.rs:46-127 | The converted report carries the wire's channels, metrics and statistics one for one. |
| Wire.FiniteFieldByField | server/src/grpc/persist.rs:104-127 | Statistics are taken field by field, and refused when any is not finite. |
| Wire.RangesInNumbers | protocol/src/lib.rs:28-38 | A metric is accepted within -150 to 0 dB, 0 to 80 dB, 200 kHz to either side, and 0 to 1 for both shares, ends included, by the node and the server alike. |
| Ingest.MeasurementServer.RegisterChannels | server/src/grpc/persist.rs:168-185 | Unknown channels are inserted, known ones left; every attempt takes a number. |
| Ingest.MeasurementServer.Write | server/src/grpc/persist.rs:143-157 | One transaction: all rows by insert-or-ignore, or nothing but used-up channel numbers. |
| Ingest.MeasurementServer.Submit | server/src/grpc/mod.rs:417-449 | Validate, convert, store; refused reports leave no row. |
| Ingest.RegisterTakesNumbers | server/src/grpc/persist.rs:168-185 | Every channel the report mentions that was not known takes the next number, whether or not it is stored by then. |
| Ingest.NewChannelNumber | server/src/grpc/persist.rs:168-185 | A new channel is stored under the number its first mention took. |
| Ingest.RegisterNumbers | server/src/grpc/persist.rs:159-196 | Channels keep their numbers, new ones get unused numbers, and every channel of the report is known afterwards. |
| Ingest.WriteKeeps | server/src/grpc/persist.rs:143-157 | Storing keeps every row there was and adds only rows of this report; a refused one changes no row or channel. |
| Ingest.WriteStores | server/src/grpc/persist.rs:143-157 | A report whose window survives rounding is stored whole, with its own values, first try or retry. |
| Ingest.RowsHaveReading | server/src/grpc/persist.rs:198-219 | Every reading has its row, keyed by node, channel, metric and window start. |
| Ingest.RowsComeFromReadings | server/src/grpc/persist.rs:198-219 | Every row is some reading of the report. |
| Ingest.SubmitVerdict | server/src/grpc/mod.rs:417-449 | Whether a report is taken depends on the report alone, not on what is stored. |
| Ingest.WholeSecondSurvives | server/migrations/2026-09-01-141801-0000_create_measurements/up.sql:6-20 | From 2000 on, ends a second apart never round to the same stored second. |
| Ingest.StoredSecondIsMonotone | server/migrations/2026-09-01-141801-0000_create_measurements/up.sql:6-7 | Storing timestamps without fractions keeps their order. |
| Ingest.MicrosAreCut | server/migrations/2026-09-01-141801-0000_create_measurements/up.sql:6-7 | An instant reaches the database cut to microseconds, toward 2000. |
| Ingest.SecondsAreRounded | server/migrations/2026-09-01-141801-0000_create_measurements/up.sql:6-7 | Microseconds are rounded to the nearest second, and halves away from 2000. |
| Ingest.StoreBegins | server/migrations/2026-09-01-141801-0000_create_measurements/up.sql:6-7 | The column holds instants from Julian day zero on. |
| Aggregation.Aggregator.Record | node-agent/src/report.rs:78-129 | Samples are appended to their channel's metrics; foreign, non-finite, unspecified ones are skipped and out-of-range ones counted as dropped. |
| Aggregation.Aggregator.Finish | node-agent/src/report.rs:132-181 | Closing yields the report of what was gathered, in ascending order, and opens the next window empty. |
| Aggregation.GatheredIsExact | node-agent/src/report.rs:78-129 | After any calls the aggregator holds exactly the acceptable samples of each channel and metric, in order. |
| Aggregation.ValueIsExact | node-agent/src/report.rs:78-129 | A sample counts for a channel and metric exactly when it names them and its value lies in the metric's range. |
| Aggregation.DroppedIsExact | node-agent/src/report.rs:100-115 | Exactly the samples of the channel that are out of their metric's range are counted as dropped, up to the largest 64-bit number. |
| Aggregation.GatheredUnderItsName | node-agent/src/report.rs:78-98 | A channel is gathered under the modulation and label its first samples came with. |
| Aggregation.EmittedReportIsExact | node-agent/src/report.rs:132-181 | A report says about a channel and metric exactly the summary of its acceptable samples, and nothing else. |
| Aggregation.ReportExactlyWhen | node-agent/src/report.rs:137-172 | There is a report exactly when the clock advanced and some acceptable sample came. |
| Aggregation.ReportIsOfItsWindow | node-agent/src/report.rs:173-181 | A report is of version 1 and of exactly its window, and its channels are named as they were gathered. |
| Aggregation.AcceptableSampleMakesAReport | node-agent/src/report.rs:137-172 | One acceptable sample and an advancing clock always make a report. |
| Aggregation.EmittedReportIsAccepted | node-agent/src/report.rs:132-181 | On assignable channels, every emitted report passes the server's validation exactly when its window spans at most a day in whole seconds. |
| Aggregation.MeasuredIsOnce | node-agent/src/report.rs:143-168 | No report names a channel or one of its metrics twice. |
| Statistics.Summarize | node-agent/src/report.rs:185-224 | The loops and the in-place sort compute the least, greatest, mean, middle, spread and 95th percentile of the samples. |
| Statistics.SortInPlace | node-agent/src/report.rs:211 | The array ends as the one ascending arrangement of its values. |
| Statistics.SummaryIsOrderly | node-agent/src/report.rs:185-224 | Mean, median and percentile lie between the extremes, the spread is not negative, the extremes are samples. |
| Statistics.PercentileIsLeast | node-agent/src/report.rs:242-256 | The 95th percentile is the least sample that at least 95 in 100 samples do not exceed. |
| Statistics.MomentsAreExact | node-agent/src/report.rs:185-224 | The mean times the count is the sum, and the variance times one less is what the squares exceed the mean's by; one sample has none. |
| Statistics.SummaryIgnoresOrder | node-agent/src/report.rs:185-224 | A summary does not depend on the order of samples. |
| Delivery.NothingIsLost | node-agent/src/main.rs:257-302 | In every run the journal is the newest end of what was journaled and every report that left it is stored whole or was taken by the byte limit, never with limit zero. |
| Delivery.CloseDropsExactly | node-agent/src/report.rs:289-307 | One closing drops exactly the older half of journal and report together, rounded up, when their frames exceed the limit, and nothing otherwise. |
| Delivery.DroppedByTheLimit | node-agent/src/report.rs:358-376 | In every run the limit took a report only at a closing that found the journal too large and the report in its older half. |
| Delivery.EachRowHasOneReport | server/src/grpc/persist.rs:143-157 | In every run each of a node's rows is a reading of exactly one report it journaled. |
| Delivery.RowsNeverChange | server/src/grpc/persist.rs:148-151 | In every run a stored row keeps its values. |
| Delivery.SecondsDiffer | server/migrations/2026-09-01-141801-0000_create_measurements/up.sql:6-20 | A window that survives rounding starts in an earlier stored second than any window after it. |
| Delivery.SourceIsUnique | server/src/grpc/persist.rs:198-219 | No two admissible reports of a node share a stored second. |
| Delivery.SubmitTakes | node-agent/src/main.rs:273-291 | An admissible report is acknowledged and stored whole whether it is new or a retry after a lost acknowledgement. |
| Delivery.RefusedReportBlocksForever | node-agent/src/main.rs:273-291 | Without a byte limit a refused report at the head is never passed, in any run. |
| Delivery.AdmissibleReportsAllGo | node-agent/src/main.rs:273-302 | With an answering link and admissible reports a delivery empties the journal. |
| Delivery.SendOutIsDeliver | node-agent/src/main.rs:257-302 | The steps of an undisturbed delivery are the delivery loop. |
| Delivery.DeliverIsExact | node-agent/src/main.rs:271-291 | A delivery counts the reports up to the first that is refused or not answered. |
| Delivery.DeliverStoresExactly | node-agent/src/main.rs:271-291 | A delivery leaves the server with exactly the reports that reached it, taken in order, one whose answer was lost among them. |
| Delivery.QuietDelivery | node-agent/src/main.rs:257-302 | A resting node with a journal can run a delivery through: the server has what reached it, the journal loses what was acknowledged, and nothing else changes. |
| Delivery.SendAll | node-agent/src/main.rs:271-291 | The loop submits in order and stops at the first report it hears no yes for. |
| Delivery.Deliver | node-agent/src/main.rs:257-302 | A delivery trims exactly what was acknowledged, and leaves the journal alone when nothing was. |
| Delivery.CloseWindow | node-agent/src/main.rs:213-221 | Closing journals the window's report, if there is one, and opens the next window. |
| Delivery.EmittedReportIsAdmissible | server/src/grpc/mod.rs:417-449 | A report from assignable channels is taken exactly when its window is at most a day, starts in the table's calendar, and its ends round to different seconds. |
| Delivery.OrdinaryWindowIsKept | server/migrations/2026-09-01-141801-0000_create_measurements/up.sql:20 | From 2000 on, every window of one second to one day is taken. |
| Delivery.ShortWindowIsRefused | server/src/grpc/validate.rs:101-105 | A 400 ms window passes validation and is refused by the table. |
| Pooling.Group.Push | server/src/jobs/rollup.rs:238-253 | A window with samples is pooled into the group; one without leaves it unchanged. |
| Pooling.Group.Finished | server/src/jobs/rollup.rs:255-294 | The group's rollup, or nothing for a group without samples. |
| Pooling.PoolingIsExact | server/src/jobs/rollup.rs:238-294 | Summarising windows and pooling them gives the extremes, mean, variance and count of all samples at once, with no clamp taking effect, below 2^32 samples. |
| PoolingOrder.PoolingIgnoresOrder | server/src/jobs/rollup.rs:188-294 | Whatever windows a bucket has, the order they are read in matters to no column and not to whether there is a rollup. |
| PoolingOrder.PooledInWords | server/src/jobs/rollup.rs:238-294 | For any windows: there is a rollup exactly when some window with samples has its minimum at or under the maximum of one; its extremes are theirs, and its median the middle of their medians held between them. |
| Pooling.PooledMeanIsExactlyWhen | server/src/jobs/rollup.rs:238-299 | For windows below 2^32 samples each and a total within 64 bits, extremes and count are exact, and the mean is exactly when the total is below 2^32, the sum is zero or all samples are the same. |
| Pooling.LargeCountsBreakTheMean | server/src/jobs/rollup.rs:297-299 | Two windows of 2^31 samples with mean 2 pool to mean 1. |
| Buckets.InstantIsInItsBucket | server/src/jobs/rollup.rs:22-48 | Every instant lies in its bucket, whose start is its own bucket's start. |
| Buckets.BucketIsOnCalendar | server/src/jobs/rollup.rs:22-48 | An instant's bucket is the one hour, day or seven days that begins on a full hour, a midnight or a Monday's midnight and holds it, in plain numbers. |
| Buckets.WeeksBeginOnMonday | server/src/jobs/rollup.rs:28-34 | A weekly bucket starts at a midnight 4 days modulo 7 after 1970-01-01, a Thursday, and holds the seven days from there. |
| Buckets.BucketIsUnique | server/src/jobs/rollup.rs:22-48 | No instant lies in two buckets of a resolution. |
| Buckets.NextBucketIsAligned | server/src/jobs/rollup.rs:52-57 | The bucket after a bucket is a bucket. |
| Buckets.BucketsNest | server/src/jobs/rollup.rs:22-36 | Hours nest in days and days in weeks. |
| Rollup.MeasurementStore.Build | server/src/jobs/rollup.rs:146-186 | Building a bucket inserts the fold of its rows for every series, in whatever order they are loaded, touches nothing else and counts what it inserted. |
| Rollup.MeasurementStore.Run | server/src/jobs/rollup.rs:64-99 | The capped catch-up loop over one snapshot of stored buckets equals its recursive meaning, and the count it returns is what the table gained. |
| Rollup.MeasurementStore.PruneRaw | server/src/jobs/rollup.rs:322-325 | Every row that starts before the horizon is gone, every other is there as often as before, in order, and the removed ones are counted. |
| Rollup.PruningKeepsYoungBuckets | server/src/jobs/rollup.rs:322-325 | Pruning changes nothing that any stretch of time from the horizon on says about any series, and silences what ends by it. |
| Rollup.MeasurementStore.PruneRollups | server/src/jobs/rollup.rs:332-343 | A bucket is stored afterwards exactly when it was and is not one of that resolution from before the horizon; the removed rollups are counted. |
| Rollup.PrunedBucketsStayGone | server/src/jobs/rollup.rs:64-99 | With the raw table pruned as far, no later run brings a pruned bucket back. |
| Rollup.MeasurementStore.Once | server/src/jobs/mod.rs:86-97 | One pass: catch up at all resolutions, prune the raw table, prune hourly and daily rollups. |
| Rollup.Fold | server/src/jobs/rollup.rs:188-207 | Grouping by series and pooling yields each series' pooled rows, with no group shared. |
| Rollup.RunKeepsTheRest | server/src/jobs/rollup.rs:64-99 | A run changes no stored rollup and writes only its own resolution from its start on. |
| Rollup.RunAddsRollups | server/src/jobs/rollup.rs:64-186 | Every rollup a run adds is of a bucket on the calendar, in plain numbers, that was over and has rows of its series, and holds what they pool to. |
| Rollup.PooledIgnoresOrder | server/src/jobs/rollup.rs:152-171 | What the table says about a series does not depend on the order of its rows. |
| Rollup.RunReachesExactly | server/src/jobs/rollup.rs:73-96 | A complete unstored bucket is folded exactly when fewer unstored buckets than the cap precede it, empty ones counted. |
| Maintenance.RunIsExact | server/src/jobs/rollup.rs:64-99 | After a run a rollup is there exactly when it was, or its bucket is on the calendar, over, heard of and empty and fewer than 512 unstored buckets precede it; and what it holds. |
| Maintenance.RunAllIsExact | server/src/jobs/rollup.rs:121-133 | The same of all three runs one after the other, none of which changes what is due to another. |
| Maintenance.OnceIsExact | server/src/jobs/mod.rs:86-97 | After a pass a rollup is there exactly when it was there or due and is no hourly or daily one from before its horizon, and a raw row as often as before exactly when it starts from the horizon on. |
| Maintenance.HeardExactly | server/src/jobs/rollup.rs:152-294 | A stretch of time has a rollup to give exactly when it has rows of the series with samples whose extremes are not crossed. |
| RetentionRuns.NothingIsPrunedUnsummarised | server/src/jobs/mod.rs:86-97 | In every run a row that left the raw table, deleted or dropped with a partition, has hourly, daily and weekly rollups, each the fold of every row its bucket ever received. |
| RetentionRuns.StoredRollupsAreFinal | server/src/jobs/rollup.rs:64-186 | In every run a stored rollup is the fold of every row its bucket ever receives and reads the same while it is stored. |
| Retention.StepKeeps | server/src/jobs/mod.rs:66-98 | Every step of ingest, sweep, raw delete, partition drop and rollup delete, failed deletes included, keeps the invariant under the stated hypotheses. |
| RetentionRuns.QuietSweepIsOneRun | server/src/jobs/rollup.rs:64-99 | A sweep nothing interrupts leaves what one call of the job leaves. |
| RetentionRuns.QuietPassIsOnce | server/src/jobs/mod.rs:66-98 | A whole pass nothing interrupts leaves what running the jobs one after the other leaves, whichever old partitions it drops. |
| Retention.EndSweepSummarises | server/src/jobs/rollup.rs:73-96 | Whether the clock or the cap ends a sweep, every complete bucket with a row the hourly sweep did not miss is closed. |
| Retention.PrunedWasClosed | server/src/jobs/mod.rs:310-325 | After the sweeps, a row older than the horizon that the hourly sweep did not miss is summarised at all three resolutions. |
| Retention.RemovalIsSafeExactlyWhen | server/src/jobs/mod.rs:310-325 | After the sweeps, a raw delete or a partition drop keeps the tables right exactly when no row it takes was missed by the hourly sweep. |
| RetentionRuns.StoredBucketsAreNeverRefolded | server/src/jobs/rollup.rs:85-88 | No run touches a bucket that is already stored, however late a row comes. |
| RetentionRuns.BeyondTheCapIsLost | server/src/jobs/rollup.rs:75-96 | A bucket out of the cap's reach and below the horizon is in neither table after the pass. |
| RetentionRuns.MidPassArrivalIsLost | server/src/jobs/mod.rs:86-97 | A row older than the horizon that arrives after the last sweep is pruned with none of its buckets stored. |
| RetentionRuns.DropTakesLateArrival | server/src/jobs/mod.rs:318-324 | A row of an old day that arrives after the raw delete goes with its partition, with none of its buckets stored. |
| RetentionRuns.LateArrivalRun | server/src/jobs/mod.rs:310-325 | For every horizon and every older row there is a run that is fair up to such a drop. |
| RetentionRuns.YoungTableFits | server/src/jobs/rollup.rs:15 | With no raw row older than 512 hours every resolution's backlog fits one run. |
| OrderStatistics.Median | server/src/jobs/mod.rs:14-34 | The selection in place returns the middle value or the midpoint of the middle pair of the sorted values. |
| OrderStatistics.MiddleIsHalfway | server/src/jobs/mod.rs:14-34 | Twice the median is the sum of the two sorted values equally far from either end, one and the same for an odd count. |
| OrderStatistics.MedianIgnoresOrder | server/src/jobs/mod.rs:14-34 | The median depends only on the values, not their order. |
| OrderStatistics.SplitPinsRanks | server/src/jobs/mod.rs:19-31 | An element with nothing greater below it and nothing smaller above it is the one of its rank, and the greatest below it the one before. |
| OrderStatistics.MajorityHoldsTheMedian | server/src/jobs/mod.rs:14-34 | If more than half of the values lie between two bounds, so does the median. |
| Baselines.FoldBaseline | server/src/jobs/detector.rs:370-388 | Medians in place give the center, the scaled median deviation and the middle spread, or nothing under seven buckets. |
| Baselines.SevenHoursMakeABaseline | server/src/jobs/detector.rs:370-388 | There is a baseline exactly from seven hours on. |
| Baselines.SpreadIsTypical | server/src/jobs/detector.rs:370-388 | With more than half of the hours at least d from the center the spread between hours is at least 1.4826 d, with more than half at most d away it is at most that. |
| Baselines.WithinIsTypical | server/src/jobs/detector.rs:370-388 | Where more than half of the hourly spreads lie, the spread within hours does; without any it is zero. |
| Baselines.BaselineIgnoresOrder | server/src/jobs/detector.rs:370-388 | A baseline does not depend on the order of its buckets. |
| Baselines.MajorityHoldsTheBaseline | server/src/jobs/detector.rs:370-388 | If more than half of the means lie in [low, high], the center does and the spread between hours is at most 1.4826 (high - low). |
| Baselines.HalfDoesNotHold | server/src/jobs/detector.rs:370-388 | Whatever up to half of the means read, the others can bring the center anywhere above them, for every count from seven on and in any order. |
| Baselines.OutlierIsCaught | server/src/jobs/detector.rs:44-63 | A reading far enough from what most hours read is outside the band whatever the other hours were. |
| Baselines.JudgeIsExact | server/src/jobs/detector.rs:44-143 | A verdict exactly when there are three windows and all lie below, or all above, the center by more than four times the square root of max(between^2 + within^2, 10^-12); it is of the newest window and names the side. |
| Baselines.OutliersAreJudged | server/src/jobs/detector.rs:44-143 | Three windows far enough on either side of what most hours read get the verdict of that side, whatever the other hours were. |
| Baselines.VerdictNeedsOneSide | server/src/jobs/detector.rs:124-143 | No verdict while the recent windows are not all on one side of the band. |
| Detector.BaselineBucketsAreTheHours | server/src/jobs/detector.rs:306-319 | The list of starts selects exactly the whole hours of the last 28 days at that hour of day. |
| Detector.RecentIsUnique | server/src/jobs/detector.rs:243-257 | There is one answer to which windows of a series are newest. |
| Detector.PassSeesTheLastHour | server/src/jobs/detector.rs:243-286 | The windows judged are the newest stored ones of the last 3600 seconds, at most three, newest first; one not judged is older than three that are. |
| Detector.GatherWindows | server/src/jobs/detector.rs:273-286 | The loop groups rows by series and keeps only the wanted one. |
| Detector.FoldAll | server/src/jobs/detector.rs:353-367 | Each series' gathered columns fold to its baseline. |
| Detector.BaselineIsOne | server/src/jobs/detector.rs:321-368 | The batched and the single query give a series the same baseline in whatever order rows come. |
| Detector.SnapshotSuffices | server/src/jobs/detector.rs:86-114 | One snapshot of standing alarms leaves what looking again before each raise leaves. |
| Detector.Run | server/src/jobs/detector.rs:79-116 | The pass raises, in ascending order, for the series its windows and baselines explain and its snapshot lacks. |
| Detector.Examine | server/src/jobs/detector.rs:183-218 | The single examiner raises exactly when its series is explained and has no standing alarm. |
| Detector.PassAlarmsExactly | server/src/jobs/detector.rs:79-116 | The pass opens an alarm on a series exactly when its newest windows all lie on one side of its band and none stands on it, and the alarm says when, what, which side and of which baseline. |
| Detector.ExamineAlarmsExactly | server/src/jobs/detector.rs:183-218 | Examining one series opens exactly that alarm, under the next number, or changes nothing. |
| Detector.OutliersRaiseAlarms | server/src/jobs/detector.rs:79-218 | With most hours within bounds and the newest three windows far on one side, pass and examination both open an alarm of that side, whatever the other hours were. |
| Detector.PassIsExaminingEach | server/src/jobs/detector.rs:79-218 | The fleet-wide pass leaves the same alarms, numbers and explanations as examining every series in ascending order. |
| Alarms.TransitionsGoForward | server/src/api/alarms.rs:57-67 | Users may make every forward move but the one from open to verification. |
| Alarms.NextStates | server/src/api/alarms.rs:298-309 | The moves offered are exactly the moves allowed. |
| Alarms.AlarmDesk.Raise | server/src/jobs/detector.rs:443-473 | An open alarm and its opening event, under the next number. |
| Alarms.AlarmDesk.Transition | server/src/api/alarms.rs:201-274 | An allowed move with a reason updates state, move and closing time and is written down with its user and reason; a blank reason, a missing alarm or a forbidden move is refused and changes nothing. |
| Alarms.AlarmDesk.Dispatch | server/src/api/work_orders.rs:126-194 | An order on an alarm that is not closed, to a trimmed station name, and the alarm moves to verification if it was not there; a blank or overlong station is refused. |
| Alarms.AlarmDesk.Complete | server/src/api/work_orders.rs:267-324 | The order is completed with its field report and its alarm closed if it was not; a completed order is refused. |
| Alarms.TransitionIsExact | server/src/api/alarms.rs:201-274 | A move is made exactly when its reason has words, the alarm exists and the move is one of the five allowed; and all it changes. |
| Alarms.DispatchIsExact | server/src/api/work_orders.rs:126-194 | An order is made exactly for an alarm that exists and is not closed and a trimmed station of 1 to 200 characters; and all it changes. |
| Alarms.CompleteIsExact | server/src/api/work_orders.rs:267-324 | An order is completed exactly when it exists, is not completed and has its alarm; and all it changes. |
| Alarms.RefusalsAreTrue | server/src/api/work_orders.rs:126-324 | A refused move, dispatch or completion is told its true reason. |
| Alarms.UserStepsApply | server/src/api/alarms.rs:201-274 | In a run an accepted request has its effect at once, and a refused one has none. |
| Alarms.TrimmedIsBare | server/src/api/work_orders.rs:126-147 | Trimming takes the white space off both ends and nothing else. |
| Alarms.ClosedTakesNoOrders | server/src/api/work_orders.rs:148-160 | In every run, once an alarm is closed the orders on it stay the same. |
| Alarms.DispatchReadsBack | server/src/api/work_orders.rs:176-186 | A dispatch is written down with the technician's number in digits and the station. |
| Alarms.DescribeSays | server/src/api/work_orders.rs:348-361 | A completion is written down with whether there was a fault, then the cause and the action if given. |
| Alarms.QuietPassRaises | server/src/jobs/detector.rs:79-116 | From any book a pass can run undisturbed; afterwards all it found stands, and the only new alarms are open ones about what it found, written down as raised. |
| Alarms.QuietPassFindsSilence | server/src/jobs/detector.rs:492-535 | The same for nodes that went quiet. |
| Alarms.NeverTwoStanding | server/src/jobs/detector.rs:86-116 | In every run no series and no node has two alarms that are not closed. |
| Alarms.EveryHistoryIsUnbroken | server/src/api/alarms.rs:252-260 | In every run each alarm's events lead unbroken from nothing through open to its state in at most four events, and a closing time is set exactly when it is closed. |
| Alarms.EveryMoveIsSigned | server/src/api/alarms.rs:252-260 | In every run every event but a raise names its user, every raise is the detector's, and no event's reason is blank. |
| Alarms.OrdersFollowAlarms | server/src/api/work_orders.rs:148-194 | In every run an alarm with an order is under verification or closed, and with a completed order closed. |
| Alarms.ClosedIsFinal | server/src/api/alarms.rs:57-67 | In every run a closed alarm never changes again. |
| Alarms.RaiseIsSafeExactlyWhenAlone | server/src/jobs/detector.rs:443-473 | A raise keeps subjects apart exactly when nothing stands on its subject yet. |
| Rds.WordsOfTheStandard | node-agent/src/dsp/rds.rs:29-44 | The five offset words and the generator, bit by bit. |
| Rds.ValidInGroupOrder | node-agent/src/dsp/rds.rs:46-55 | A block passes at a position exactly when it carries A, B, C or C', D for the positions 0 to 3 modulo 4. |
| Rds.Checkword | node-agent/src/dsp/rds.rs:60-73 | The register loop computes the checkword its recursive meaning defines. |
| Rds.EncodeRoundTrips | node-agent/src/dsp/rds.rs:77-95 | An encoded block gives back its information and validates against its offset. |
| Rds.ValidatesBySyndrome | node-agent/src/dsp/rds.rs:91-95 | A block validates exactly when its remainder is the offset word. |
| Rds.SyndromeIsLinear | node-agent/src/dsp/rds.rs:60-73 | Remainders add: the remainder of a sum is the sum of remainders. |
| Rds.SyndromeIsTheRemainder | node-agent/src/dsp/rds.rs:60-73 | The syndrome is the remainder modulo the generator: the one short word that differs from the block by a multiple. |
| Rds.BurstHasSyndrome | node-agent/src/dsp/rds.rs:60-95 | No burst of ten bits or fewer divides evenly. |
| Rds.SingleHitIsNoSwap | node-agent/src/dsp/rds.rs:46-55 | No single flipped bit turns offset C into C' or back. |
| Rds.HitPassesExactly | node-agent/src/dsp/rds.rs:91-95 | A hit block still passes exactly when the error divides evenly or, at the third position, swaps the two versions. |
| Rds.BurstSwapsVersions | node-agent/src/dsp/rds.rs:46-55 | A seven-bit burst passes at the third position. |
| Rds.FindSyncIsFirst | node-agent/src/dsp/rds.rs:135-149 | Synchronisation is the first start within one group at which two groups validate. |
| Rds.FindSyncIsExact | node-agent/src/dsp/rds.rs:135-149 | Synchronised at a bit exactly when two groups in the order A, B, C or C', D lie there and at no earlier bit, and it is among the first 104. |
| Rds.DecodeStream | node-agent/src/dsp/rds.rs:181-202 | The loop counts every whole block from the synchronisation on. |
| Rds.CountIsExact | node-agent/src/dsp/rds.rs:181-202 | Good is how many blocks pass, and bad how many do not. |
| Rds.DecodeIsExact | node-agent/src/dsp/rds.rs:181-202 | Whatever comes in, every whole block from the synchronisation on is counted, good exactly when it passes where it stands in the group. |
| Rds.DecodeCountsEveryHit | node-agent/src/dsp/rds.rs:135-202 | Blocks sent in the order A, B, C or C', D, two groups of them clean and then any with a flipped bit, or outside the third position a burst of ten bits: synchronised at 0, bad counts the blocks hit and good all others. |
| Rds.UndoDifferential | node-agent/src/dsp/rds.rs:119-131 | The loop undoes differential coding. |
| Rds.DecodedBitAt | node-agent/src/dsp/rds.rs:119-131 | A decoded bit says whether the transmitted bit differs from the one before it. |
| Rds.DifferentialRoundTrips | node-agent/src/dsp/rds.rs:119-131 | Decoding undoes encoding, and inverting the signal and the start alike changes nothing. |
| Rds.InversionCostsOneBit | node-agent/src/dsp/rds.rs:119-131 | An inverted signal costs the first bit and no other. |
| Sliding.CuttingDoesNotMatter | node-agent/src/dsp/fir.rs:93-121 | Slices taken by a consumer fed in any blocks, empty ones included, are those of the whole stream, and what it keeps is the whole stream's rest. |
| Sliding.SliceAt | node-agent/src/dsp/fir.rs:112-115 | The k-th slice begins k steps in. |
| Sliding.SliceCount | node-agent/src/dsp/fir.rs:112-115 | A stream of n samples has (n - width) / step + 1 slices once it has a width, none before. |
| Decimation.Convolve | node-agent/src/dsp/fir.rs:130-146 | The loop accumulates samples times taps first to last. |
| Decimation.ComponentsStayApart | node-agent/src/dsp/fir.rs:130-146 | The real output weighs the real parts and the imaginary one the imaginary parts, first tap with first sample. |
| Decimation.Decimator.Process | node-agent/src/dsp/fir.rs:93-121 | A block brings out exactly what the longer stream's outputs have more than the shorter's; without taps it passes through. |
| Decimation.Decimator.constructor | node-agent/src/dsp/fir.rs:63-72 | A factor of zero is one; nothing is heard yet. |
| Decimation.Decimator.Reset | node-agent/src/dsp/fir.rs:124-127 | The filter forgets everything it heard. |
| Decimation.CuttingKeepsOutputs | node-agent/src/dsp/fir.rs:93-121 | Whatever the cutting, all outputs together are those of the whole stream. |
| Decimation.FilteredAt | node-agent/src/dsp/fir.rs:112-115 | The k-th output weighs the samples from k factors in, part by part, also when the factor exceeds the taps. |
| Decimation.FilteredCount | node-agent/src/dsp/fir.rs:112-115 | n samples give (n - taps) / factor + 1 outputs once there are that many. |
| Spectrum.Welch.Push | node-agent/src/dsp/welch.rs:57-72 | Pushing absorbs exactly the half-overlapping segments the longer stream has more, and keeps the rest. |
| Spectrum.Welch.Absorb | node-agent/src/dsp/welch.rs:119-136 | A segment's powers are added bin by bin in place and counted, saturating. |
| Spectrum.Welch.Finish | node-agent/src/dsp/welch.rs:76-117 | The estimate is a function of what was pushed since the last one, and everything is reset also when there was none. |
| Spectrum.EstimateIsExact | node-agent/src/dsp/welch.rs:57-136 | There is an estimate exactly when a whole segment was heard; bin i averages over all segments the transform bin half a length on, around the end, so the lowest frequency comes first. |
| Spectrum.CuttingKeepsSegments | node-agent/src/dsp/welch.rs:57-72 | Any cutting absorbs the whole stream's segments in order and carries fewer samples than a segment. |
| Spectrum.SegmentAt | node-agent/src/dsp/welch.rs:57-72 | The k-th segment begins k half lengths in. |
| Spectrum.OnlyTwoPointsAdvance | node-agent/src/dsp/welch.rs:58-69 | The loop's step advances exactly for transforms of at least two points. |
| Schedule.ScheduleHitsTheSlot | server/src/grpc/mod.rs:34-52 | The scheduled instant is strictly ahead, at most one cycle, and on the node's slot. |
| Schedule.ScheduleIsExact | server/src/grpc/mod.rs:34-52 | Away from the ends of 64 bits, the schedule is the one instant ahead by at most a cycle on the node's slot, given exactly when the calendar has it. |
| Schedule.SlotIsExact | server/src/grpc/mod.rs:42 | A node's slot is its number times 2654435761, brought into 64 bits by whole spans, modulo the cycle. |
| Schedule.SaturateIsExact | protocol/src/lib.rs:80-89 | What 64 bits do not hold becomes the end nearest to it. |
| Schedule.SlotsSharedExactly | server/src/grpc/mod.rs:31-42 | Without wrap and with a coprime cycle, nodes share a slot exactly when their numbers agree modulo the cycle. |
| Schedule.OperatorCyclesAreCoprime | server/src/api/admin.rs:24-28 | Every cycle an operator may set, 5 to 300 seconds, is coprime with the multiplier. |
| Schedule.OperatorSlotsSharedExactly | server/src/grpc/mod.rs:31-42 | With any interval an operator may set and no wrap, nodes share a slot exactly when their numbers agree modulo the cycle. |
| Schedule.SlotsSharedWithWraps | server/src/grpc/mod.rs:42 | For all numbers and cycles, wrapped or not: a slot is shared exactly when the cycle divides the difference of the wrapped products. |
| Schedule.AgreeingNodesShareExactly | server/src/grpc/mod.rs:42 | Numbers that agree modulo the cycle share a slot exactly when the cycle divides the difference of what they wrap by. |
| Schedule.ConsecutiveNodesFillTheCycle | server/src/grpc/mod.rs:31-42 | Of as many consecutive numbers as the cycle is long, exactly one takes each slot. |
| Schedule.CommonFactorCollides | server/src/grpc/mod.rs:31-42 | A cycle with a factor in common with the multiplier puts two different numbers on one slot. |
| Schedule.DefaultCycleIsCoprime | server/src/grpc/mod.rs:29-32 | The default cycle is coprime with the multiplier. |
| Schedule.WrappedNodeLeavesItsSlot | server/src/grpc/mod.rs:42 | Two numbers that agree modulo the default cycle, one of which wraps once more, are on different slots. |
| Schedule.CappedGapIsExact | protocol/src/lib.rs:80-89 | For all 64-bit seconds and 32-bit nanoseconds the saturating gap, capped, is the exact difference clamped. |
| Schedule.LiveSessionIsExact | protocol/src/lib.rs:62-78 | A session command runs exactly when it is numbered, stamped and still ahead, for the exact gap up to ten minutes, sampled at most every half second. |
| Schedule.WaitingHitsTheSlot | protocol/src/lib.rs:44-53 | A node that waits its delay from the stamp hits its slot exactly when the slot is no further than the cap. |
| Schedule.OperatorCyclesNeverHitTheCap | server/src/api/admin.rs:24-28 | With any interval an operator may set and a stamp of the scheduling instant, the delay is the exact distance. |
| LiveSessions.Sessions.Watch | server/src/live.rs:70-85 | A new stream replaces the old one and is told a running session. |
| LiveSessions.Sessions.Open | server/src/live.rs:88-112 | A running session is renewed under its number, otherwise one with the next number starts. |
| LiveSessions.Sessions.Close | server/src/live.rs:115-125 | No number is accepted from the node at any time, a stream that is still there was told to stop last, and no other node changes. |
| LiveSessions.WatchIsExact | server/src/live.rs:70-85 | The new stream holds the command of a running session and nothing else; no other node changes. |
| LiveSessions.OpenIsExact | server/src/live.rs:88-112 | A running session keeps its number, another takes the next, for 45 seconds from now; a connected node is told, and no other node changes. |
| LiveSessions.CloseIsExact | server/src/live.rs:115-125 | The session ends and a connected node is told to stop; an unknown node is left unknown. |
| LiveSessions.AcceptsIsExact | server/src/live.rs:129-139 | A number is accepted exactly when it is the running session's. |
| SessionRuns.ClosedUntilOpened | server/src/live.rs:115-125 | In every run, from a closing until the node's next opening nothing is accepted from it. |
| LiveSessions.Sessions.Sweep | server/src/live.rs:154-172 | Ended sessions are stopped, closed streams dropped, and nodes with neither forgotten. |
| LiveSessions.SweepIsExact | server/src/live.rs:154-172 | A node is forgotten exactly when it is left neither a stream nor a session. |
| LiveSessions.SweptIsExact | server/src/live.rs:160-169 | Closed streams are dropped, sessions that ran out end with a stop to a stream that is left, and everything else stays. |
| SessionRuns.OneNodeForEver | server/src/live.rs:129-139 | In every run, however late openings and sweeps come to the lock, no session number is accepted from two nodes. |
| SessionRuns.EndedIsNeverAccepted | server/src/live.rs:129-139 | In every run a session that was closed or ran out is not accepted again while openings read the clock under the lock. |
| SessionRuns.RenewingKeepsTheNumber | server/src/live.rs:88-103 | Opening accepts the running number, or exactly the next unused one if none runs. |
| SessionRuns.ConnectedNodesAreInformed | server/src/live.rs:70-112 | In every run, stale clock readings included, a connected node whose session runs was last told that session's number. |
| SessionRuns.StaleOpenRevivesExactlyWhen | server/src/live.rs:88-103 | An opening with an old clock reading revives an ended session exactly when it still ran at that reading and the new expiry is ahead. |
| PartitionNames.NextDay | server/src/jobs/partitions.rs:20-22 | The next day is a later date, missing only after the calendar's last. |
| PartitionNames.DaysCountUp | server/src/jobs/partitions.rs:20-22 | Days follow one another as the Gregorian calendar's do: numbered by its leap-year rule, the next day's number is one more. |
| PartitionNames.NothingBetween | server/src/jobs/partitions.rs:20-22 | No date lies between a day and the next. |
| PartitionNames.NameReadsBack | server/src/jobs/partitions.rs:25-32 | Every date, of any year, is read back from its partition's name. |
| PartitionNames.NameInDigits | server/src/jobs/partitions.rs:25-32 | In the years 0 to 9999 a name is the table's followed by the year in four digits and month and day in two. |
| PartitionNames.DefaultIsNoDay | server/src/jobs/partitions.rs:148-155 | The default partition's name is no date. |
| Partitions.PartitionedTable.EnsureRange | server/src/jobs/partitions.rs:92-114 | The loop makes the missing days of the range and reports their names. |
| Partitions.PartitionedTable.DropBefore | server/src/jobs/partitions.rs:121-146 | Exactly the partitions that end by the cutoff are dropped. |
| Partitions.EnsureDayCounts | server/src/jobs/partitions.rs:53-85 | Making a day's partition moves rows and loses or doubles none. |
| Partitions.EnsureCoversRange | server/src/jobs/partitions.rs:92-114 | Afterwards every day of the range has its partition, but the calendar's last. |
| Partitions.EnsureMakesExactly | server/src/jobs/partitions.rs:92-114 | A day has a partition afterwards exactly when it had one or lies in the range and is not the calendar's last. |
| Partitions.EnsureReportsExactly | server/src/jobs/partitions.rs:92-114 | The names reported are exactly those of the partitions that came, each once, in the order of their days. |
| Partitions.EnsuringTwiceIsOnce | server/src/jobs/partitions.rs:92-114 | Ensuring a range again creates and moves nothing. |
| Partitions.DropsExactly | server/src/jobs/partitions.rs:121-146 | A day's partition is dropped exactly when the whole day lies before the cutoff. |
| Partitions.AlwaysTidy | server/src/jobs/partitions.rs:53-146 | After any operations the default partition holds no row of a day that has its own. |
| Partitions.RowsAreConserved | server/src/jobs/partitions.rs:53-146 | After any operations whose cutoffs do not pass its day, a row is stored exactly as often as it was inserted. |

## Left out

- Floating-point rounding, square roots, logarithms, window coefficients and the transform itself: exact reals and open operations stand for them.
- Login, roles, visibility of nodes, request texts, notifications, HTML, routes and OpenAPI: presentation and plumbing.
- The receiver, sampler thread, spectrum metrics, FM demodulation, identity and plan caches, emulator and benches: device and file handling, or easy copies of what is modelled.
- Health reports, registration, the channel plan and the node's last-seen time: bookkeeping beside the reports; which nodes a pass finds quiet is a parameter of `Alarms`.
- Raw-table pruning beside delivery: a retry that arrives after its rows were pruned is stored again; `Delivery` keeps every row.
- Two detectors, two maintenance passes or two deliveries of one node at once: the server and the node run one of each.
- Journal writes that fail half way outside `Journal.ReportBuffer.TornPush`, fsync and rename: elsewhere a push completes or does not happen.
- Spectrum.Welch.constructor: asks for at least two points, where the source accepts one and then never returns from a push.
- Ingest.MeasurementServer.RegisterChannels: the stored channel name is not modelled, nor that the database refuses a name with a NUL character.
- Pooling.PooledMeanIsExactlyWhen: says nothing about a single window of 2^32 samples or more, nor about the variance from 2^32 samples on.
- Pooling.PoolingIsExact: the pooled median, a median of medians, is only bounded by the extremes; it is not the samples' median.
- Retention.StepKeeps: reading a bucket's rows and inserting its rollups is one step, so a row arriving between the two counts as arriving after.
- The times the database gives to events by default, and who may act on which alarm: `Alarms` takes the acting user as given.
- SessionRuns.OneNodeForEver: runs are of fewer than 2^64 steps, so that the 64-bit counter of sessions does not wrap.
- Partitions.PartitionedTable.EnsureDay: a partition the catalogue has but the caller's list lacks, which the database would refuse to create twice, does not occur.
