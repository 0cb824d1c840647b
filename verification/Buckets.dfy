/** Rollup buckets: half-open stretches of time, in seconds since 1970-01-01, that tile the calendar. */
module Buckets {
  datatype Resolution = Hourly | Daily | Weekly

  const HOUR := 3_600
  const DAY := 86_400
  const WEEK := 604_800

  /** The epoch was a Thursday, three days into its week. */
  const EPOCH_WEEKDAY := 3

  function BucketStart(resolution: Resolution, at: int): int {
    match resolution
    case Hourly => at - at % HOUR
    case Daily => at - at % DAY
    case Weekly =>
      var day := at / DAY;
      var weekday := (day + EPOCH_WEEKDAY) % 7;
      (day - weekday) * DAY
  }

  function BucketEnd(resolution: Resolution, start: int): int {
    match resolution
    case Hourly => start + HOUR
    case Daily => start + DAY
    case Weekly => start + WEEK
  }

  predicate Aligned(resolution: Resolution, start: int) {
    BucketStart(resolution, start) == start
  }

  /** Every instant lies in its bucket, and the bucket starts on its own grid. */
  lemma InstantIsInItsBucket(resolution: Resolution, at: int)
    ensures var start := BucketStart(resolution, at);
      start <= at < BucketEnd(resolution, start) && Aligned(resolution, start)
  {
    if resolution == Weekly {
      WeekStartIsMonday(at / DAY);
    }
  }

  lemma WeekStartIsMonday(day: int)
    ensures var monday := day - (day + EPOCH_WEEKDAY) % 7;
      monday <= day < monday + 7 && (monday + EPOCH_WEEKDAY) % 7 == 0 && monday * DAY / DAY == monday
  {
  }

  // The calendar in plain numbers: seconds, and days counted from Thursday 1970-01-01.

  /** A full hour, a midnight, or the midnight of a Monday; day 4, 1970-01-05, was one. */
  predicate OnCalendar(resolution: Resolution, start: int) {
    match resolution
    case Hourly => start % 3_600 == 0
    case Daily => start % 86_400 == 0
    case Weekly => start % 86_400 == 0 && start / 86_400 % 7 == 4
  }

  function SecondsIn(resolution: Resolution): int {
    match resolution
    case Hourly => 3_600
    case Daily => 86_400
    case Weekly => 604_800
  }

  /** Weeks begin on Mondays, and hold the seven days from there. */
  lemma WeeksBeginOnMonday(at: int)
    ensures BucketStart(Weekly, at) % 86_400 == 0 && BucketStart(Weekly, at) / 86_400 % 7 == 4
    ensures BucketStart(Weekly, at) <= at < BucketStart(Weekly, at) + 604_800
  {
    InstantIsInItsBucket(Weekly, at);
  }

  lemma MondaysAreApart(a: int, b: int)
    requires a % 7 == 4 && b % 7 == 4 && a < b + 7 && b < a + 7
    ensures a == b
  {
  }

  lemma CalendarIsSparse(resolution: Resolution, a: int, b: int)
    requires OnCalendar(resolution, a) && OnCalendar(resolution, b)
    requires a < b + SecondsIn(resolution) && b < a + SecondsIn(resolution)
    ensures a == b
  {
    if resolution == Weekly {
      assert a == 86_400 * (a / 86_400) && b == 86_400 * (b / 86_400);
      MondaysAreApart(a / 86_400, b / 86_400);
    }
  }

  /** A bucket is the one stretch of its length that begins on the calendar and holds the instant. */
  lemma {:induction false} BucketIsOnCalendar(resolution: Resolution, at: int, start: int)
    ensures BucketStart(resolution, at) == start
       <==> OnCalendar(resolution, start) && start <= at < start + SecondsIn(resolution)
    ensures BucketEnd(resolution, start) == start + SecondsIn(resolution)
  {
    var own := BucketStart(resolution, at);
    InstantIsInItsBucket(resolution, at);
    WeeksBeginOnMonday(at);
    assert OnCalendar(resolution, own) && own <= at < own + SecondsIn(resolution);
    if OnCalendar(resolution, start) && start <= at < start + SecondsIn(resolution) {
      CalendarIsSparse(resolution, own, start);
    }
  }

  /** No instant lies in two buckets of one resolution. */
  lemma BucketIsUnique(resolution: Resolution, start: int, at: int)
    requires Aligned(resolution, start) && start <= at < BucketEnd(resolution, start)
    ensures BucketStart(resolution, at) == start
  {
    if resolution == Weekly {
      WeekIsUnique(start / DAY, at / DAY);
    }
  }

  lemma WeekIsUnique(monday: int, day: int)
    requires (monday + EPOCH_WEEKDAY) % 7 == 0 && monday <= day < monday + 7
    ensures day - (day + EPOCH_WEEKDAY) % 7 == monday
  {
  }

  /** Buckets follow one another without a gap. */
  lemma NextBucketIsAligned(resolution: Resolution, start: int)
    requires Aligned(resolution, start)
    ensures Aligned(resolution, BucketEnd(resolution, start))
  {
    if resolution == Weekly {
      WeekIsUnique(start / DAY + 7, BucketEnd(resolution, start) / DAY);
    }
  }

  lemma BucketsAreApart(resolution: Resolution, a: int, b: int)
    requires Aligned(resolution, a) && Aligned(resolution, b) && a < b
    ensures BucketEnd(resolution, a) <= b
  {
  }

  lemma BucketStartIsMonotone(resolution: Resolution, a: int, b: int)
    requires a <= b
    ensures BucketStart(resolution, a) <= BucketStart(resolution, b)
  {
    if resolution == Weekly {
      WeeksAreMonotone(a / DAY, b / DAY);
    }
  }

  lemma WeeksAreMonotone(a: int, b: int)
    requires a <= b
    ensures a - (a + EPOCH_WEEKDAY) % 7 <= b - (b + EPOCH_WEEKDAY) % 7
  {
  }

  /** Hours nest in days and days in weeks. */
  lemma BucketsNest(a: int, b: int)
    ensures BucketStart(Hourly, a) == BucketStart(Hourly, b) ==> BucketStart(Daily, a) == BucketStart(Daily, b)
    ensures BucketStart(Daily, a) == BucketStart(Daily, b) ==> BucketStart(Weekly, a) == BucketStart(Weekly, b)
  {
  }

  lemma BucketIsAtMostAWeek(resolution: Resolution, at: int)
    ensures BucketEnd(resolution, BucketStart(resolution, at)) <= at + WEEK
  {
  }
}
