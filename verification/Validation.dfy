/**
  * What the server checks before it stores a report, in the order it checks it, and the conversion
  * to storage types that comes after.
  */
module Validation {
  import opened Wrappers
  import opened Integers
  import opened Fleet
  import opened Statistics
  import opened Wire

  const MAX_WINDOW_SECONDS := 86_400
  const MAX_LABEL_CHARS := 100

  /** The instants the server's calendar can hold: years -262143 to 262142. */
  const FIRST_SECOND := -8_334_601_228_800
  const LAST_SECOND := 8_210_266_876_799

  datatype Refusal =
    | UnsupportedVersion
    | NoWindowStart
    | NoWindowEnd
    | WindowNotAfter
    | WindowOverflows
    | WindowTooLong
    | NoChannels
    | BadBand
    | NoReadings
    | NoStats
    | NonFinite
    | MinAboveMax
    | MeanOutside
    | MedianOutside
    | P95Outside
    | NegativeSpread
    | NoSamples
    | UnknownMetric
    | OutOfMetricRange
    | FrequencyTooLarge
    | LabelTooLong
    | UnknownModulation
    | CountTooLarge
    | NotAnInstant

  type Verdict = Result<(), Refusal>

  const OK: Verdict := Ok(())

  function CheckBand(frequencyHz: nat, modulation: int): Verdict {
    if frequencyHz == 0 then Err(BadBand)
    else
      match ModulationOf(modulation)
      case Some(Fm) => if 87_500_000 <= frequencyHz <= 108_000_000 then OK else Err(BadBand)
      case Some(Dab) => if 174_000_000 <= frequencyHz <= 240_000_000 then OK else Err(BadBand)
      case None => Err(BadBand)
  }

  function ValidateStats(metric: int, reported: Option<Stats>): Verdict {
    if reported.None? then Err(NoStats)
    else
      match FiniteOf(reported.value)
      case None => Err(NonFinite)
      case Some(stats) =>
        if stats.min > stats.max then Err(MinAboveMax)
        else if stats.mean < stats.min || stats.mean > stats.max then Err(MeanOutside)
        else if stats.median < stats.min || stats.median > stats.max then Err(MedianOutside)
        else if stats.p95 < stats.min || stats.p95 > stats.max then Err(P95Outside)
        else if stats.variance < 0.0 then Err(NegativeSpread)
        else if stats.sampleCount == 0 then Err(NoSamples)
        else
          match MetricOf(metric)
          case None => Err(UnknownMetric)
          case Some(known) =>
            if InRange(known, stats.min) && InRange(known, stats.max) then OK else Err(OutOfMetricRange)
  }

  function ValidateReadings(readings: seq<MetricReading>): Verdict {
    if readings == [] then OK
    else
      var first := ValidateStats(readings[0].metric, readings[0].stats);
      if first.Err? then first else ValidateReadings(readings[1..])
  }

  function ValidateChannel(channel: ChannelMeasurement): Verdict {
    var band := CheckBand(channel.frequencyHz, channel.modulation);
    if band.Err? then band
    else if channel.readings == [] then Err(NoReadings)
    else ValidateReadings(channel.readings)
  }

  function ValidateChannels(channels: seq<ChannelMeasurement>): Verdict {
    if channels == [] then OK
    else
      var first := ValidateChannel(channels[0]);
      if first.Err? then first else ValidateChannels(channels[1..])
  }

  predicate Later(end: Timestamp, start: Timestamp) {
    end.seconds > start.seconds || (end.seconds == start.seconds && end.nanos > start.nanos)
  }

  function Measurements(report: MeasurementReport): Verdict {
    if report.protocolVersion != PROTOCOL_VERSION then Err(UnsupportedVersion)
    else
      match report.windowStart
      case None => Err(NoWindowStart)
      case Some(start) =>
        match report.windowEnd
        case None => Err(NoWindowEnd)
        case Some(end) =>
          if !Later(end, start) then Err(WindowNotAfter)
          else if end.seconds - start.seconds > I64_MAX then Err(WindowOverflows)
          else if end.seconds - start.seconds > MAX_WINDOW_SECONDS then Err(WindowTooLong)
          else if report.channels == [] then Err(NoChannels)
          else ValidateChannels(report.channels)
  }

  // What an accepted report is, without the order of the checks.

  /** All six numbers are finite, ordered about one another, and the extremes fit the metric. */
  ghost predicate GoodReading(reading: MetricReading) {
    && reading.stats.Some?
    && var stats := reading.stats.value;
    && stats.min.Finite? && stats.max.Finite? && stats.mean.Finite?
    && stats.median.Finite? && stats.variance.Finite? && stats.p95.Finite?
    && stats.min.value <= stats.mean.value <= stats.max.value
    && stats.min.value <= stats.median.value <= stats.max.value
    && stats.min.value <= stats.p95.value <= stats.max.value
    && stats.variance.value >= 0.0
    && stats.sampleCount >= 1
    && Carries(reading.metric, stats.min.value) && Carries(reading.metric, stats.max.value)
  }

  ghost predicate InBand(frequencyHz: nat, modulation: int) {
    || (modulation == 1 && 87_500_000 <= frequencyHz <= 108_000_000)
    || (modulation == 2 && 174_000_000 <= frequencyHz <= 240_000_000)
  }

  ghost predicate GoodChannel(channel: ChannelMeasurement) {
    && InBand(channel.frequencyHz, channel.modulation)
    && channel.readings != []
    && forall reading :: reading in channel.readings ==> GoodReading(reading)
  }

  ghost predicate GoodReport(report: MeasurementReport) {
    && report.protocolVersion == "1"
    && report.windowStart.Some? && report.windowEnd.Some?
    && var (start, end) := (report.windowStart.value, report.windowEnd.value);
    && (end.seconds > start.seconds || (end.seconds == start.seconds && end.nanos > start.nanos))
    && end.seconds - start.seconds <= 86_400
    && report.channels != []
    && forall channel :: channel in report.channels ==> GoodChannel(channel)
  }

  lemma StatsVerdict(reading: MetricReading)
    ensures ValidateStats(reading.metric, reading.stats).Ok? <==> GoodReading(reading)
  {
    if MetricOf(reading.metric).Some? && reading.stats.Some? && FiniteOf(reading.stats.value).Some? {
      var stats := FiniteOf(reading.stats.value).value;
      RangesInNumbers(MetricOf(reading.metric).value, stats.min);
      RangesInNumbers(MetricOf(reading.metric).value, stats.max);
    }
  }

  lemma {:induction false} ReadingsVerdict(readings: seq<MetricReading>)
    ensures ValidateReadings(readings).Ok? <==> forall reading :: reading in readings ==> GoodReading(reading)
  {
    if readings != [] {
      StatsVerdict(readings[0]);
      ReadingsVerdict(readings[1..]);
      assert forall reading :: reading in readings <==> reading == readings[0] || reading in readings[1..];
    }
  }

  lemma ChannelVerdict(channel: ChannelMeasurement)
    ensures ValidateChannel(channel).Ok? <==> GoodChannel(channel)
  {
    ReadingsVerdict(channel.readings);
  }

  lemma {:induction false} ChannelsVerdict(channels: seq<ChannelMeasurement>)
    ensures ValidateChannels(channels).Ok? <==> forall channel :: channel in channels ==> GoodChannel(channel)
  {
    if channels != [] {
      ChannelVerdict(channels[0]);
      ChannelsVerdict(channels[1..]);
      assert forall channel :: channel in channels <==> channel == channels[0] || channel in channels[1..];
    }
  }

  /** A report passes exactly when every part of it is good; no order of checks matters. */
  lemma MeasurementsVerdict(report: MeasurementReport)
    ensures Measurements(report).Ok? <==> GoodReport(report)
  {
    ChannelsVerdict(report.channels);
  }

  // What a refusal says is so.

  /** What is wrong with a reading. */
  ghost predicate ReadingHas(reading: MetricReading, why: Refusal) {
    match reading.stats
    case None => why == NoStats
    case Some(stats) =>
      if stats.min.NotFinite? || stats.max.NotFinite? || stats.mean.NotFinite? || stats.median.NotFinite?
         || stats.variance.NotFinite? || stats.p95.NotFinite?
      then why == NonFinite
      else
        var (low, high) := (stats.min.value, stats.max.value);
        || (why == MinAboveMax && low > high)
        || (why == MeanOutside && !(low <= stats.mean.value <= high))
        || (why == MedianOutside && !(low <= stats.median.value <= high))
        || (why == P95Outside && !(low <= stats.p95.value <= high))
        || (why == NegativeSpread && stats.variance.value < 0.0)
        || (why == NoSamples && stats.sampleCount == 0)
        || (why == UnknownMetric && !(1 <= reading.metric <= 5))
        || (why == OutOfMetricRange && !(Carries(reading.metric, low) && Carries(reading.metric, high)))
  }

  ghost predicate ChannelHas(channel: ChannelMeasurement, why: Refusal) {
    || (why == BadBand && !InBand(channel.frequencyHz, channel.modulation))
    || (why == NoReadings && channel.readings == [])
    || (exists reading :: reading in channel.readings && ReadingHas(reading, why))
  }

  ghost predicate ReportHas(report: MeasurementReport, why: Refusal) {
    || (why == UnsupportedVersion && report.protocolVersion != "1")
    || (why == NoWindowStart && report.windowStart.None?)
    || (why == NoWindowEnd && report.windowEnd.None?)
    || (report.windowStart.Some? && report.windowEnd.Some? &&
        var (start, end) := (report.windowStart.value, report.windowEnd.value);
        || (why == WindowNotAfter
            && (end.seconds < start.seconds || (end.seconds == start.seconds && end.nanos <= start.nanos)))
        || (why == WindowOverflows && end.seconds - start.seconds > 0x7FFF_FFFF_FFFF_FFFF)
        || (why == WindowTooLong && 86_400 < end.seconds - start.seconds <= 0x7FFF_FFFF_FFFF_FFFF))
    || (why == NoChannels && report.channels == [])
    || (exists channel :: channel in report.channels && ChannelHas(channel, why))
  }

  lemma ReadingFault(reading: MetricReading)
    ensures var verdict := ValidateStats(reading.metric, reading.stats);
      verdict.Err? ==> ReadingHas(reading, verdict.error)
  {
    if MetricOf(reading.metric).Some? && reading.stats.Some? && FiniteOf(reading.stats.value).Some? {
      var stats := FiniteOf(reading.stats.value).value;
      RangesInNumbers(MetricOf(reading.metric).value, stats.min);
      RangesInNumbers(MetricOf(reading.metric).value, stats.max);
    }
  }

  lemma {:induction false} ReadingsFault(readings: seq<MetricReading>)
    ensures ValidateReadings(readings).Err? ==>
      exists reading :: reading in readings && ReadingHas(reading, ValidateReadings(readings).error)
  {
    if readings != [] {
      ReadingFault(readings[0]);
      assert readings[0] in readings;
      ReadingsFault(readings[1..]);
    }
  }

  lemma ChannelFault(channel: ChannelMeasurement)
    ensures ValidateChannel(channel).Err? ==> ChannelHas(channel, ValidateChannel(channel).error)
  {
    ReadingsFault(channel.readings);
  }

  lemma {:induction false} ChannelsFault(channels: seq<ChannelMeasurement>)
    ensures ValidateChannels(channels).Err? ==>
      exists channel :: channel in channels && ChannelHas(channel, ValidateChannels(channels).error)
  {
    if channels != [] {
      ChannelFault(channels[0]);
      assert channels[0] in channels;
      ChannelsFault(channels[1..]);
    }
  }

  /** A report is refused for a fault it really has. */
  lemma RefusalNamesAFault(report: MeasurementReport)
    ensures Measurements(report).Err? ==> ReportHas(report, Measurements(report).error)
  {
    ChannelsFault(report.channels);
  }

  // The conversion to storage types.

  datatype PreparedReading = PreparedReading(metric: Metric, stats: Stats)

  datatype PreparedChannel = PreparedChannel(frequencyHz: int, modulation: Modulation, labelText: string,
                                             readings: seq<PreparedReading>)

  datatype PreparedReport = PreparedReport(windowStart: Timestamp, windowEnd: Timestamp, channels: seq<PreparedChannel>)

  function PrepareReading(reading: MetricReading): Result<PreparedReading, Refusal> {
    if reading.stats.None? then Err(NoStats)
    else if MetricOf(reading.metric).None? then Err(UnknownMetric)
    else if reading.stats.value.sampleCount > I64_MAX then Err(CountTooLarge)
    else Ok(PreparedReading(MetricOf(reading.metric).value, reading.stats.value))
  }

  function PrepareReadings(readings: seq<MetricReading>): Result<seq<PreparedReading>, Refusal> {
    if readings == [] then Ok([])
    else
      match PrepareReading(readings[0])
      case Err(why) => Err(why)
      case Ok(first) =>
        match PrepareReadings(readings[1..])
        case Err(why) => Err(why)
        case Ok(rest) => Ok([first] + rest)
  }

  function PrepareChannel(channel: ChannelMeasurement): Result<PreparedChannel, Refusal> {
    if channel.frequencyHz > I64_MAX then Err(FrequencyTooLarge)
    else if |channel.labelText| > MAX_LABEL_CHARS then Err(LabelTooLong)
    else
      match PrepareReadings(channel.readings)
      case Err(why) => Err(why)
      case Ok(readings) =>
        match ModulationOf(channel.modulation)
        case None => Err(UnknownModulation)
        case Some(modulation) => Ok(PreparedChannel(channel.frequencyHz, modulation, channel.labelText, readings))
  }

  function PrepareChannels(channels: seq<ChannelMeasurement>): Result<seq<PreparedChannel>, Refusal> {
    if channels == [] then Ok([])
    else
      match PrepareChannel(channels[0])
      case Err(why) => Err(why)
      case Ok(first) =>
        match PrepareChannels(channels[1..])
        case Err(why) => Err(why)
        case Ok(rest) => Ok([first] + rest)
  }

  /** Nanoseconds past the second are allowed only in a minute's last second. */
  predicate Representable(at: Timestamp) {
    && FIRST_SECOND <= at.seconds <= LAST_SECOND
    && 0 <= at.nanos < 2_000_000_000
    && (at.nanos < 1_000_000_000 || at.seconds % 60 == 59)
  }

  function Prepare(report: MeasurementReport): Result<PreparedReport, Refusal> {
    if report.windowStart.None? then Err(NoWindowStart)
    else if report.windowEnd.None? then Err(NoWindowEnd)
    else
      match PrepareChannels(report.channels)
      case Err(why) => Err(why)
      case Ok(channels) =>
        if !Representable(report.windowStart.value) || !Representable(report.windowEnd.value) then Err(NotAnInstant)
        else Ok(PreparedReport(report.windowStart.value, report.windowEnd.value, channels))
  }

  /** An instant the calendar has: years -262143 to 262142, and a leap second only at the end of a minute. */
  ghost predicate OnCalendar(at: Timestamp) {
    && -8_334_601_228_800 <= at.seconds <= 8_210_266_876_799
    && 0 <= at.nanos
    && (at.nanos < 1_000_000_000 || (at.nanos < 2_000_000_000 && at.seconds % 60 == 59))
  }

  /** What a good report still needs to become rows. */
  ghost predicate Storable(report: MeasurementReport) {
    && report.windowStart.Some? && OnCalendar(report.windowStart.value)
    && report.windowEnd.Some? && OnCalendar(report.windowEnd.value)
    && forall channel :: channel in report.channels ==>
      |channel.labelText| <= 100 && (forall reading :: reading in channel.readings ==>
        reading.stats.Some? && reading.stats.value.sampleCount <= 0x7FFF_FFFF_FFFF_FFFF)
  }

  /** Prepared readings are the wire's, one for one. */
  ghost predicate ReadingsMatch(wire: seq<MetricReading>, prepared: seq<PreparedReading>) {
    && |wire| == |prepared|
    && forall i :: 0 <= i < |wire| ==>
      wire[i].metric == CodeOf(prepared[i].metric) && wire[i].stats == Some(prepared[i].stats)
  }

  ghost predicate ChannelsMatch(wire: seq<ChannelMeasurement>, prepared: seq<PreparedChannel>) {
    && |wire| == |prepared|
    && forall i :: 0 <= i < |wire| ==>
      && wire[i].frequencyHz == prepared[i].frequencyHz
      && wire[i].labelText == prepared[i].labelText
      && wire[i].modulation == ModulationCode(Some(prepared[i].modulation))
      && ReadingsMatch(wire[i].readings, prepared[i].readings)
  }

  lemma {:induction false} ReadingsPrepare(readings: seq<MetricReading>)
    ensures PrepareReadings(readings).Ok? ==> ReadingsMatch(readings, PrepareReadings(readings).value)
    ensures (forall reading :: reading in readings ==> PrepareReading(reading).Ok?) ==> PrepareReadings(readings).Ok?
  {
    if readings != [] {
      ReadingsPrepare(readings[1..]);
    }
  }

  lemma {:induction false} ChannelsPrepare(channels: seq<ChannelMeasurement>)
    ensures PrepareChannels(channels).Ok? ==> ChannelsMatch(channels, PrepareChannels(channels).value)
    ensures (forall channel :: channel in channels ==> PrepareChannel(channel).Ok?) ==> PrepareChannels(channels).Ok?
  {
    if channels != [] {
      ReadingsPrepare(channels[0].readings);
      ChannelsPrepare(channels[1..]);
    }
  }

  lemma {:induction false} ReadingsPrepareAll(readings: seq<MetricReading>)
    ensures PrepareReadings(readings).Ok? ==> forall reading :: reading in readings ==> PrepareReading(reading).Ok?
  {
    if readings != [] && PrepareReadings(readings).Ok? {
      ReadingsPrepareAll(readings[1..]);
    }
  }

  lemma {:induction false} ChannelsPrepareAll(channels: seq<ChannelMeasurement>)
    ensures PrepareChannels(channels).Ok? ==> forall channel :: channel in channels ==> PrepareChannel(channel).Ok?
  {
    if channels != [] && PrepareChannels(channels).Ok? {
      ChannelsPrepareAll(channels[1..]);
    }
  }

  lemma GoodChannelPrepares(channel: ChannelMeasurement)
    requires GoodChannel(channel)
    ensures PrepareChannel(channel).Ok? <==>
      |channel.labelText| <= 100 && (forall reading :: reading in channel.readings ==>
        reading.stats.Some? && reading.stats.value.sampleCount <= 0x7FFF_FFFF_FFFF_FFFF)
  {
    ReadingsPrepare(channel.readings);
    ReadingsPrepareAll(channel.readings);
  }

  lemma RepresentableOnCalendar(at: Timestamp)
    ensures Representable(at) <==> OnCalendar(at)
  {
  }

  /** After validation exactly labels, counts and the calendar can still refuse a report. */
  lemma GoodReportPrepares(report: MeasurementReport)
    requires GoodReport(report)
    ensures Prepare(report).Ok? <==> Storable(report)
  {
    forall channel | channel in report.channels
      ensures PrepareChannel(channel).Ok? <==>
        |channel.labelText| <= 100 && (forall reading :: reading in channel.readings ==>
          reading.stats.Some? && reading.stats.value.sampleCount <= 0x7FFF_FFFF_FFFF_FFFF)
    {
      GoodChannelPrepares(channel);
    }
    ChannelsPrepare(report.channels);
    ChannelsPrepareAll(report.channels);
    RepresentableOnCalendar(report.windowStart.value);
    RepresentableOnCalendar(report.windowEnd.value);
  }

  lemma PreparedCarriesTheReport(report: MeasurementReport)
    requires Prepare(report).Ok?
    ensures ChannelsMatch(report.channels, Prepare(report).value.channels)
    ensures report.windowStart == Some(Prepare(report).value.windowStart)
    ensures report.windowEnd == Some(Prepare(report).value.windowEnd)
  {
    ChannelsPrepare(report.channels);
  }
}
