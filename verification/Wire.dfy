/** The messages a node sends, with the numbers the wire gives to metrics and modulations. */
module Wire {
  import opened Wrappers
  import opened Fleet
  import opened Statistics

  const PROTOCOL_VERSION := "1"

  /** A double as it comes over the wire: infinities and what is not a number are told apart from the rest only. */
  datatype Number = Finite(value: real) | NotFinite

  datatype Stats = Stats(
    min: Number,
    max: Number,
    mean: Number,
    median: Number,
    variance: Number,
    p95: Number,
    sampleCount: nat)

  /** The statistics, if all of them are finite. */
  function FiniteOf(stats: Stats): Option<SampleStats> {
    if stats.min.Finite? && stats.max.Finite? && stats.mean.Finite?
       && stats.median.Finite? && stats.variance.Finite? && stats.p95.Finite?
    then Some(SampleStats(stats.min.value, stats.max.value, stats.mean.value, stats.median.value,
                          stats.variance.value, stats.p95.value, stats.sampleCount))
    else None
  }

  function OnWire(stats: SampleStats): (r: Stats)
    ensures FiniteOf(r) == Some(stats)
  {
    Stats(Finite(stats.min), Finite(stats.max), Finite(stats.mean), Finite(stats.median),
          Finite(stats.variance), Finite(stats.p95), stats.sampleCount)
  }

  /** The statistics are taken field by field, and refused when any of them is not finite. */
  lemma FiniteFieldByField(stats: Stats, numbers: SampleStats)
    ensures FiniteOf(stats) == Some(numbers) <==>
      && stats.min == Finite(numbers.min) && stats.max == Finite(numbers.max)
      && stats.mean == Finite(numbers.mean) && stats.median == Finite(numbers.median)
      && stats.variance == Finite(numbers.variance) && stats.p95 == Finite(numbers.p95)
      && stats.sampleCount == numbers.sampleCount
  {
  }

  datatype MetricReading = MetricReading(metric: int, stats: Option<Stats>)

  datatype ChannelMeasurement = ChannelMeasurement(
    frequencyHz: nat,
    modulation: int,
    labelText: string,
    readings: seq<MetricReading>)

  datatype MeasurementReport = MeasurementReport(
    protocolVersion: string,
    windowStart: Option<Timestamp>,
    windowEnd: Option<Timestamp>,
    channels: seq<ChannelMeasurement>)

  function CodeOf(metric: Metric): int {
    match metric
    case SignalStrength => 1
    case SignalToNoise => 2
    case CarrierOffset => 3
    case DemodErrorRate => 4
    case SpectrumOccupancy => 5
  }

  /** Zero is the unspecified metric; nothing beyond five is known. */
  function MetricOf(code: int): (metric: Option<Metric>)
    ensures metric.Some? <==> 1 <= code <= 5
    ensures metric.Some? ==> CodeOf(metric.value) == code
  {
    if code == 1 then Some(SignalStrength)
    else if code == 2 then Some(SignalToNoise)
    else if code == 3 then Some(CarrierOffset)
    else if code == 4 then Some(DemodErrorRate)
    else if code == 5 then Some(SpectrumOccupancy)
    else None
  }

  function ModulationCode(modulation: Option<Modulation>): int {
    match modulation
    case None => 0
    case Some(Fm) => 1
    case Some(Dab) => 2
  }

  function ModulationOf(code: int): (modulation: Option<Modulation>)
    ensures modulation.Some? ==> ModulationCode(modulation) == code
    ensures code == 1 || code == 2 <==> modulation.Some?
  {
    if code == 1 then Some(Fm) else if code == 2 then Some(Dab) else None
  }

  /** The values a metric is accepted with, both ends included. */
  function MetricRange(metric: Metric): (range: (real, real))
    ensures range.0 <= range.1
  {
    match metric
    case SignalStrength => (-150.0, 0.0)
    case SignalToNoise => (0.0, 80.0)
    case CarrierOffset => (-200_000.0, 200_000.0)
    case DemodErrorRate => (0.0, 1.0)
    case SpectrumOccupancy => (0.0, 1.0)
  }

  predicate InRange(metric: Metric, value: real) {
    MetricRange(metric).0 <= value <= MetricRange(metric).1
  }

  /** What each metric's wire number may carry: dB, dB, Hz, and two shares. */
  ghost predicate Carries(code: int, value: real) {
    || (code == 1 && -150.0 <= value <= 0.0)
    || (code == 2 && 0.0 <= value <= 80.0)
    || (code == 3 && -200_000.0 <= value <= 200_000.0)
    || (code == 4 && 0.0 <= value <= 1.0)
    || (code == 5 && 0.0 <= value <= 1.0)
  }

  /** The node's ranges and the server's are the same, in plain numbers. */
  lemma RangesInNumbers(metric: Metric, value: real)
    ensures InRange(metric, value) <==> Carries(CodeOf(metric), value)
    ensures MetricOf(CodeOf(metric)) == Some(metric)
  {
  }

  /** The wire's numbers. */
  lemma WireNumbers()
    ensures CodeOf(SignalStrength) == 1 && CodeOf(SignalToNoise) == 2 && CodeOf(CarrierOffset) == 3
    ensures CodeOf(DemodErrorRate) == 4 && CodeOf(SpectrumOccupancy) == 5
    ensures ModulationCode(None) == 0 && ModulationCode(Some(Fm)) == 1 && ModulationCode(Some(Dab)) == 2
    ensures PROTOCOL_VERSION == "1"
  {
  }
}
