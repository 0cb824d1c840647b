/**
  * One node's aggregation window: samples are gathered by channel and metric, and closing the
  * window turns them into a report.
  */
module Aggregation {
  import opened Wrappers
  import opened Integers
  import opened Fleet
  import opened Statistics
  import opened Wire
  import opened Validation

  const NANOS := 1_000_000_000

  /** A sample; no metric is the wire's unspecified one, no value stands for NaN and the infinities. */
  datatype MetricSample = MetricSample(channelFrequencyHz: nat, metric: Option<Metric>, value: Option<real>)

  datatype ChannelIdentity = ChannelIdentity(frequencyHz: nat, modulation: Option<Modulation>, labelText: string)

  type Metrics = map<Metric, seq<real>>

  datatype ChannelAccumulator = ChannelAccumulator(modulation: int, labelText: string, metrics: Metrics)

  type Channels = map<nat, ChannelAccumulator>

  datatype Gathered = Gathered(channels: Channels, dropped: nat)

  function Opened(channels: Channels, channel: ChannelIdentity): (r: Channels)
    ensures channel.frequencyHz in r
  {
    if channel.frequencyHz in channels then channels
    else channels[channel.frequencyHz :=
      ChannelAccumulator(ModulationCode(channel.modulation), channel.labelText, map[])]
  }

  function Appended(metrics: Metrics, metric: Metric, value: real): Metrics {
    metrics[metric := (if metric in metrics then metrics[metric] else []) + [value]]
  }

  /** The value a sample contributes to its channel, if it is one the server would accept. */
  function ValueOf(frequencyHz: nat, metric: Metric, sample: MetricSample): Option<real> {
    if sample.channelFrequencyHz == frequencyHz && sample.metric == Some(metric)
       && sample.value.Some? && InRange(metric, sample.value.value)
    then sample.value
    else None
  }

  predicate OutOfRange(frequencyHz: nat, sample: MetricSample) {
    && sample.channelFrequencyHz == frequencyHz
    && sample.value.Some? && sample.metric.Some?
    && !InRange(sample.metric.value, sample.value.value)
  }

  function Taken(metrics: Metrics, frequencyHz: nat, sample: MetricSample): Metrics {
    if sample.metric.Some? && ValueOf(frequencyHz, sample.metric.value, sample).Some?
    then Appended(metrics, sample.metric.value, sample.value.value)
    else metrics
  }

  function TakenAll(metrics: Metrics, frequencyHz: nat, samples: seq<MetricSample>): Metrics {
    if samples == [] then metrics
    else Taken(TakenAll(metrics, frequencyHz, samples[..|samples| - 1]), frequencyHz, samples[|samples| - 1])
  }

  /** A saturating 64-bit counter. */
  function DroppedAfter(dropped: nat, frequencyHz: nat, samples: seq<MetricSample>): nat {
    if samples == [] then dropped
    else
      var front := DroppedAfter(dropped, frequencyHz, samples[..|samples| - 1]);
      if OutOfRange(frequencyHz, samples[|samples| - 1]) && front < U64_MAX then front + 1 else front
  }

  function Recorded(g: Gathered, channel: ChannelIdentity, samples: seq<MetricSample>): Gathered {
    if samples == [] then g
    else
      var channels := Opened(g.channels, channel);
      var accumulator := channels[channel.frequencyHz];
      Gathered(
        channels[channel.frequencyHz :=
          accumulator.(metrics := TakenAll(accumulator.metrics, channel.frequencyHz, samples))],
        DroppedAfter(g.dropped, channel.frequencyHz, samples))
  }

  // The report.

  const METRICS: seq<Metric> := [SignalStrength, SignalToNoise, CarrierOffset, DemodErrorRate, SpectrumOccupancy]

  /** The readings in the order of the metrics' numbers. */
  function ReadingsOf(metrics: Metrics, order: seq<Metric>): seq<MetricReading> {
    if order == [] then []
    else
      var last := order[|order| - 1];
      var front := ReadingsOf(metrics, order[..|order| - 1]);
      if last in metrics && metrics[last] != []
      then front + [MetricReading(CodeOf(last), Some(OnWire(SummaryOf(metrics[last]).value)))]
      else front
  }

  function ChannelsOf(channels: Channels, frequencies: seq<nat>): seq<ChannelMeasurement>
    requires forall f :: f in frequencies ==> f in channels
  {
    if frequencies == [] then []
    else
      var f := frequencies[|frequencies| - 1];
      var front := ChannelsOf(channels, frequencies[..|frequencies| - 1]);
      var readings := ReadingsOf(channels[f].metrics, METRICS);
      if readings == [] then front
      else front + [ChannelMeasurement(f, channels[f].modulation, channels[f].labelText, readings)]
  }

  predicate Increasing(s: seq<nat>) {
    forall i, j :: 0 <= i < j < |s| ==> s[i] < s[j]
  }

  /** The keys in ascending order. */
  ghost predicate Lists(frequencies: seq<nat>, keys: set<nat>) {
    Increasing(frequencies) && forall f :: f in frequencies <==> f in keys
  }

  function Stamp(nanos: int): Timestamp {
    Timestamp(nanos / NANOS, nanos % NANOS)
  }

  function ReportOf(start: int, end: int, channels: Channels, frequencies: seq<nat>): Option<MeasurementReport>
    requires forall f :: f in frequencies ==> f in channels
  {
    if end <= start then None
    else
      var measured := ChannelsOf(channels, frequencies);
      if measured == [] then None
      else Some(MeasurementReport(PROTOCOL_VERSION, Some(Stamp(start)), Some(Stamp(end)), measured))
  }

  // The aggregator.

  method Ordered(keys: set<nat>) returns (frequencies: seq<nat>)
    ensures Lists(frequencies, keys)
  {
    frequencies := [];
    var left := keys;
    while left != {}
      invariant left <= keys && Increasing(frequencies)
      invariant forall f :: f in frequencies <==> f in keys && f !in left
      invariant forall f, k :: f in frequencies && k in left ==> f < k
      decreases |left|
    {
      ghost var least := HasLeast(left);
      var f :| f in left && LeastIn(f, left);
      assert LeastIn(f, left);
      assert forall i :: 0 <= i < |frequencies| ==> frequencies[i] in frequencies;
      var rest := left - {f};
      forall k | k in rest ensures f < k {
        assert k in left && k != f;
      }
      var listed := frequencies + [f];
      assert forall g :: g in listed <==> g in frequencies || g == f;
      frequencies, left := listed, rest;
    }
  }

  predicate LeastIn(f: nat, keys: set<nat>) {
    f in keys && forall k :: k in keys ==> f <= k
  }

  lemma {:induction false} HasLeast(keys: set<nat>) returns (f: nat)
    requires keys != {}
    ensures LeastIn(f, keys)
    decreases |keys|
  {
    f :| f in keys;
    var rest := keys - {f};
    assert forall k :: k in keys ==> k == f || k in rest;
    if rest != {} {
      var least := HasLeast(rest);
      if least < f {
        f := least;
      }
    }
  }

  /** Everything measured since the window opened. */
  class Aggregator {
    var windowStart: int
    var channels: Channels
    var dropped: nat

    function State(): Gathered
      reads this
    {
      Gathered(channels, dropped)
    }

    constructor (windowStart: int)
      ensures this.windowStart == windowStart && State() == Gathered(map[], 0)
    {
      this.windowStart, channels, dropped := windowStart, map[], 0;
    }

    method Record(channel: ChannelIdentity, samples: seq<MetricSample>)
      modifies this
      ensures windowStart == old(windowStart)
      ensures State() == Recorded(old(State()), channel, samples)
    {
      if samples == [] {
        return;
      }
      var entered := Opened(channels, channel);
      var accumulator := entered[channel.frequencyHz];
      ghost var metrics := accumulator.metrics;
      for i := 0 to |samples|
        invariant accumulator == entered[channel.frequencyHz].(metrics :=
          TakenAll(metrics, channel.frequencyHz, samples[..i]))
        invariant channels == old(channels) && windowStart == old(windowStart)
        invariant dropped == DroppedAfter(old(dropped), channel.frequencyHz, samples[..i])
      {
        assert samples[..i + 1][..i] == samples[..i];
        var sample := samples[i];
        if sample.channelFrequencyHz != channel.frequencyHz {
          continue;
        }
        if sample.value.None? {
          continue;
        }
        if sample.metric.None? {
          continue;
        }
        if !InRange(sample.metric.value, sample.value.value) {
          if dropped < U64_MAX {
            dropped := dropped + 1;
          }
          continue;
        }
        accumulator := accumulator.(metrics := Appended(accumulator.metrics, sample.metric.value, sample.value.value));
      }
      assert samples[..|samples|] == samples;
      channels := entered[channel.frequencyHz := accumulator];
    }

    method Summed(held: seq<real>) returns (stats: Option<SampleStats>)
      ensures stats == SummaryOf(held)
    {
      var values := new real[|held|](k requires 0 <= k < |held| => held[k]);
      assert values[..] == held;
      stats := Summarize(values);
    }

    method Readings(metrics: Metrics, order: seq<Metric>) returns (readings: seq<MetricReading>)
      ensures readings == ReadingsOf(metrics, order)
    {
      readings := [];
      for i := 0 to |order|
        invariant readings == ReadingsOf(metrics, order[..i])
      {
        assert order[..i + 1][..i] == order[..i];
        var metric := order[i];
        if metric in metrics {
          var stats := Summed(metrics[metric]);
          if stats.Some? {
            readings := readings + [MetricReading(CodeOf(metric), Some(OnWire(stats.value)))];
          }
        }
      }
      assert order[..|order|] == order;
    }

    /** Close the window and open the next one where it ended. */
    method Finish(windowEnd: int) returns (report: Option<MeasurementReport>, ghost frequencies: seq<nat>)
      modifies this
      ensures windowStart == windowEnd && channels == map[] && dropped == old(dropped)
      ensures Lists(frequencies, old(channels).Keys)
      ensures report == ReportOf(old(windowStart), windowEnd, old(channels), frequencies)
    {
      var start, closed := windowStart, channels;
      channels, windowStart := map[], windowEnd;
      var order := Ordered(closed.Keys);
      frequencies := order;
      if windowEnd <= start {
        return None, order;
      }
      var measured: seq<ChannelMeasurement> := [];
      for i := 0 to |order|
        invariant measured == ChannelsOf(closed, order[..i])
        invariant windowStart == windowEnd && channels == map[] && dropped == old(dropped)
      {
        assert order[..i + 1][..i] == order[..i];
        var readings := Readings(closed[order[i]].metrics, METRICS);
        if readings != [] {
          var from := closed[order[i]];
          measured := measured + [ChannelMeasurement(order[i], from.modulation, from.labelText, readings)];
        }
      }
      assert order[..|order|] == order;
      if measured == [] {
        return None, order;
      }
      report := Some(MeasurementReport(PROTOCOL_VERSION, Some(Stamp(start)), Some(Stamp(windowEnd)), measured));
    }
  }

  // What the gathered samples are, call by call.

  datatype Call = Call(channel: ChannelIdentity, samples: seq<MetricSample>)

  function RecordedAll(calls: seq<Call>): Gathered {
    if calls == [] then Gathered(map[], 0)
    else Recorded(RecordedAll(calls[..|calls| - 1]), calls[|calls| - 1].channel, calls[|calls| - 1].samples)
  }

  /** The acceptable values of one metric among some samples, in order. */
  function ValuesIn(frequencyHz: nat, metric: Metric, samples: seq<MetricSample>): (values: seq<real>)
    ensures forall value :: value in values ==> InRange(metric, value)
  {
    if samples == [] then []
    else
      var front := ValuesIn(frequencyHz, metric, samples[..|samples| - 1]);
      var value := ValueOf(frequencyHz, metric, samples[|samples| - 1]);
      if value.Some? then front + [value.value] else front
  }

  /** The acceptable values of one metric of one channel since the window opened, in order. */
  function ValuesSince(calls: seq<Call>, frequencyHz: nat, metric: Metric): (values: seq<real>)
    ensures forall value :: value in values ==> InRange(metric, value)
  {
    if calls == [] then []
    else
      var last := calls[|calls| - 1];
      var front := ValuesSince(calls[..|calls| - 1], frequencyHz, metric);
      if last.channel.frequencyHz == frequencyHz then front + ValuesIn(frequencyHz, metric, last.samples) else front
  }

  function Held(metrics: Metrics, metric: Metric): seq<real> {
    if metric in metrics then metrics[metric] else []
  }

  function HeldBy(channels: Channels, frequencyHz: nat, metric: Metric): seq<real> {
    if frequencyHz in channels then Held(channels[frequencyHz].metrics, metric) else []
  }

  lemma {:induction false} TakenHolds(metrics: Metrics, frequencyHz: nat, samples: seq<MetricSample>, metric: Metric)
    ensures Held(TakenAll(metrics, frequencyHz, samples), metric)
      == Held(metrics, metric) + ValuesIn(frequencyHz, metric, samples)
  {
    if samples != [] {
      TakenHolds(metrics, frequencyHz, samples[..|samples| - 1], metric);
    }
  }

  /** The aggregator holds exactly the acceptable samples it was given for each channel and metric. */
  lemma {:induction false} GatheredIsExact(calls: seq<Call>, frequencyHz: nat, metric: Metric)
    ensures HeldBy(RecordedAll(calls).channels, frequencyHz, metric) == ValuesSince(calls, frequencyHz, metric)
  {
    if calls != [] {
      var front, last := calls[..|calls| - 1], calls[|calls| - 1];
      GatheredIsExact(front, frequencyHz, metric);
      var before := RecordedAll(front);
      RecordHolds(before, last.channel, last.samples, frequencyHz, metric);
    }
  }

  lemma RecordHolds(g: Gathered, channel: ChannelIdentity, samples: seq<MetricSample>, frequencyHz: nat, metric: Metric)
    ensures HeldBy(Recorded(g, channel, samples).channels, frequencyHz, metric)
         == HeldBy(g.channels, frequencyHz, metric)
            + (if channel.frequencyHz == frequencyHz then ValuesIn(frequencyHz, metric, samples) else [])
  {
    if samples != [] {
      var channels := Opened(g.channels, channel);
      TakenHolds(channels[channel.frequencyHz].metrics, channel.frequencyHz, samples, metric);
    }
  }

  // The report, against what was gathered.

  ghost predicate ValuesInRange(metrics: Metrics) {
    forall metric :: metric in metrics ==> forall value :: value in metrics[metric] ==> InRange(metric, value)
  }

  /** Every channel is one a plan may assign, and holds only values the server accepts. */
  ghost predicate ChannelsAreGood(channels: Channels) {
    forall f :: f in channels ==>
      && InBand(f, channels[f].modulation)
      && |channels[f].labelText| <= MAX_LABEL_CHARS
      && ValuesInRange(channels[f].metrics)
  }

  ghost predicate Assignable(channel: ChannelIdentity) {
    InBand(channel.frequencyHz, ModulationCode(channel.modulation)) && |channel.labelText| <= MAX_LABEL_CHARS
  }

  lemma {:induction false} TakenStaysInRange(metrics: Metrics, frequencyHz: nat, samples: seq<MetricSample>)
    requires ValuesInRange(metrics)
    ensures ValuesInRange(TakenAll(metrics, frequencyHz, samples))
  {
    if samples != [] {
      TakenStaysInRange(metrics, frequencyHz, samples[..|samples| - 1]);
    }
  }

  lemma {:induction false} GatheredIsGood(calls: seq<Call>)
    requires forall call :: call in calls ==> Assignable(call.channel)
    ensures ChannelsAreGood(RecordedAll(calls).channels)
  {
    if calls != [] {
      var front, last := calls[..|calls| - 1], calls[|calls| - 1];
      assert calls == front + [last];
      GatheredIsGood(front);
      if last.samples != [] {
        var channels := Opened(RecordedAll(front).channels, last.channel);
        TakenStaysInRange(channels[last.channel.frequencyHz].metrics, last.channel.frequencyHz, last.samples);
      }
    }
  }

  lemma SummaryIsAccepted(metric: Metric, values: seq<real>)
    requires values != [] && forall value :: value in values ==> InRange(metric, value)
    ensures GoodReading(MetricReading(CodeOf(metric), Some(OnWire(SummaryOf(values).value))))
  {
    SummaryIsOrderly(values);
  }

  lemma {:induction false} ReadingsAreGood(metrics: Metrics, order: seq<Metric>)
    requires ValuesInRange(metrics)
    ensures forall reading :: reading in ReadingsOf(metrics, order) ==> GoodReading(reading)
  {
    if order != [] {
      var last := order[|order| - 1];
      ReadingsAreGood(metrics, order[..|order| - 1]);
      if last in metrics && metrics[last] != [] {
        SummaryIsAccepted(last, metrics[last]);
      }
    }
  }

  lemma {:induction false} MeasuredIsGood(channels: Channels, frequencies: seq<nat>)
    requires ChannelsAreGood(channels) && forall f :: f in frequencies ==> f in channels
    ensures forall channel :: channel in ChannelsOf(channels, frequencies) ==>
      GoodChannel(channel) && |channel.labelText| <= MAX_LABEL_CHARS
  {
    if frequencies != [] {
      MeasuredIsGood(channels, frequencies[..|frequencies| - 1]);
      ReadingsAreGood(channels[frequencies[|frequencies| - 1]].metrics, METRICS);
    }
  }

  lemma StampsAreOrdered(start: int, end: int)
    requires start < end
    ensures Later(Stamp(end), Stamp(start))
  {
  }

  /**
    * Whatever was recorded on assignable channels, a report that is emitted passes the server's
    * validation exactly when its window spans at most a day, counted in whole seconds.
    */
  lemma EmittedReportIsAccepted(calls: seq<Call>, start: int, end: int, frequencies: seq<nat>)
    requires forall call :: call in calls ==> Assignable(call.channel)
    requires Lists(frequencies, RecordedAll(calls).channels.Keys)
    ensures var report := ReportOf(start, end, RecordedAll(calls).channels, frequencies);
      report.Some? ==>
        (Measurements(report.value).Ok? <==> end / 1_000_000_000 - start / 1_000_000_000 <= 86_400)
  {
    var channels := RecordedAll(calls).channels;
    var report := ReportOf(start, end, channels, frequencies);
    if report.Some? {
      GatheredIsGood(calls);
      MeasuredIsGood(channels, frequencies);
      StampsAreOrdered(start, end);
      MeasurementsVerdict(report.value);
    }
  }

  /** The report says this about one metric of one channel. */
  ghost predicate Says(measured: seq<ChannelMeasurement>, frequencyHz: nat, metric: Metric, stats: SampleStats) {
    exists channel :: channel in measured && channel.frequencyHz == frequencyHz
      && MetricReading(CodeOf(metric), Some(OnWire(stats))) in channel.readings
  }

  lemma {:induction false} ReadingsAreExact(metrics: Metrics, order: seq<Metric>, metric: Metric, stats: SampleStats)
    ensures MetricReading(CodeOf(metric), Some(OnWire(stats))) in ReadingsOf(metrics, order)
       <==> metric in order && Some(stats) == SummaryOf(Held(metrics, metric))
  {
    if order != [] {
      var front, last := order[..|order| - 1], order[|order| - 1];
      assert order == front + [last];
      ReadingsAreExact(metrics, front, metric, stats);
      assert CodeOf(metric) == CodeOf(last) ==> metric == last;
    }
  }

  lemma {:induction false} MeasuredIsExact(channels: Channels, frequencies: seq<nat>, frequencyHz: nat,
                                           metric: Metric, stats: SampleStats)
    requires forall f :: f in frequencies ==> f in channels
    ensures Says(ChannelsOf(channels, frequencies), frequencyHz, metric, stats)
       <==> frequencyHz in frequencies && Some(stats) == SummaryOf(HeldBy(channels, frequencyHz, metric))
  {
    if frequencies != [] {
      var front, f := frequencies[..|frequencies| - 1], frequencies[|frequencies| - 1];
      assert frequencies == front + [f];
      MeasuredIsExact(channels, front, frequencyHz, metric, stats);
      ReadingsAreExact(channels[f].metrics, METRICS, metric, stats);
      assert metric in METRICS;
      OneMoreChannel(channels, front, f, frequencyHz, metric, stats);
    }
  }

  lemma OneMoreChannel(channels: Channels, front: seq<nat>, f: nat, frequencyHz: nat, metric: Metric,
                       stats: SampleStats)
    requires f in channels && forall g :: g in front ==> g in channels
    ensures Says(ChannelsOf(channels, front + [f]), frequencyHz, metric, stats)
       <==> Says(ChannelsOf(channels, front), frequencyHz, metric, stats)
            || (f == frequencyHz && MetricReading(CodeOf(metric), Some(OnWire(stats)))
               in ReadingsOf(channels[f].metrics, METRICS))
  {
    assert (front + [f])[..|front|] == front;
    var before, after := ChannelsOf(channels, front), ChannelsOf(channels, front + [f]);
    assert forall channel :: channel in before ==> channel in after;
    var readings := ReadingsOf(channels[f].metrics, METRICS);
    if readings != [] {
      assert after[|before|] in after;
    }
  }

  /** A report carries, for each channel and metric, the summary of exactly the acceptable samples. */
  lemma EmittedReportIsExact(calls: seq<Call>, start: int, end: int, frequencies: seq<nat>, frequencyHz: nat,
                             metric: Metric, stats: SampleStats)
    requires Lists(frequencies, RecordedAll(calls).channels.Keys)
    ensures var report := ReportOf(start, end, RecordedAll(calls).channels, frequencies);
      report.Some? ==> (Says(report.value.channels, frequencyHz, metric, stats)
                        <==> Some(stats) == SummaryOf(ValuesSince(calls, frequencyHz, metric)))
  {
    MeasuredIsExact(RecordedAll(calls).channels, frequencies, frequencyHz, metric, stats);
    GatheredIsExact(calls, frequencyHz, metric);
  }

  /** A window with an acceptable sample and a forward clock always yields a report. */
  lemma AcceptableSampleMakesAReport(calls: seq<Call>, start: int, end: int, frequencies: seq<nat>, frequencyHz: nat,
                                     metric: Metric)
    requires Lists(frequencies, RecordedAll(calls).channels.Keys)
    requires start < end && ValuesSince(calls, frequencyHz, metric) != []
    ensures ReportOf(start, end, RecordedAll(calls).channels, frequencies).Some?
  {
    GatheredIsExact(calls, frequencyHz, metric);
    var stats := SummaryOf(ValuesSince(calls, frequencyHz, metric)).value;
    MeasuredIsExact(RecordedAll(calls).channels, frequencies, frequencyHz, metric, stats);
  }

  // No channel and no metric is reported twice.

  ghost predicate ReadingsDiffer(readings: seq<MetricReading>) {
    forall i, j :: 0 <= i < j < |readings| ==> readings[i].metric != readings[j].metric
  }

  ghost predicate EachOnce(measured: seq<ChannelMeasurement>) {
    && (forall i, j :: 0 <= i < j < |measured| ==> measured[i].frequencyHz != measured[j].frequencyHz)
    && (forall i :: 0 <= i < |measured| ==> ReadingsDiffer(measured[i].readings))
  }

  lemma {:induction false} ReadingsAreOnce(metrics: Metrics, order: seq<Metric>)
    requires forall i, j :: 0 <= i < j < |order| ==> CodeOf(order[i]) < CodeOf(order[j])
    ensures ReadingsDiffer(ReadingsOf(metrics, order))
    ensures forall reading :: reading in ReadingsOf(metrics, order) ==>
      order != [] && reading.metric <= CodeOf(order[|order| - 1])
  {
    if |order| > 0 {
      var front, last := order[..|order| - 1], order[|order| - 1];
      ReadingsAreOnce(metrics, front);
      var readings := ReadingsOf(metrics, front);
      forall i | 0 <= i < |readings| ensures readings[i].metric < CodeOf(last) {
        assert readings[i] in readings;
      }
    }
  }

  lemma {:induction false} MeasuredIsOnce(channels: Channels, frequencies: seq<nat>)
    requires Increasing(frequencies) && forall f :: f in frequencies ==> f in channels
    ensures EachOnce(ChannelsOf(channels, frequencies))
    ensures forall channel :: channel in ChannelsOf(channels, frequencies) ==>
      frequencies != [] && channel.frequencyHz <= frequencies[|frequencies| - 1]
  {
    if frequencies != [] {
      var front := frequencies[..|frequencies| - 1];
      MeasuredIsOnce(channels, front);
      ReadingsAreOnce(channels[frequencies[|frequencies| - 1]].metrics, METRICS);
      var measured := ChannelsOf(channels, front);
      forall i | 0 <= i < |measured| ensures measured[i].frequencyHz < frequencies[|frequencies| - 1] {
        assert measured[i] in measured;
      }
    }
  }

  // Which samples count, and what a report says beside its numbers.

  /** A sample's value counts for its own channel and metric when it lies in the metric's range. */
  lemma ValueIsExact(frequencyHz: nat, metric: Metric, sample: MetricSample)
    ensures ValueOf(frequencyHz, metric, sample).Some? <==>
      && sample.channelFrequencyHz == frequencyHz && sample.metric == Some(metric)
      && sample.value.Some? && Carries(CodeOf(metric), sample.value.value)
    ensures ValueOf(frequencyHz, metric, sample).Some? ==> ValueOf(frequencyHz, metric, sample) == sample.value
  {
    if sample.value.Some? {
      RangesInNumbers(metric, sample.value.value);
    }
  }

  /** Samples of the channel that have a metric and a finite value outside its range. */
  ghost function StrayIn(frequencyHz: nat, samples: seq<MetricSample>): set<nat> {
    set i: nat | i < |samples|
      && samples[i].channelFrequencyHz == frequencyHz && samples[i].metric.Some? && samples[i].value.Some?
      && !Carries(CodeOf(samples[i].metric.value), samples[i].value.value)
  }

  lemma StrayGrows(frequencyHz: nat, front: seq<MetricSample>, last: MetricSample)
    ensures |StrayIn(frequencyHz, front + [last])|
         == |StrayIn(frequencyHz, front)| + (if OutOfRange(frequencyHz, last) then 1 else 0)
  {
    var more := StrayIn(frequencyHz, front + [last]);
    if last.metric.Some? && last.value.Some? {
      RangesInNumbers(last.metric.value, last.value.value);
    }
    if OutOfRange(frequencyHz, last) {
      assert more == StrayIn(frequencyHz, front) + {|front|};
    } else {
      assert more == StrayIn(frequencyHz, front);
    }
  }

  /** Exactly the samples out of range are counted, in a counter that stays at its largest value. */
  lemma {:induction false} DroppedIsExact(dropped: nat, frequencyHz: nat, samples: seq<MetricSample>)
    requires dropped <= 0xFFFF_FFFF_FFFF_FFFF
    ensures var all := dropped + |StrayIn(frequencyHz, samples)|;
      DroppedAfter(dropped, frequencyHz, samples) == if all <= 0xFFFF_FFFF_FFFF_FFFF then all else 0xFFFF_FFFF_FFFF_FFFF
  {
    if samples == [] {
      assert StrayIn(frequencyHz, samples) == {};
    } else {
      var front, last := samples[..|samples| - 1], samples[|samples| - 1];
      assert samples == front + [last];
      DroppedIsExact(dropped, frequencyHz, front);
      StrayGrows(frequencyHz, front, last);
    }
  }

  /** The counter runs over all calls, empty ones apart, and never shrinks. */
  lemma RecordCountsStray(g: Gathered, channel: ChannelIdentity, samples: seq<MetricSample>)
    requires g.dropped <= 0xFFFF_FFFF_FFFF_FFFF
    ensures var all := g.dropped + |StrayIn(channel.frequencyHz, samples)|;
      Recorded(g, channel, samples).dropped == if all <= 0xFFFF_FFFF_FFFF_FFFF then all else 0xFFFF_FFFF_FFFF_FFFF
  {
    if samples == [] {
      assert StrayIn(channel.frequencyHz, samples) == {};
    }
    DroppedIsExact(g.dropped, channel.frequencyHz, samples);
  }

  /** The first call with samples for a frequency names its channel. */
  ghost predicate NamedBy(calls: seq<Call>, frequencyHz: nat, k: nat) {
    && k < |calls|
    && calls[k].channel.frequencyHz == frequencyHz && calls[k].samples != []
    && forall j :: 0 <= j < k ==> calls[j].channel.frequencyHz != frequencyHz || calls[j].samples == []
  }

  /** A channel is gathered from its first samples on, under the modulation and label they came with. */
  lemma {:induction false} GatheredUnderItsName(calls: seq<Call>, frequencyHz: nat, k: nat)
    requires NamedBy(calls, frequencyHz, k)
    ensures var channels := RecordedAll(calls).channels;
      && frequencyHz in channels
      && channels[frequencyHz].modulation == ModulationCode(calls[k].channel.modulation)
      && channels[frequencyHz].labelText == calls[k].channel.labelText
  {
    var front, last := calls[..|calls| - 1], calls[|calls| - 1];
    if k < |front| {
      GatheredUnderItsName(front, frequencyHz, k);
    } else {
      NotGathered(front, frequencyHz);
    }
  }

  lemma {:induction false} NotGathered(calls: seq<Call>, frequencyHz: nat)
    requires forall j :: 0 <= j < |calls| ==> calls[j].channel.frequencyHz != frequencyHz || calls[j].samples == []
    ensures frequencyHz !in RecordedAll(calls).channels
  {
    if calls != [] {
      NotGathered(calls[..|calls| - 1], frequencyHz);
    }
  }

  lemma {:induction false} ChannelsKeepTheirNames(channels: Channels, frequencies: seq<nat>)
    requires forall f :: f in frequencies ==> f in channels
    ensures forall channel :: channel in ChannelsOf(channels, frequencies) ==>
      && channel.frequencyHz in frequencies
      && channel.modulation == channels[channel.frequencyHz].modulation
      && channel.labelText == channels[channel.frequencyHz].labelText
  {
    if frequencies != [] {
      ChannelsKeepTheirNames(channels, frequencies[..|frequencies| - 1]);
    }
  }

  /** A report is of version 1 and of exactly this window, and every channel is named as it was gathered. */
  lemma ReportIsOfItsWindow(start: int, end: int, channels: Channels, frequencies: seq<nat>)
    requires forall f :: f in frequencies ==> f in channels
    requires ReportOf(start, end, channels, frequencies).Some?
    ensures var report := ReportOf(start, end, channels, frequencies).value;
      && report.protocolVersion == "1" && start < end
      && report.windowStart.Some? && IsInstant(report.windowStart.value, start)
      && report.windowEnd.Some? && IsInstant(report.windowEnd.value, end)
      && forall channel :: channel in report.channels ==>
        && channel.frequencyHz in frequencies
        && channel.modulation == channels[channel.frequencyHz].modulation
        && channel.labelText == channels[channel.frequencyHz].labelText
  {
    ChannelsKeepTheirNames(channels, frequencies);
  }

  ghost predicate IsInstant(at: Timestamp, nanos: int) {
    at.seconds * 1_000_000_000 + at.nanos == nanos && 0 <= at.nanos < 1_000_000_000
  }

  /** There is a report exactly when the clock advanced and some acceptable sample came. */
  lemma ReportExactlyWhen(calls: seq<Call>, start: int, end: int, frequencies: seq<nat>)
    requires Lists(frequencies, RecordedAll(calls).channels.Keys)
    ensures ReportOf(start, end, RecordedAll(calls).channels, frequencies).Some? <==>
      start < end && exists f, metric :: ValuesSince(calls, f, metric) != []
  {
    var channels := RecordedAll(calls).channels;
    if start < end {
      if f, metric :| ValuesSince(calls, f, metric) != [] {
        AcceptableSampleMakesAReport(calls, start, end, frequencies, f, metric);
      }
      if ChannelsOf(channels, frequencies) != [] {
        var f, metric := SomeReading(channels, frequencies);
        GatheredIsExact(calls, f, metric);
      }
    }
  }

  lemma {:induction false} SomeReading(channels: Channels, frequencies: seq<nat>) returns (f: nat, metric: Metric)
    requires (forall f :: f in frequencies ==> f in channels) && ChannelsOf(channels, frequencies) != []
    ensures HeldBy(channels, f, metric) != []
  {
    var front, last := frequencies[..|frequencies| - 1], frequencies[|frequencies| - 1];
    if ReadingsOf(channels[last].metrics, METRICS) == [] {
      f, metric := SomeReading(channels, front);
    } else {
      f := last;
      metric := SomeMetric(channels[last].metrics, METRICS);
    }
  }

  lemma {:induction false} SomeMetric(metrics: Metrics, order: seq<Metric>) returns (metric: Metric)
    requires ReadingsOf(metrics, order) != []
    ensures Held(metrics, metric) != []
  {
    metric := order[|order| - 1];
    if Held(metrics, metric) == [] {
      metric := SomeMetric(metrics, order[..|order| - 1]);
    }
  }
}
