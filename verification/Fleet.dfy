/** What every part of the fleet names the same way. */
module Fleet {
  datatype Metric = SignalStrength | SignalToNoise | CarrierOffset | DemodErrorRate | SpectrumOccupancy

  datatype Modulation = Fm | Dab

  /** One metric of one channel as one node hears it. */
  datatype Series = Series(node: int, channel: int, metric: Metric)

  /** Seconds and nanoseconds since 1970-01-01. */
  datatype Timestamp = Timestamp(seconds: int, nanos: int)

  function NanosOf(at: Timestamp): int {
    at.seconds * 1_000_000_000 + at.nanos
  }
}
