/**
  * Storing a report: channels are looked up or created, and every reading becomes a row that is
  * ignored when its key is already taken. One transaction, all or nothing.
  */
module Ingest {
  import opened Wrappers
  import opened Fleet
  import opened Wire
  import opened Validation

  /** 2000-01-01, the instant the store counts microseconds from. */
  const STORE_EPOCH := 946_684_800

  /** Microseconds since the store's epoch, cut toward it. */
  function Micros(at: Timestamp): int {
    var nanos := (at.seconds - STORE_EPOCH) * 1_000_000_000 + at.nanos;
    if nanos >= 0 then nanos / 1_000 else -(-nanos / 1_000)
  }

  /** A timestamp column without fractions rounds half a second away from the epoch. */
  function RoundSecond(micros: int): int {
    if micros >= 0 then (micros + 500_000) / 1_000_000 else -((-micros + 500_000) / 1_000_000)
  }

  function StoredSecond(at: Timestamp): int {
    RoundSecond(Micros(at))
  }

  datatype RowKey = RowKey(node: int, channel: int, metric: Metric, start: int)

  datatype RowData = RowData(end: int, stats: Stats)

  type ChannelIds = map<(int, Modulation), int>

  type Rows = map<RowKey, RowData>

  datatype Tables = Tables(channels: ChannelIds, nextChannel: int, rows: Rows)

  const NO_ROWS := Tables(map[], 1, map[])

  /** The first instant the store can hold: the start of Julian day zero, in 4713 BC. */
  const FIRST_MICRO := -211_813_488_000_000_000

  predicate InStore(at: Timestamp) {
    Micros(at) >= FIRST_MICRO
  }

  /** The table holds the window: its type has both ends, and its constraint their order after rounding. */
  predicate WindowHolds(report: PreparedReport) {
    && InStore(report.windowStart) && InStore(report.windowEnd)
    && StoredSecond(report.windowStart) < StoredSecond(report.windowEnd)
  }

  function ChannelKey(channel: PreparedChannel): (int, Modulation) {
    (channel.frequencyHz, channel.modulation)
  }

  /** Every attempt to insert a channel takes a number, used or not. */
  function RegisterOne(tables: Tables, known: ChannelIds, key: (int, Modulation)): Tables {
    if key in known then tables
    else if key in tables.channels then tables.(nextChannel := tables.nextChannel + 1)
    else tables.(channels := tables.channels[key := tables.nextChannel], nextChannel := tables.nextChannel + 1)
  }

  /** Insert the channels not known yet. */
  function Register(tables: Tables, known: ChannelIds, channels: seq<PreparedChannel>): (r: Tables)
    ensures r.rows == tables.rows
  {
    if channels == [] then tables
    else RegisterOne(Register(tables, known, channels[..|channels| - 1]), known, ChannelKey(channels[|channels| - 1]))
  }

  function IdsOf(ids: ChannelIds, channels: seq<PreparedChannel>): (r: seq<int>)
    requires forall channel :: channel in channels ==> ChannelKey(channel) in ids
    ensures |r| == |channels|
    ensures forall c :: 0 <= c < |r| ==> r[c] == ids[ChannelKey(channels[c])]
  {
    seq(|channels|, c requires 0 <= c < |channels| => ids[ChannelKey(channels[c])])
  }

  /** One channel's rows. */
  function RowsOfChannel(node: int, report: PreparedReport, id: int, readings: seq<PreparedReading>): (r: seq<(RowKey,
                         RowData)>)
    ensures |r| == |readings|
    ensures forall i :: 0 <= i < |r| ==>
      r[i] == (RowKey(node, id, readings[i].metric, StoredSecond(report.windowStart)),
               RowData(StoredSecond(report.windowEnd), readings[i].stats))
  {
    seq(|readings|, i requires 0 <= i < |readings| =>
      (RowKey(node, id, readings[i].metric, StoredSecond(report.windowStart)),
       RowData(StoredSecond(report.windowEnd), readings[i].stats)))
  }

  function RowsFrom(node: int, report: PreparedReport, channels: seq<PreparedChannel>, ids: seq<int>): seq<(RowKey,
                    RowData)>
    requires |ids| == |channels|
  {
    if channels == [] then []
    else
      RowsFrom(node, report, channels[..|channels| - 1], ids[..|ids| - 1])
      + RowsOfChannel(node, report, ids[|ids| - 1], channels[|channels| - 1].readings)
  }

  /** Insert rows one by one, ignoring those whose key is taken. */
  function InsertRows(rows: Rows, batch: seq<(RowKey, RowData)>): Rows {
    if batch == [] then rows
    else
      var front := InsertRows(rows, batch[..|batch| - 1]);
      var last := batch[|batch| - 1];
      if last.0 in front then front else front[last.0 := last.1]
  }

  /** The channels already stored on any of the report's frequencies. */
  function KnownFor(ids: ChannelIds, channels: seq<PreparedChannel>): (known: ChannelIds)
    ensures forall key :: key in known ==> key in ids && known[key] == ids[key]
    ensures forall channel :: channel in channels && ChannelKey(channel) in ids ==> ChannelKey(channel) in known
  {
    var frequencies := set channel | channel in channels :: channel.frequencyHz;
    map key | key in ids && key.0 in frequencies :: ids[key]
  }

  predicate AllKnown(ids: ChannelIds, channels: seq<PreparedChannel>) {
    forall channel :: channel in channels ==> ChannelKey(channel) in ids
  }

  /**
    * The transaction. A refused one leaves no row and no channel behind, only the numbers that
    * were taken for channels.
    */
  function WriteOf(tables: Tables, node: int, report: PreparedReport): (Tables, bool) {
    var registered := Register(tables, KnownFor(tables.channels, report.channels), report.channels);
    if !AllKnown(registered.channels, report.channels) then (tables.(nextChannel := registered.nextChannel), false)
    else
      var batch := RowsFrom(node, report, report.channels, IdsOf(registered.channels, report.channels));
      if batch != [] && !WindowHolds(report) then (tables.(nextChannel := registered.nextChannel), false)
      else (registered.(rows := InsertRows(tables.rows, batch)), true)
  }

  /** One submission: validate, convert, store. */
  function SubmitOf(tables: Tables, node: int, report: MeasurementReport): (Tables, bool) {
    if Measurements(report).Err? then (tables, false)
    else
      match Prepare(report)
      case Err(_) => (tables, false)
      case Ok(prepared) => WriteOf(tables, node, prepared)
  }

  // The transaction, as the server runs it.

  class MeasurementServer {
    var channels: ChannelIds
    var nextChannel: int
    var rows: Rows

    function Contents(): Tables
      reads this
    {
      Tables(channels, nextChannel, rows)
    }

    constructor ()
      ensures Contents() == NO_ROWS
    {
      channels, nextChannel, rows := map[], 1, map[];
    }

    method RegisterChannels(known: ChannelIds, wanted: seq<PreparedChannel>)
      modifies this
      ensures Contents() == Register(old(Contents()), known, wanted)
    {
      for c := 0 to |wanted|
        invariant Contents() == Register(old(Contents()), known, wanted[..c])
      {
        assert wanted[..c + 1][..c] == wanted[..c];
        var key := ChannelKey(wanted[c]);
        if key !in known {
          if key !in channels {
            channels := channels[key := nextChannel];
          }
          nextChannel := nextChannel + 1;
        }
      }
      assert wanted[..|wanted|] == wanted;
    }

    method Insert(batch: seq<(RowKey, RowData)>)
      modifies this
      ensures Contents() == old(Contents()).(rows := InsertRows(old(rows), batch))
    {
      for i := 0 to |batch|
        invariant Contents() == old(Contents()).(rows := InsertRows(old(rows), batch[..i]))
      {
        assert batch[..i + 1][..i] == batch[..i];
        if batch[i].0 !in rows {
          rows := rows[batch[i].0 := batch[i].1];
        }
      }
      assert batch[..|batch|] == batch;
    }

    method Write(node: int, report: PreparedReport) returns (stored: bool)
      modifies this
      ensures (Contents(), stored) == WriteOf(old(Contents()), node, report)
    {
      var before := channels;
      var known := KnownFor(channels, report.channels);
      RegisterChannels(known, report.channels);
      if !AllKnown(channels, report.channels) {
        channels := before;
        return false;
      }
      var batch := RowsFrom(node, report, report.channels, IdsOf(channels, report.channels));
      if batch != [] && !WindowHolds(report) {
        channels := before;
        return false;
      }
      Insert(batch);
      stored := true;
    }

    method Submit(node: int, report: MeasurementReport) returns (stored: bool)
      modifies this
      ensures (Contents(), stored) == SubmitOf(old(Contents()), node, report)
    {
      if Measurements(report).Err? {
        return false;
      }
      var prepared := Prepare(report);
      if prepared.Err? {
        return false;
      }
      stored := Write(node, prepared.value);
    }
  }

  // What a submission leaves behind.

  /** No two channels share a number, and the next one is unused, by channels and by rows. */
  ghost predicate Numbered(tables: Tables) {
    && (forall key :: key in tables.channels ==> tables.channels[key] < tables.nextChannel)
    && (forall key :: key in tables.rows ==> key.channel < tables.nextChannel)
    && (forall a, b :: a in tables.channels && b in tables.channels && tables.channels[a] == tables.channels[b] ==>
       a == b)
  }

  ghost predicate Extends<K, V>(a: map<K, V>, b: map<K, V>) {
    forall key :: key in a ==> key in b && b[key] == a[key]
  }

  /** Channels keep their numbers, and new ones get numbers not used before. */
  ghost predicate NewNumbers(before: Tables, after: Tables) {
    && Extends(before.channels, after.channels)
    && before.nextChannel <= after.nextChannel
    && forall key :: key in after.channels && key !in before.channels ==> after.channels[key] >= before.nextChannel
  }

  lemma RegisterOneNumbers(tables: Tables, known: ChannelIds, key: (int, Modulation))
    requires Numbered(tables) && Extends(known, tables.channels)
    ensures var r := RegisterOne(tables, known, key);
      Numbered(r) && NewNumbers(tables, r) && key in r.channels
  {
  }

  lemma NewNumbersChain(a: Tables, b: Tables, c: Tables)
    requires NewNumbers(a, b) && NewNumbers(b, c)
    ensures NewNumbers(a, c)
  {
  }

  lemma KnownGrows(ids: ChannelIds, after: ChannelIds, front: seq<PreparedChannel>, last: PreparedChannel)
    requires AllKnown(ids, front) && Extends(ids, after) && ChannelKey(last) in after
    ensures AllKnown(after, front + [last])
  {
  }

  lemma {:induction false} RegisterNumbers(tables: Tables, known: ChannelIds, channels: seq<PreparedChannel>)
    requires Numbered(tables) && Extends(known, tables.channels)
    ensures var r := Register(tables, known, channels);
      Numbered(r) && NewNumbers(tables, r) && AllKnown(r.channels, channels)
  {
    if channels != [] {
      var front, last := channels[..|channels| - 1], channels[|channels| - 1];
      assert channels == front + [last];
      var before := Register(tables, known, front);
      var after := RegisterOne(before, known, ChannelKey(last));
      RegisterNumbers(tables, known, front);
      RegisterOneNumbers(before, known, ChannelKey(last));
      NewNumbersChain(tables, before, after);
      KnownGrows(before.channels, after.channels, front, last);
    }
  }

  lemma {:induction false} InsertKeeps(rows: Rows, batch: seq<(RowKey, RowData)>)
    ensures var r := InsertRows(rows, batch);
      && Extends(rows, r)
      && (forall i :: 0 <= i < |batch| ==> batch[i].0 in r)
      && (forall key :: key in r && key !in rows ==> (key, r[key]) in batch)
  {
    if batch != [] {
      var front := batch[..|batch| - 1];
      assert batch == front + [batch[|batch| - 1]];
      InsertKeeps(rows, front);
    }
  }

  /** The row that reading `k` of channel `c` becomes. */
  function RowAt(ids: ChannelIds, node: int, report: PreparedReport, c: nat, k: nat): RowKey
    requires c < |report.channels| && k < |report.channels[c].readings|
    requires ChannelKey(report.channels[c]) in ids
  {
    RowKey(node, ids[ChannelKey(report.channels[c])], report.channels[c].readings[k].metric,
      StoredSecond(report.windowStart))
  }

  function DataAt(report: PreparedReport, c: nat, k: nat): RowData
    requires c < |report.channels| && k < |report.channels[c].readings|
  {
    RowData(StoredSecond(report.windowEnd), report.channels[c].readings[k].stats)
  }

  lemma {:induction false} RowsHaveReading(node: int, report: PreparedReport, channels: seq<PreparedChannel>,
                                           ids: seq<int>, c: nat, k: nat)
    requires |ids| == |channels| && c < |channels| && k < |channels[c].readings|
    ensures (RowKey(node, ids[c], channels[c].readings[k].metric, StoredSecond(report.windowStart)),
             RowData(StoredSecond(report.windowEnd), channels[c].readings[k].stats))
            in RowsFrom(node, report, channels, ids)
  {
    if c < |channels| - 1 {
      RowsHaveReading(node, report, channels[..|channels| - 1], ids[..|ids| - 1], c, k);
    } else {
      assert RowsOfChannel(node, report, ids[c], channels[c].readings)[k]
        in RowsOfChannel(node, report, ids[c], channels[c].readings);
    }
  }

  lemma {:induction false} RowsComeFromReadings(node: int, report: PreparedReport, channels: seq<PreparedChannel>,
                                                ids: seq<int>, row: (RowKey, RowData)) returns (c: nat, k: nat)
    requires |ids| == |channels| && row in RowsFrom(node, report, channels, ids)
    ensures c < |channels| && k < |channels[c].readings|
    ensures row == (RowKey(node, ids[c], channels[c].readings[k].metric, StoredSecond(report.windowStart)),
                    RowData(StoredSecond(report.windowEnd), channels[c].readings[k].stats))
  {
    var last := RowsOfChannel(node, report, ids[|ids| - 1], channels[|channels| - 1].readings);
    if row in last {
      c := |channels| - 1;
      k :| 0 <= k < |last| && last[k] == row;
    } else {
      c, k := RowsComeFromReadings(node, report, channels[..|channels| - 1], ids[..|ids| - 1], row);
    }
  }

  /** Every reading of a report has its row, with its own values. */
  ghost predicate IsStored(tables: Tables, node: int, report: PreparedReport) {
    && AllKnown(tables.channels, report.channels)
    && forall c: nat, k: nat | c < |report.channels| && k < |report.channels[c].readings| ::
      && RowAt(tables.channels, node, report, c, k) in tables.rows
      && tables.rows[RowAt(tables.channels, node, report, c, k)] == DataAt(report, c, k)
  }

  /** No channel and no metric of a channel is reported twice. */
  ghost predicate OneReadingEach(report: PreparedReport) {
    forall c: nat, k: nat, d: nat, l: nat ::
      c < |report.channels| && k < |report.channels[c].readings| && d < |report.channels|
        && l < |report.channels[d].readings| ==>
      ChannelKey(report.channels[c]) == ChannelKey(report.channels[d])
      && report.channels[c].readings[k].metric == report.channels[d].readings[l].metric ==>
      c == d && k == l
  }

  /** A stored row of this report's second and node is one of this report's own. */
  ghost predicate NoForeignRows(tables: Tables, node: int, report: PreparedReport) {
    forall c: nat, k: nat | c < |report.channels| && k < |report.channels[c].readings|
      && ChannelKey(report.channels[c]) in tables.channels ::
      RowAt(tables.channels, node, report, c, k) in tables.rows ==>
      tables.rows[RowAt(tables.channels, node, report, c, k)] == DataAt(report, c, k)
  }

  /** Some reading of the report is this row. */
  ghost predicate OwnRow(ids: ChannelIds, node: int, report: PreparedReport, key: RowKey, data: RowData) {
    exists c: nat, k: nat ::
      c < |report.channels| && k < |report.channels[c].readings| && ChannelKey(report.channels[c]) in ids
      && key == RowAt(ids, node, report, c, k) && data == DataAt(report, c, k)
  }

  lemma BatchIsOwn(ids: ChannelIds, node: int, report: PreparedReport, row: (RowKey, RowData))
    requires AllKnown(ids, report.channels)
    requires row in RowsFrom(node, report, report.channels, IdsOf(ids, report.channels))
    ensures OwnRow(ids, node, report, row.0, row.1)
  {
    var c, k := RowsComeFromReadings(node, report, report.channels, IdsOf(ids, report.channels), row);
    assert row.0 == RowAt(ids, node, report, c, k) && row.1 == DataAt(report, c, k);
  }

  /** With one reading each, two readings that share a key are the same reading. */
  lemma OwnRowIsUnique(tables: Tables, node: int, report: PreparedReport, c: nat, k: nat, data: RowData)
    requires Numbered(tables) && OneReadingEach(report)
    requires c < |report.channels| && k < |report.channels[c].readings|
      && ChannelKey(report.channels[c]) in tables.channels
    requires OwnRow(tables.channels, node, report, RowAt(tables.channels, node, report, c, k), data)
    ensures data == DataAt(report, c, k)
  {
    var d: nat, l: nat :|
      d < |report.channels| && l < |report.channels[d].readings| && ChannelKey(report.channels[d]) in tables.channels
      && RowAt(tables.channels, node, report, c, k) == RowAt(tables.channels, node, report, d, l)
         && data == DataAt(report, d, l);
    assert ChannelKey(report.channels[c]) == ChannelKey(report.channels[d]);
  }

  ghost predicate OnlyOwnRows(before: Tables, after: Tables, node: int, report: PreparedReport) {
    forall key :: key in after.rows && key !in before.rows ==>
      OwnRow(after.channels, node, report, key, after.rows[key])
  }

  lemma StoredOne(tables: Tables, registered: Tables, node: int, report: PreparedReport, c: nat, k: nat)
    requires Numbered(tables) && Numbered(registered) && NewNumbers(tables, registered)
      && registered.rows == tables.rows
    requires OneReadingEach(report) && NoForeignRows(tables, node, report)
      && AllKnown(registered.channels, report.channels)
    requires c < |report.channels| && k < |report.channels[c].readings|
    ensures var key := RowAt(registered.channels, node, report, c, k);
      var after := InsertRows(tables.rows,
        RowsFrom(node, report, report.channels, IdsOf(registered.channels, report.channels)));
      key in after && after[key] == DataAt(report, c, k)
  {
    var ids := IdsOf(registered.channels, report.channels);
    var batch := RowsFrom(node, report, report.channels, ids);
    var after := InsertRows(tables.rows, batch);
    var key := RowAt(registered.channels, node, report, c, k);
    InsertKeeps(tables.rows, batch);
    RowsHaveReading(node, report, report.channels, ids, c, k);
    var i :| 0 <= i < |batch| && batch[i] == (key, DataAt(report, c, k));
    if key in tables.rows {
      assert ChannelKey(report.channels[c]) in tables.channels;
      assert key == RowAt(tables.channels, node, report, c, k);
    } else {
      BatchIsOwn(registered.channels, node, report, (key, after[key]));
      OwnRowIsUnique(registered, node, report, c, k, after[key]);
    }
  }

  lemma InsertIsOwn(registered: Tables, node: int, report: PreparedReport)
    requires Numbered(registered) && AllKnown(registered.channels, report.channels)
    ensures var batch := RowsFrom(node, report, report.channels, IdsOf(registered.channels, report.channels));
      var after := registered.(rows := InsertRows(registered.rows, batch));
      Extends(registered.rows, after.rows) && OnlyOwnRows(registered, after, node, report)
  {
    var batch := RowsFrom(node, report, report.channels, IdsOf(registered.channels, report.channels));
    var rows := InsertRows(registered.rows, batch);
    InsertKeeps(registered.rows, batch);
    forall key | key in rows && key !in registered.rows
      ensures OwnRow(registered.channels, node, report, key, rows[key]) {
      BatchIsOwn(registered.channels, node, report, (key, rows[key]));
    }
  }

  lemma OwnRowsAreNumbered(registered: Tables, after: Tables, node: int, report: PreparedReport)
    requires Numbered(registered) && OnlyOwnRows(registered, after, node, report)
    requires after.channels == registered.channels && after.nextChannel == registered.nextChannel
    ensures Numbered(after)
  {
  }

  /** Storing keeps every row and every number there was, and adds only this report's rows. */
  lemma WriteKeeps(tables: Tables, node: int, report: PreparedReport)
    requires Numbered(tables)
    ensures var (after, stored) := WriteOf(tables, node, report);
      && Numbered(after) && NewNumbers(tables, after) && Extends(tables.rows, after.rows)
      && OnlyOwnRows(tables, after, node, report)
      && (!stored ==> after.rows == tables.rows && after.channels == tables.channels)
  {
    var (after, stored) := WriteOf(tables, node, report);
    var registered := Register(tables, KnownFor(tables.channels, report.channels), report.channels);
    RegisterNumbers(tables, KnownFor(tables.channels, report.channels), report.channels);
    if stored {
      InsertIsOwn(registered, node, report);
      OwnRowsAreNumbered(registered, after, node, report);
    }
  }

  /** A report whose window survives rounding is stored whole. */
  lemma WriteStores(tables: Tables, node: int, report: PreparedReport)
    requires Numbered(tables) && WindowHolds(report) && OneReadingEach(report) && NoForeignRows(tables, node, report)
    ensures var (after, stored) := WriteOf(tables, node, report);
      stored && IsStored(after, node, report)
  {
    var registered := Register(tables, KnownFor(tables.channels, report.channels), report.channels);
    RegisterNumbers(tables, KnownFor(tables.channels, report.channels), report.channels);
    forall c: nat, k: nat | c < |report.channels| && k < |report.channels[c].readings|
      ensures var key := RowAt(registered.channels, node, report, c, k);
        var after := InsertRows(tables.rows,
          RowsFrom(node, report, report.channels, IdsOf(registered.channels, report.channels)));
        key in after && after[key] == DataAt(report, c, k)
    {
      StoredOne(tables, registered, node, report, c, k);
    }
  }

  // Exactly which reports are taken.

  predicate Admissible(report: MeasurementReport) {
    && Measurements(report).Ok?
    && Prepare(report).Ok?
    && WindowHolds(Prepare(report).value)
  }

  lemma GoodReportHasRows(report: MeasurementReport, node: int, ids: seq<int>)
    requires Measurements(report).Ok? && Prepare(report).Ok?
    requires |ids| == |Prepare(report).value.channels|
    ensures RowsFrom(node, Prepare(report).value, Prepare(report).value.channels, ids) != []
  {
    MeasurementsVerdict(report);
    PreparedCarriesTheReport(report);
    assert report.channels[0] in report.channels;
    RowsHaveReading(node, Prepare(report).value, Prepare(report).value.channels, ids, 0, 0);
  }

  /** The server takes a report exactly when it is admissible, whatever it already holds. */
  lemma SubmitVerdict(tables: Tables, node: int, report: MeasurementReport)
    requires Numbered(tables)
    ensures SubmitOf(tables, node, report).1 <==> Admissible(report)
  {
    if Measurements(report).Ok? && Prepare(report).Ok? {
      var prepared := Prepare(report).value;
      var known := KnownFor(tables.channels, prepared.channels);
      var registered := Register(tables, known, prepared.channels);
      RegisterNumbers(tables, known, prepared.channels);
      GoodReportHasRows(report, node, IdsOf(registered.channels, prepared.channels));
    }
  }

  // Channel numbers, one by one.

  /** How many of the channels were not known. */
  function CountUnknown(known: ChannelIds, channels: seq<PreparedChannel>): nat {
    if channels == [] then 0
    else (if ChannelKey(channels[0]) in known then 0 else 1) + CountUnknown(known, channels[1..])
  }

  lemma {:induction false} UnknownSplits(known: ChannelIds, a: seq<PreparedChannel>, b: seq<PreparedChannel>)
    ensures CountUnknown(known, a + b) == CountUnknown(known, a) + CountUnknown(known, b)
  {
    if a == [] {
      assert a + b == b;
    } else {
      assert (a + b)[1..] == a[1..] + b;
      UnknownSplits(known, a[1..], b);
    }
  }

  lemma OneUnknown(known: ChannelIds, channel: PreparedChannel)
    ensures CountUnknown(known, [channel]) == if ChannelKey(channel) in known then 0 else 1
  {
    assert CountUnknown(known, [channel][1..]) == 0;
  }

  /** Every unknown channel of the report takes the next number, whether or not it was stored in the meantime. */
  lemma {:induction false} RegisterTakesNumbers(tables: Tables, known: ChannelIds, channels: seq<PreparedChannel>)
    ensures Register(tables, known, channels).nextChannel == tables.nextChannel + CountUnknown(known, channels)
  {
    if channels != [] {
      var front, last := channels[..|channels| - 1], channels[|channels| - 1];
      assert channels == front + [last];
      RegisterTakesNumbers(tables, known, front);
      UnknownSplits(known, front, [last]);
      OneUnknown(known, last);
    }
  }

  /** A channel stored for the first time has the number its first mention took. */
  lemma {:induction false} NewChannelNumber(tables: Tables, known: ChannelIds, channels: seq<PreparedChannel>, c: nat)
    requires c < |channels| && ChannelKey(channels[c]) !in known && ChannelKey(channels[c]) !in tables.channels
    requires forall b :: 0 <= b < c ==> ChannelKey(channels[b]) != ChannelKey(channels[c])
    ensures var key := ChannelKey(channels[c]);
      var after := Register(tables, known, channels).channels;
      key in after && after[key] == tables.nextChannel + CountUnknown(known, channels[..c])
  {
    var front, last := channels[..|channels| - 1], channels[|channels| - 1];
    if c < |front| {
      assert front[..c] == channels[..c];
      NewChannelNumber(tables, known, front, c);
    } else {
      assert front == channels[..c];
      RegisterTakesNumbers(tables, known, front);
      StaysUnregistered(tables, known, front, ChannelKey(last));
    }
  }

  lemma {:induction false} StaysUnregistered(tables: Tables, known: ChannelIds, channels: seq<PreparedChannel>,
                                             key: (int, Modulation))
    requires key !in tables.channels && forall b :: 0 <= b < |channels| ==> ChannelKey(channels[b]) != key
    ensures key !in Register(tables, known, channels).channels
  {
    if channels != [] {
      StaysUnregistered(tables, known, channels[..|channels| - 1], key);
    }
  }

  // Rounding.

  /** Nanoseconds since 2000-01-01. */
  function SinceEpoch(at: Timestamp): int {
    (at.seconds - 946_684_800) * 1_000_000_000 + at.nanos
  }

  /** Instants are cut to microseconds toward 2000. */
  lemma MicrosAreCut(at: Timestamp)
    ensures SinceEpoch(at) >= 0 ==> 1_000 * Micros(at) <= SinceEpoch(at) < 1_000 * Micros(at) + 1_000
    ensures SinceEpoch(at) <= 0 ==> 1_000 * Micros(at) - 1_000 < SinceEpoch(at) <= 1_000 * Micros(at)
  {
  }

  /** Microseconds are rounded to the nearest second, and halves away from 2000. */
  lemma SecondsAreRounded(micros: int)
    ensures micros >= 0 ==> micros - 500_000 < 1_000_000 * RoundSecond(micros) <= micros + 500_000
    ensures micros <= 0 ==> micros - 500_000 <= 1_000_000 * RoundSecond(micros) < micros + 500_000
  {
  }

  /** From 2000 on, the stored second of an instant, in plain numbers. */
  lemma StoredSecondInNumbers(at: Timestamp)
    requires SinceEpoch(at) >= 0
    ensures StoredSecond(at) == (SinceEpoch(at) / 1_000 + 500_000) / 1_000_000
  {
  }

  /** The store holds instants from the midnight that begins Julian day zero on, cut as they are. */
  lemma StoreBegins(at: Timestamp)
    ensures InStore(at) <==> SinceEpoch(at) > -211_813_488_000_000_000_000 - 1_000
  {
  }

  lemma RoundingIsMonotone(a: int, b: int)
    requires a <= b
    ensures RoundSecond(a) <= RoundSecond(b)
  {
  }

  lemma StoredSecondIsMonotone(a: Timestamp, b: Timestamp)
    requires NanosOf(a) <= NanosOf(b)
    ensures StoredSecond(a) <= StoredSecond(b)
  {
    RoundingIsMonotone(Micros(a), Micros(b));
  }

  /** From 2000 on, a window of at least a second is never rounded away. */
  lemma WholeSecondSurvives(a: Timestamp, b: Timestamp)
    requires a.seconds >= STORE_EPOCH && a.nanos >= 0
    requires NanosOf(a) + 1_000_000_000 <= NanosOf(b)
    ensures StoredSecond(a) < StoredSecond(b)
  {
    assert Micros(a) + 1_000_000 <= Micros(b);
  }
}
