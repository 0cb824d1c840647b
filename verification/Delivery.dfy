/**
  * Store and forward: a node closes windows into its journal and delivers the journal to the
  * server, over a link that may fail before or after the server has stored a report, across
  * restarts, while other nodes report too.
  */
module Delivery {
  import opened Wrappers
  import opened Integers
  import opened Fleet
  import opened Wire
  import opened Validation
  import opened Aggregation
  import opened Journal
  import opened Ingest

  /** How one submission goes on the wire. */
  datatype Link = Answered | AckLost | Unreachable

  datatype Phase =
    | Resting
    | Sending(sent: nat)
    | Ending(sent: nat)

  /** One node's constants. */
  datatype Setup = Setup(node: int, limit: nat, codec: Codec<MeasurementReport>)

  /**
    * The node, the server, and what happened so far: every report that was journaled, how many of
    * those have left the journal, and which of them the byte limit took.
    */
  datatype System = System(
    clock: int,
    journal: seq<MeasurementReport>,
    phase: Phase,
    server: Tables,
    pushed: seq<MeasurementReport>,
    base: nat,
    dropped: set<nat>)

  datatype Step =
    | Close(at: int, channels: Channels, order: seq<nat>, written: bool)
    | BeginDelivery
    | Submit(link: Link)
    | FinishDelivery(trimmed: bool)
    | Restart(at: int)
    | Elsewhere(other: int, report: MeasurementReport)

  function Initial(start: int): System {
    System(start, [], Resting, NO_ROWS, [], 0, {})
  }

  function Span(from: nat, until: nat): (r: set<nat>)
    ensures forall i :: i in r <==> from <= i < until
    decreases until - from
  {
    if from >= until then {} else {from} + Span(from + 1, until)
  }

  function Journaled(u: Setup, s: System, report: MeasurementReport): System {
    var all := s.journal + [report];
    var kept := Trimmed(all, |FrameAll(u.codec, all)|, u.limit);
    var gone := |all| - |kept|;
    s.(journal := kept, pushed := s.pushed + [report], base := s.base + gone,
       dropped := s.dropped + Span(s.base, s.base + gone))
  }

  /** One submission: what the server holds after it, and whether the node heard a yes. */
  function Sent(u: Setup, server: Tables, report: MeasurementReport, link: Link): (Tables, bool) {
    if link.Unreachable? then (server, false)
    else
      var (after, stored) := SubmitOf(server, u.node, report);
      (after, stored && link.Answered?)
  }

  function Next(u: Setup, s: System, step: Step): Option<System> {
    match step
    case Close(at, channels, order, written) =>
      if !s.phase.Resting? || exists f :: f in order && f !in channels then None
      else
        (match ReportOf(s.clock, at, channels, order)
         case None => Some(s.(clock := at))
         case Some(report) => if written then Some(Journaled(u, s, report).(clock := at)) else Some(s.(clock := at)))
    case BeginDelivery =>
      if s.phase.Resting? && s.journal != [] then Some(s.(phase := Sending(0))) else None
    case Submit(link) =>
      if !s.phase.Sending? || s.phase.sent >= |s.journal| then None
      else
        var (after, heard) := Sent(u, s.server, s.journal[s.phase.sent], link);
        Some(s.(server := after, phase := if heard then Sending(s.phase.sent + 1) else Ending(s.phase.sent)))
    case FinishDelivery(trimmed) =>
      if s.phase.Resting? || s.phase.sent > |s.journal| || (s.phase.Sending? && s.phase.sent < |s.journal|) then None
      else if s.phase.sent > 0 && trimmed
      then Some(s.(journal := s.journal[s.phase.sent..], base := s.base + s.phase.sent, phase := Resting))
      else Some(s.(phase := Resting))
    case Restart(at) => Some(s.(clock := at, phase := Resting))
    case Elsewhere(other, report) => Some(s.(server := SubmitOf(s.server, other, report).0))
  }

  /** The clock never goes back, and other nodes are others. */
  ghost predicate Fair(u: Setup, s: System, step: Step) {
    match step
    case Close(at, channels, order, _) => s.clock <= at && Lists(order, channels.Keys)
    case Restart(at) => s.clock <= at
    case Elsewhere(other, _) => other != u.node
    case _ => true
  }

  // The invariant.

  /** A report as the aggregator makes it, for the window from `start` to `end`. */
  ghost predicate Windowed(report: MeasurementReport, start: int, end: int) {
    && start < end
    && report.windowStart == Some(Stamp(start))
    && report.windowEnd == Some(Stamp(end))
    && EachOnce(report.channels)
  }

  function StartOf(report: MeasurementReport): int {
    if report.windowStart.Some? then NanosOf(report.windowStart.value) else 0
  }

  function EndOf(report: MeasurementReport): int {
    if report.windowEnd.Some? then NanosOf(report.windowEnd.value) else 0
  }

  ghost predicate FromAggregator(report: MeasurementReport) {
    Windowed(report, StartOf(report), EndOf(report))
  }

  /** Windows follow one another, none past the clock. */
  ghost predicate WindowsInOrder(pushed: seq<MeasurementReport>, clock: int) {
    && (forall i :: 0 <= i < |pushed| ==> FromAggregator(pushed[i]) && EndOf(pushed[i]) <= clock)
    && (forall i, j :: 0 <= i < j < |pushed| ==> EndOf(pushed[i]) <= StartOf(pushed[j]))
  }

  ghost predicate IsTaken(node: int, server: Tables, report: MeasurementReport) {
    Admissible(report) && IsStored(server, node, Prepare(report).value)
  }

  /** Every row of this node is a reading of some admissible report it journaled. */
  ghost predicate RowsHaveReports(node: int, server: Tables, pushed: seq<MeasurementReport>) {
    forall key :: key in server.rows && key.node == node ==> RowHasReport(node, server, pushed, key)
  }

  ghost predicate RowHasReport(node: int, server: Tables, pushed: seq<MeasurementReport>, key: RowKey)
    requires key in server.rows
  {
    exists i :: 0 <= i < |pushed| && IsSource(node, server, pushed[i], key)
  }

  ghost predicate IsSource(node: int, server: Tables, report: MeasurementReport, key: RowKey)
    requires key in server.rows
  {
    Admissible(report) && OwnRow(server.channels, node, Prepare(report).value, key, server.rows[key])
  }

  /** What has left the journal is on the server, unless the limit took it. */
  ghost predicate NothingLost(node: int, server: Tables, pushed: seq<MeasurementReport>, base: nat, dropped: set<nat>) {
    forall i :: 0 <= i < base && i < |pushed| && i !in dropped ==> IsTaken(node, server, pushed[i])
  }

  ghost predicate AcknowledgedAreTaken(node: int, server: Tables, journal: seq<MeasurementReport>, phase: Phase) {
    phase.Resting? || (phase.sent <= |journal| && forall i :: 0 <= i < phase.sent ==> IsTaken(node, server, journal[i]))
  }

  ghost predicate JournalIsSuffix(s: System) {
    s.base <= |s.pushed| && s.journal == s.pushed[s.base..]
  }

  ghost predicate Invariant(u: Setup, s: System) {
    && JournalIsSuffix(s)
    && WindowsInOrder(s.pushed, s.clock)
    && Numbered(s.server)
    && RowsHaveReports(u.node, s.server, s.pushed)
    && NothingLost(u.node, s.server, s.pushed, s.base, s.dropped)
    && AcknowledgedAreTaken(u.node, s.server, s.journal, s.phase)
    && (u.limit == 0 ==> s.dropped == {})
  }

  // Windows and keys.

  lemma StampKeepsNanos(at: int)
    ensures NanosOf(Stamp(at)) == at
  {
  }

  lemma ReportIsWindowed(start: int, end: int, channels: Channels, order: seq<nat>)
    requires Lists(order, channels.Keys)
    ensures var report := ReportOf(start, end, channels, order);
      report.Some? ==> FromAggregator(report.value) && StartOf(report.value) == start && EndOf(report.value) == end
  {
    StampKeepsNanos(start);
    StampKeepsNanos(end);
    MeasuredIsOnce(channels, order);
  }

  /** A window that survives rounding starts in an earlier stored second than any window after it. */
  lemma SecondsDiffer(a: PreparedReport, b: PreparedReport)
    requires WindowHolds(a) && NanosOf(a.windowEnd) <= NanosOf(b.windowStart)
    ensures StoredSecond(a.windowStart) < StoredSecond(b.windowStart)
  {
    StoredSecondIsMonotone(a.windowEnd, b.windowStart);
  }

  lemma PreparedKeepsWindow(report: MeasurementReport)
    requires Prepare(report).Ok?
    ensures NanosOf(Prepare(report).value.windowStart) == StartOf(report)
      && NanosOf(Prepare(report).value.windowEnd) == EndOf(report)
  {
    PreparedCarriesTheReport(report);
  }

  /** No two admissible reports of a node share a stored second. */
  lemma SourceIsUnique(pushed: seq<MeasurementReport>, clock: int, i: nat, j: nat)
    requires WindowsInOrder(pushed, clock) && i < |pushed| && j < |pushed|
    requires Admissible(pushed[i]) && Admissible(pushed[j])
    requires StoredSecond(Prepare(pushed[i]).value.windowStart) == StoredSecond(Prepare(pushed[j]).value.windowStart)
    ensures i == j
  {
    PreparedKeepsWindow(pushed[i]);
    PreparedKeepsWindow(pushed[j]);
    if i < j {
      SecondsDiffer(Prepare(pushed[i]).value, Prepare(pushed[j]).value);
    } else if j < i {
      SecondsDiffer(Prepare(pushed[j]).value, Prepare(pushed[i]).value);
    }
  }

  /** A report that names nothing twice prepares to one reading each. */
  lemma EachOncePrepares(report: MeasurementReport)
    requires Prepare(report).Ok? && EachOnce(report.channels)
    ensures OneReadingEach(Prepare(report).value)
  {
    PreparedCarriesTheReport(report);
    var prepared := Prepare(report).value;
    forall c: nat, k: nat, d: nat, l: nat |
      c < |prepared.channels| && k < |prepared.channels[c].readings|
      && d < |prepared.channels| && l < |prepared.channels[d].readings|
      && ChannelKey(prepared.channels[c]) == ChannelKey(prepared.channels[d])
      && prepared.channels[c].readings[k].metric == prepared.channels[d].readings[l].metric
      ensures c == d && k == l
    {
      assert report.channels[c].frequencyHz == report.channels[d].frequencyHz;
      assert c == d;
      assert report.channels[c].readings[k].metric == report.channels[c].readings[l].metric;
    }
  }

  // What one submission does.

  lemma StoredStays(node: int, before: Tables, after: Tables, report: MeasurementReport)
    requires IsTaken(node, before, report)
    requires Extends(before.channels, after.channels) && Extends(before.rows, after.rows)
    ensures IsTaken(node, after, report)
  {
    var prepared := Prepare(report).value;
    forall c: nat, k: nat | c < |prepared.channels| && k < |prepared.channels[c].readings|
      ensures ChannelKey(prepared.channels[c]) in after.channels
      ensures RowAt(after.channels, node, prepared, c, k) in after.rows
      ensures after.rows[RowAt(after.channels, node, prepared, c, k)] == DataAt(prepared, c, k)
    {
      assert RowAt(before.channels, node, prepared, c, k) == RowAt(after.channels, node, prepared, c, k);
    }
    assert forall channel :: channel in prepared.channels ==> ChannelKey(channel) in before.channels;
  }

  lemma SourceStays(node: int, before: Tables, after: Tables, report: MeasurementReport, key: RowKey)
    requires key in before.rows && IsSource(node, before, report, key)
    requires Extends(before.channels, after.channels) && Extends(before.rows, after.rows)
    ensures IsSource(node, after, report, key)
  {
    var prepared := Prepare(report).value;
    var c: nat, k: nat :|
      c < |prepared.channels| && k < |prepared.channels[c].readings|
        && ChannelKey(prepared.channels[c]) in before.channels
      && key == RowAt(before.channels, node, prepared, c, k) && before.rows[key] == DataAt(prepared, c, k);
    assert key == RowAt(after.channels, node, prepared, c, k);
  }

  ghost predicate ServerGrows(before: Tables, after: Tables) {
    Numbered(after) && Extends(before.channels, after.channels) && Extends(before.rows, after.rows)
  }

  ghost predicate NewRowsAreOf(node: int, before: Tables, after: Tables, report: MeasurementReport) {
    forall key :: key in after.rows && key !in before.rows ==> key.node == node && IsSource(node, after, report, key)
  }

  lemma SubmitGrows(server: Tables, node: int, report: MeasurementReport)
    requires Numbered(server)
    ensures var after := SubmitOf(server, node, report).0;
      ServerGrows(server, after) && NewRowsAreOf(node, server, after, report)
  {
    if Measurements(report).Ok? && Prepare(report).Ok? {
      var prepared := Prepare(report).value;
      WriteKeeps(server, node, prepared);
      SubmitVerdict(server, node, report);
    }
  }

  lemma NoForeignSource(node: int, server: Tables, pushed: seq<MeasurementReport>, clock: int, j: nat)
    requires Numbered(server) && WindowsInOrder(pushed, clock) && RowsHaveReports(node, server, pushed)
    requires j < |pushed| && Admissible(pushed[j])
    ensures OneReadingEach(Prepare(pushed[j]).value) && NoForeignRows(server, node, Prepare(pushed[j]).value)
  {
    var prepared := Prepare(pushed[j]).value;
    EachOncePrepares(pushed[j]);
    forall c: nat, k: nat | c < |prepared.channels| && k < |prepared.channels[c].readings|
      && ChannelKey(prepared.channels[c]) in server.channels
         && RowAt(server.channels, node, prepared, c, k) in server.rows
      ensures server.rows[RowAt(server.channels, node, prepared, c, k)] == DataAt(prepared, c, k)
    {
      var key := RowAt(server.channels, node, prepared, c, k);
      assert RowHasReport(node, server, pushed, key);
      var i :| 0 <= i < |pushed| && IsSource(node, server, pushed[i], key);
      SourceIsUnique(pushed, clock, i, j);
      OwnRowIsUnique(server, node, prepared, c, k, server.rows[key]);
    }
  }

  /** An admissible report of this node's is stored whole, first try or retry. */
  lemma SubmitTakes(node: int, server: Tables, pushed: seq<MeasurementReport>, clock: int, j: nat)
    requires Numbered(server) && WindowsInOrder(pushed, clock) && RowsHaveReports(node, server, pushed)
    requires j < |pushed|
    ensures var (after, stored) := SubmitOf(server, node, pushed[j]);
      (stored <==> Admissible(pushed[j])) && (stored ==> IsTaken(node, after, pushed[j]))
  {
    SubmitVerdict(server, node, pushed[j]);
    if Admissible(pushed[j]) {
      NoForeignSource(node, server, pushed, clock, j);
      WriteStores(server, node, Prepare(pushed[j]).value);
    }
  }

  lemma RowsKeepReports(node: int, before: Tables, after: Tables, pushed: seq<MeasurementReport>, of: int,
                        report: MeasurementReport)
    requires RowsHaveReports(node, before, pushed) && ServerGrows(before, after)
      && NewRowsAreOf(of, before, after, report)
    requires of == node ==> report in pushed
    ensures RowsHaveReports(node, after, pushed)
  {
    forall key | key in after.rows && key.node == node ensures RowHasReport(node, after, pushed, key) {
      if key in before.rows {
        assert RowHasReport(node, before, pushed, key);
        var i :| 0 <= i < |pushed| && IsSource(node, before, pushed[i], key);
        SourceStays(node, before, after, pushed[i], key);
      } else {
        var i :| 0 <= i < |pushed| && pushed[i] == report;
        assert IsSource(node, after, pushed[i], key);
      }
    }
  }

  lemma TakenStays(node: int, before: Tables, after: Tables, reports: seq<MeasurementReport>)
    requires ServerGrows(before, after)
    ensures forall i :: 0 <= i < |reports| && IsTaken(node, before, reports[i]) ==> IsTaken(node, after, reports[i])
  {
    forall i | 0 <= i < |reports| && IsTaken(node, before, reports[i]) ensures IsTaken(node, after, reports[i]) {
      StoredStays(node, before, after, reports[i]);
    }
  }

  /** A server that only grew, by rows of a known report or of another node, still has everything it had. */
  lemma GrowthKeeps(u: Setup, s: System, after: Tables, of: int, report: MeasurementReport)
    requires Invariant(u, s)
    requires ServerGrows(s.server, after) && NewRowsAreOf(of, s.server, after, report)
    requires of == u.node ==> report in s.pushed
    ensures Invariant(u, s.(server := after))
  {
    RowsKeepReports(u.node, s.server, after, s.pushed, of, report);
    TakenStays(u.node, s.server, after, s.pushed);
    TakenStays(u.node, s.server, after, s.journal);
  }

  // Every step.

  lemma CloseKeeps(u: Setup, s: System, at: int, channels: Channels, order: seq<nat>, written: bool)
    requires Invariant(u, s) && Fair(u, s, Close(at, channels, order, written))
      && Next(u, s, Close(at, channels, order, written)).Some?
    ensures Invariant(u, Next(u, s, Close(at, channels, order, written)).value)
  {
    var report := ReportOf(s.clock, at, channels, order);
    ReportIsWindowed(s.clock, at, channels, order);
    if report.Some? && written {
      JournalKeeps(u, s, report.value, at);
    }
  }

  lemma MoreWindows(pushed: seq<MeasurementReport>, clock: int, report: MeasurementReport, at: int)
    requires WindowsInOrder(pushed, clock) && FromAggregator(report) && clock <= StartOf(report) && EndOf(report) <= at
    ensures WindowsInOrder(pushed + [report], at)
  {
  }

  lemma MoreReports(node: int, server: Tables, pushed: seq<MeasurementReport>, report: MeasurementReport)
    requires RowsHaveReports(node, server, pushed)
    ensures RowsHaveReports(node, server, pushed + [report])
  {
    forall key | key in server.rows && key.node == node ensures RowHasReport(node, server, pushed + [report], key) {
      assert RowHasReport(node, server, pushed, key);
      var i :| 0 <= i < |pushed| && IsSource(node, server, pushed[i], key);
      assert (pushed + [report])[i] == pushed[i];
    }
  }

  lemma SuffixStays(pushed: seq<MeasurementReport>, base: nat, journal: seq<MeasurementReport>,
                    kept: seq<MeasurementReport>, report: MeasurementReport)
    requires base <= |pushed| && journal == pushed[base..]
    requires |kept| <= |journal| + 1 && kept == (journal + [report])[|journal| + 1 - |kept|..]
    ensures base + (|journal| + 1 - |kept|) <= |pushed| + 1
    ensures kept == (pushed + [report])[base + (|journal| + 1 - |kept|)..]
  {
    assert journal + [report] == (pushed + [report])[base..];
  }

  lemma DroppingLosesNothingElse(node: int, server: Tables, pushed: seq<MeasurementReport>, base: nat,
                                 dropped: set<nat>, report: MeasurementReport, after: nat)
    requires NothingLost(node, server, pushed, base, dropped) && base <= after && base <= |pushed|
    ensures NothingLost(node, server, pushed + [report], after, dropped + Span(base, after))
  {
  }

  lemma JournalKeeps(u: Setup, s: System, report: MeasurementReport, at: int)
    requires Invariant(u, s) && s.phase.Resting?
    requires FromAggregator(report) && s.clock <= StartOf(report) && EndOf(report) <= at
    ensures Invariant(u, Journaled(u, s, report).(clock := at))
  {
    var after := Journaled(u, s, report);
    MoreWindows(s.pushed, s.clock, report, at);
    MoreReports(u.node, s.server, s.pushed, report);
    SuffixStays(s.pushed, s.base, s.journal, after.journal, report);
    DroppingLosesNothingElse(u.node, s.server, s.pushed, s.base, s.dropped, report, after.base);
  }

  lemma SubmitKeeps(u: Setup, s: System, link: Link)
    requires s.phase.Sending? && s.phase.sent < |s.journal| && Invariant(u, s)
    ensures Invariant(u, Next(u, s, Submit(link)).value)
  {
    var report := s.journal[s.phase.sent];
    assert report == s.pushed[s.base + s.phase.sent];
    if !link.Unreachable? {
      var (after, stored) := SubmitOf(s.server, u.node, report);
      SubmitGrows(s.server, u.node, report);
      SubmitTakes(u.node, s.server, s.pushed, s.clock, s.base + s.phase.sent);
      GrowthKeeps(u, s, after, u.node, report);
    }
  }

  lemma FinishKeeps(u: Setup, s: System, trimmed: bool)
    requires Invariant(u, s) && Next(u, s, FinishDelivery(trimmed)).Some?
    ensures Invariant(u, Next(u, s, FinishDelivery(trimmed)).value)
  {
    var after := Next(u, s, FinishDelivery(trimmed)).value;
    forall i | s.base <= i < after.base ensures IsTaken(u.node, s.server, s.pushed[i]) {
      assert s.pushed[i] == s.journal[i - s.base];
    }
  }

  lemma StepKeeps(u: Setup, s: System, step: Step)
    requires Invariant(u, s) && Fair(u, s, step) && Next(u, s, step).Some?
    ensures Invariant(u, Next(u, s, step).value)
  {
    match step
    case Close(at, channels, order, written) => CloseKeeps(u, s, at, channels, order, written);
    case Submit(link) => SubmitKeeps(u, s, link);
    case FinishDelivery(trimmed) => FinishKeeps(u, s, trimmed);
    case Elsewhere(other, report) =>
      SubmitGrows(s.server, other, report);
      GrowthKeeps(u, s, SubmitOf(s.server, other, report).0, other, report);
    case _ =>
  }

  // Every run.

  ghost predicate IsRun(u: Setup, states: seq<System>, steps: seq<Step>) {
    && |states| == |steps| + 1
    && (exists start :: states[0] == Initial(start))
    && forall i :: 0 <= i < |steps| ==>
       Fair(u, states[i], steps[i]) && Next(u, states[i], steps[i]) == Some(states[i + 1])
  }

  lemma {:induction false} RunHolds(u: Setup, states: seq<System>, steps: seq<Step>, i: nat)
    requires IsRun(u, states, steps) && i < |states|
    ensures Invariant(u, states[i])
  {
    if i > 0 {
      RunHolds(u, states, steps, i - 1);
      assert Fair(u, states[i - 1], steps[i - 1]);
      StepKeeps(u, states[i - 1], steps[i - 1]);
    }
  }

  /**
    * In every run the journal is the newest end of what was journaled, and every report that has
    * left it is on the server, whole and with its own values, unless the byte limit took it; with
    * no limit nothing is ever taken.
    */
  lemma NothingIsLost(u: Setup, states: seq<System>, steps: seq<Step>, i: nat, k: nat)
    requires IsRun(u, states, steps) && i < |states|
    requires k < states[i].base
    ensures JournalIsSuffix(states[i])
    ensures k in states[i].dropped || IsTaken(u.node, states[i].server, states[i].pushed[k])
    ensures u.limit == 0 ==> states[i].dropped == {}
  {
    RunHolds(u, states, steps, i);
  }

  /** What the byte limit takes when this report is journaled: nothing, or the older half, rounded up. */
  ghost predicate LimitTakes(u: Setup, s: System, report: MeasurementReport, after: System) {
    var all := s.journal + [report];
    if u.limit == 0 || |FrameAll(u.codec, s.journal)| + |Frame(u.codec, report)| <= u.limit
    then after.journal == all && after.base == s.base && after.dropped == s.dropped
    else
      && after.journal == all[|all| - |all| / 2..]
      && after.base == s.base + (|all| - |all| / 2)
      && forall k :: k in after.dropped <==> k in s.dropped || s.base <= k < after.base
  }

  lemma SizeOfMore(codec: Codec<MeasurementReport>, journal: seq<MeasurementReport>, report: MeasurementReport)
    ensures |FrameAll(codec, journal + [report])| == |FrameAll(codec, journal)| + |Frame(codec, report)|
  {
    FramesConcatenate(codec, journal, [report]);
    OneFrame(codec, report);
  }

  lemma TrimmedTakes(u: Setup, s: System, report: MeasurementReport, all: seq<MeasurementReport>, size: nat)
    requires all == s.journal + [report] && size == |FrameAll(u.codec, all)|
    ensures var kept := Trimmed(all, size, u.limit);
      if u.limit == 0 || size <= u.limit then kept == all
      else |kept| == |all| / 2 && kept == all[|all| - |all| / 2..]
  {
    NewerHalfStays(all);
  }

  lemma JournaledTakes(u: Setup, s: System, report: MeasurementReport)
    ensures LimitTakes(u, s, report, Journaled(u, s, report))
    ensures s.journal != [] ==>
      var kept := Journaled(u, s, report).journal; kept != [] && kept[|kept| - 1] == report
  {
    var all := s.journal + [report];
    SizeOfMore(u.codec, s.journal, report);
    TrimmedTakes(u, s, report, all, |FrameAll(u.codec, all)|);
  }

  /** Closing journals the report and takes exactly what the limit asks for, so the newest of several reports stays. */
  lemma CloseDropsExactly(u: Setup, s: System, at: int, channels: Channels, order: seq<nat>)
    requires Next(u, s, Close(at, channels, order, true)).Some?
    requires ReportOf(s.clock, at, channels, order).Some?
    ensures var report := ReportOf(s.clock, at, channels, order).value;
      var after := Next(u, s, Close(at, channels, order, true)).value;
      && after.pushed == s.pushed + [report]
      && LimitTakes(u, s, report, after)
      && (s.journal != [] ==> after.journal != [] && after.journal[|after.journal| - 1] == report)
  {
    JournaledTakes(u, s, ReportOf(s.clock, at, channels, order).value);
  }

  lemma OnlyClosingDrops(u: Setup, s: System, step: Step)
    requires Next(u, s, step).Some? && Next(u, s, step).value.dropped != s.dropped
    ensures step.Close? && step.written && ReportOf(s.clock, step.at, step.channels, step.order).Some?
  {
  }

  /**
    * In every run the limit took a report only at a closing that found the journal too large and the
    * report in its older half.
    */
  lemma {:induction false} DroppedByTheLimit(u: Setup, states: seq<System>, steps: seq<Step>, i: nat,
    k: nat) returns (j: nat)
    requires IsRun(u, states, steps) && i < |states| && k in states[i].dropped
    ensures j < i && steps[j].Close? && 0 < u.limit
    ensures var report := ReportOf(states[j].clock, steps[j].at, steps[j].channels, steps[j].order);
      && report.Some?
      && u.limit < |FrameAll(u.codec, states[j].journal)| + |Frame(u.codec, report.value)|
      && states[j].base <= k < states[j].base + (|states[j].journal| + 1) - (|states[j].journal| + 1) / 2
  {
    assert i > 0;
    j := i - 1;
    assert Next(u, states[j], steps[j]) == Some(states[i]);
    if k in states[j].dropped {
      j := DroppedByTheLimit(u, states, steps, j, k);
    } else {
      OnlyClosingDrops(u, states[j], steps[j]);
      CloseDropsExactly(u, states[j], steps[j].at, steps[j].channels, steps[j].order);
    }
  }

  /** In every run each of this node's rows is a reading of exactly one report it journaled. */
  lemma EachRowHasOneReport(u: Setup, states: seq<System>, steps: seq<Step>, i: nat, key: RowKey) returns (k: nat)
    requires IsRun(u, states, steps) && i < |states|
    requires key in states[i].server.rows && key.node == u.node
    ensures k < |states[i].pushed| && IsSource(u.node, states[i].server, states[i].pushed[k], key)
    ensures forall j :: 0 <= j < |states[i].pushed| && j != k && Admissible(states[i].pushed[j]) ==>
      StoredSecond(Prepare(states[i].pushed[j]).value.windowStart) != key.start
  {
    RunHolds(u, states, steps, i);
    var s := states[i];
    assert RowHasReport(u.node, s.server, s.pushed, key);
    k :| 0 <= k < |s.pushed| && IsSource(u.node, s.server, s.pushed[k], key);
    forall j | 0 <= j < |s.pushed| && j != k && Admissible(s.pushed[j])
      ensures StoredSecond(Prepare(s.pushed[j]).value.windowStart) != key.start
    {
      if StoredSecond(Prepare(s.pushed[j]).value.windowStart) == key.start {
        SourceIsUnique(s.pushed, s.clock, j, k);
      }
    }
  }

  lemma StepKeepsRows(u: Setup, s: System, step: Step)
    requires Numbered(s.server) && Next(u, s, step).Some?
    ensures Extends(s.server.rows, Next(u, s, step).value.server.rows)
    ensures s.pushed <= Next(u, s, step).value.pushed
  {
    match step
    case Submit(link) => SubmitGrows(s.server, u.node, s.journal[s.phase.sent]);
    case Elsewhere(other, report) => SubmitGrows(s.server, other, report);
    case _ =>
  }

  /** Every row there was is still there with its values, and history was only added to. */
  ghost predicate OnlyAddsTo(a: System, b: System) {
    Extends(a.server.rows, b.server.rows) && a.pushed <= b.pushed
  }

  lemma AddingChains(a: System, b: System, c: System)
    requires OnlyAddsTo(a, b) && OnlyAddsTo(b, c)
    ensures OnlyAddsTo(a, c)
  {
  }

  lemma OneStepOnlyAdds(u: Setup, states: seq<System>, steps: seq<Step>, i: nat, j: nat)
    requires IsRun(u, states, steps) && i < |steps| && j == i + 1
    ensures OnlyAddsTo(states[i], states[j])
  {
    RunHolds(u, states, steps, i);
    assert Next(u, states[i], steps[i]) == Some(states[j]);
    StepKeepsRows(u, states[i], steps[i]);
  }

  /** A stored row never changes, in any run. */
  lemma {:induction false} RowsNeverChange(u: Setup, states: seq<System>, steps: seq<Step>, i: nat, j: nat)
    requires IsRun(u, states, steps) && i <= j < |states|
    ensures OnlyAddsTo(states[i], states[j])
  {
    if i < j {
      var before := j - 1;
      RowsNeverChange(u, states, steps, i, before);
      OneStepOnlyAdds(u, states, steps, before, j);
      AddingChains(states[i], states[before], states[j]);
    }
  }

  // A report the server will not take.

  /** The journal's head stays where it is. */
  ghost predicate Stuck(s: System, base: nat) {
    && s.base == base && s.journal != [] && !Admissible(s.journal[0])
    && (s.phase.Resting? || s.phase.sent == 0)
  }

  lemma StepStaysStuck(u: Setup, s: System, step: Step, base: nat)
    requires Numbered(s.server) && Next(u, s, step).Some? && u.limit == 0 && Stuck(s, base)
    ensures Stuck(Next(u, s, step).value, base)
  {
    match step
    case Submit(link) => SubmitVerdict(s.server, u.node, s.journal[0]);
    case _ =>
  }

  lemma OneStepStaysStuck(u: Setup, states: seq<System>, steps: seq<Step>, i: nat, j: nat, base: nat)
    requires IsRun(u, states, steps) && i < |steps| && j == i + 1 && u.limit == 0 && Stuck(states[i], base)
    ensures Stuck(states[j], base)
  {
    RunHolds(u, states, steps, i);
    assert Next(u, states[i], steps[i]) == Some(states[j]);
    StepStaysStuck(u, states[i], steps[i], base);
  }

  /**
    * Without a byte limit, once a report the server refuses heads the journal, neither it nor
    * anything after it ever leaves, in any run.
    */
  lemma {:induction false} RefusedReportBlocksForever(u: Setup, states: seq<System>, steps: seq<Step>, i: nat, j: nat)
    requires IsRun(u, states, steps) && u.limit == 0 && i <= j < |states|
    requires states[i].journal != [] && !Admissible(states[i].journal[0])
    ensures Stuck(states[j], states[i].base)
  {
    RunHolds(u, states, steps, i);
    if i < j {
      var before := j - 1;
      RefusedReportBlocksForever(u, states, steps, i, before);
      OneStepStaysStuck(u, states, steps, before, j, states[i].base);
    }
  }

  // One whole delivery.

  /** The server after a delivery that starts at report `from`, and how many the node counts. */
  function DeliverFrom(u: Setup, server: Tables, pending: seq<MeasurementReport>, links: seq<Link>,
                       from: nat): (r: (Tables, nat))
    requires from <= |pending| <= |links|
    ensures from <= r.1 <= |pending|
    decreases |pending| - from
  {
    if from == |pending| then (server, from)
    else
      var (after, heard) := Sent(u, server, pending[from], links[from]);
      if heard then DeliverFrom(u, after, pending, links, from + 1) else (after, from)
  }

  /** With a link that answers, a delivery empties a journal of admissible reports. */
  lemma {:induction false} AdmissibleReportsAllGo(u: Setup, server: Tables, pending: seq<MeasurementReport>,
                                                  links: seq<Link>, from: nat)
    requires from <= |pending| <= |links| && Numbered(server)
    requires forall k :: from <= k < |pending| ==> Admissible(pending[k]) && links[k].Answered?
    ensures DeliverFrom(u, server, pending, links, from).1 == |pending|
    decreases |pending| - from
  {
    if from < |pending| {
      SubmitVerdict(server, u.node, pending[from]);
      SubmitGrows(server, u.node, pending[from]);
      AdmissibleReportsAllGo(u, SubmitOf(server, u.node, pending[from]).0, pending, links, from + 1);
    }
  }

  /** The steps a delivery takes while nothing interrupts it. */
  function SendOut(u: Setup, s: System, links: seq<Link>): (r: System)
    requires s.phase.Sending? && s.phase.sent <= |s.journal| <= |links|
    ensures r.journal == s.journal && !r.phase.Resting?
    decreases |s.journal| - s.phase.sent
  {
    if s.phase.sent == |s.journal| then s
    else
      var next := Next(u, s, Submit(links[s.phase.sent])).value;
      if next.phase.Sending? then SendOut(u, next, links) else next
  }

  lemma SendOneIsDeliver(u: Setup, s: System, next: System, links: seq<Link>)
    requires s.phase.Sending? && s.phase.sent < |s.journal| <= |links|
    requires Next(u, s, Submit(links[s.phase.sent])) == Some(next)
    ensures next.journal == s.journal
    ensures SendOut(u, s, links) == if next.phase.Sending? then SendOut(u, next, links) else next
    ensures next.phase.sent == if next.phase.Sending? then s.phase.sent + 1 else s.phase.sent
    ensures DeliverFrom(u, s.server, s.journal, links, s.phase.sent)
         == if next.phase.Sending? then DeliverFrom(u, next.server, s.journal, links, next.phase.sent)
           else (next.server, next.phase.sent)
  {
  }

  lemma {:induction false} SendOutIsDeliver(u: Setup, s: System, links: seq<Link>)
    requires s.phase.Sending? && s.phase.sent <= |s.journal| <= |links|
    ensures var (server, delivered) := DeliverFrom(u, s.server, s.journal, links, s.phase.sent);
      SendOut(u, s, links).server == server && SendOut(u, s, links).phase.sent == delivered
    decreases |s.journal| - s.phase.sent
  {
    if s.phase.sent < |s.journal| {
      var next := Next(u, s, Submit(links[s.phase.sent])).value;
      SendOneIsDeliver(u, s, next, links);
      if next.phase.Sending? {
        SendOutIsDeliver(u, next, links);
      }
    }
  }

  /** What the server holds after some submissions in a row. */
  ghost function Submitted(server: Tables, node: int, reports: seq<MeasurementReport>): Tables
    decreases |reports|
  {
    if reports == [] then server else Submitted(SubmitOf(server, node, reports[0]).0, node, reports[1..])
  }

  /** Where a delivery stops reaching the server: behind the first report not acknowledged, unless the link was down. */
  ghost function Reached(pending: seq<MeasurementReport>, links: seq<Link>, delivered: nat): nat
    requires delivered <= |pending| <= |links|
  {
    if delivered < |pending| && links[delivered] != Unreachable then delivered + 1 else delivered
  }

  /** One submission: heard exactly when the link answers and the report is taken, stored unless the link is down. */
  lemma SentIsExact(u: Setup, server: Tables, report: MeasurementReport, link: Link)
    requires Numbered(server)
    ensures var (after, heard) := Sent(u, server, report, link);
      && (heard <==> link == Answered && Admissible(report))
      && after == (if link == Unreachable then server else SubmitOf(server, u.node, report).0)
      && Numbered(after)
  {
    SubmitVerdict(server, u.node, report);
    SubmitGrows(server, u.node, report);
  }

  lemma SubmittedFirst(server: Tables, after: Tables, node: int, pending: seq<MeasurementReport>, from: nat, stop: nat)
    requires from < stop <= |pending| && after == SubmitOf(server, node, pending[from]).0
    ensures Submitted(server, node, pending[from..stop]) == Submitted(after, node, pending[from + 1..stop])
  {
    assert pending[from..stop][0] == pending[from];
    assert pending[from..stop][1..] == pending[from + 1..stop];
  }

  lemma NothingSubmitted(server: Tables, node: int, reports: seq<MeasurementReport>)
    requires reports == []
    ensures Submitted(server, node, reports) == server
  {
  }

  lemma DeliverSteps(u: Setup, server: Tables, pending: seq<MeasurementReport>, links: seq<Link>, from: nat,
                     after: Tables, heard: bool)
    requires from < |pending| <= |links| && (after, heard) == Sent(u, server, pending[from], links[from])
    ensures DeliverFrom(u, server, pending, links, from)
         == if heard then DeliverFrom(u, after, pending, links, from + 1) else (after, from)
  {
  }

  /** A delivery counts the reports up to the first that is refused or not answered. */
  lemma {:induction false} DeliverIsExact(u: Setup, server: Tables, pending: seq<MeasurementReport>, links: seq<Link>,
                                          from: nat, delivered: nat)
    requires from <= |pending| <= |links| && Numbered(server)
    requires delivered == DeliverFrom(u, server, pending, links, from).1
    ensures from <= delivered <= |pending|
    ensures forall k :: from <= k < delivered ==> links[k] == Answered && Admissible(pending[k])
    ensures delivered < |pending| ==> links[delivered] != Answered || !Admissible(pending[delivered])
    decreases |pending| - from
  {
    if from < |pending| {
      var (next, heard) := Sent(u, server, pending[from], links[from]);
      SentIsExact(u, server, pending[from], links[from]);
      DeliverSteps(u, server, pending, links, from, next, heard);
      if heard {
        DeliverIsExact(u, next, pending, links, from + 1, delivered);
      }
    }
  }

  /** One more report that reaches the server is taken before what follows it. */
  lemma StoresFirst(u: Setup, server: Tables, next: Tables, after: Tables, heard: bool, pending: seq<MeasurementReport>,
                    link: Link, from: nat, stop: nat)
    requires Numbered(server) && from < |pending| && (next, heard) == Sent(u, server, pending[from], link)
    requires from <= stop <= |pending| && (heard ==> from < stop)
    requires heard ==> after == Submitted(next, u.node, pending[from + 1..stop])
    requires !heard ==> after == next && stop == if link == Unreachable then from else from + 1
    ensures after == Submitted(server, u.node, pending[from..stop])
  {
    SentIsExact(u, server, pending[from], link);
    if link != Unreachable {
      SubmittedFirst(server, next, u.node, pending, from, stop);
      if !heard {
        NothingSubmitted(next, u.node, pending[from + 1..stop]);
      }
    } else {
      NothingSubmitted(server, u.node, pending[from..stop]);
    }
  }

  /** A delivery leaves the server with exactly the reports that reached it, taken in order. */
  lemma {:induction false} DeliverStoresExactly(u: Setup, server: Tables, pending: seq<MeasurementReport>,
                                                links: seq<Link>, from: nat, after: Tables, delivered: nat)
    requires from <= |pending| <= |links| && Numbered(server)
    requires (after, delivered) == DeliverFrom(u, server, pending, links, from)
    ensures from <= delivered <= |pending|
    ensures after == Submitted(server, u.node, pending[from..Reached(pending, links, delivered)])
    decreases |pending| - from
  {
    if from == |pending| {
      NothingSubmitted(server, u.node, pending[from..from]);
    } else {
      var (next, heard) := Sent(u, server, pending[from], links[from]);
      DeliverSteps(u, server, pending, links, from, next, heard);
      if heard {
        NumberedAfter(u, server, pending[from], links[from]);
        DeliverStoresExactly(u, next, pending, links, from + 1, after, delivered);
      }
      StoresFirst(u, server, next, after, heard, pending, links[from], from, Reached(pending, links, delivered));
    }
  }

  lemma NumberedAfter(u: Setup, server: Tables, report: MeasurementReport, link: Link)
    requires Numbered(server)
    ensures Numbered(Sent(u, server, report, link).0)
  {
    SentIsExact(u, server, report, link);
  }

  /** The steps lead from state to state. */
  ghost predicate Leads(u: Setup, states: seq<System>, steps: seq<Step>) {
    && |states| == |steps| + 1
    && forall i :: 0 <= i < |steps| ==> Next(u, states[i], steps[i]) == Some(states[i + 1])
  }

  lemma LeadsOn(u: Setup, s: System, step: Step, states: seq<System>, steps: seq<Step>)
    requires Leads(u, states, steps) && Next(u, s, step) == Some(states[0])
    ensures Leads(u, [s] + states, [step] + steps) && ([s] + states)[|steps| + 1] == states[|steps|]
  {
    forall i | 0 <= i < |steps| + 1
      ensures Next(u, ([s] + states)[i], ([step] + steps)[i]) == Some(([s] + states)[i + 1])
    {
      assert i > 0 ==> ([s] + states)[i] == states[i - 1] && ([step] + steps)[i] == steps[i - 1];
      assert ([s] + states)[i + 1] == states[i];
    }
  }

  /** Only the server and the phase change while reports are sent, and the sending is over. */
  ghost predicate IsSentOut(s: System, last: System, server: Tables, delivered: nat) {
    && !last.phase.Resting? && last.phase.sent == delivered <= |s.journal|
    && (last.phase.Sending? ==> delivered == |s.journal|)
    && last == s.(server := server, phase := last.phase)
  }

  lemma SentOutFurther(s: System, next: System, last: System, server: Tables, delivered: nat)
    requires next == s.(server := next.server, phase := next.phase) && IsSentOut(next, last, server, delivered)
    ensures IsSentOut(s, last, server, delivered)
  {
  }

  lemma OneSent(u: Setup, s: System, next: System, link: Link, after: Tables, heard: bool)
    requires s.phase.Sending? && s.phase.sent < |s.journal|
    requires Next(u, s, Submit(link)) == Some(next)
    requires (after, heard) == Sent(u, s.server, s.journal[s.phase.sent], link)
    ensures next == s.(server := after, phase := if heard then Sending(s.phase.sent + 1) else Ending(s.phase.sent))
  {
  }

  lemma {:induction false} SendingRun(u: Setup, s: System, links: seq<Link>, server: Tables, delivered: nat)
    returns (states: seq<System>, steps: seq<Step>)
    requires s.phase.Sending? && s.phase.sent <= |s.journal| <= |links|
    requires (server, delivered) == DeliverFrom(u, s.server, s.journal, links, s.phase.sent)
    ensures Leads(u, states, steps) && states[0] == s && IsSentOut(s, states[|steps|], server, delivered)
    decreases |s.journal| - s.phase.sent
  {
    if s.phase.sent == |s.journal| {
      states, steps := [s], [];
    } else {
      var link := links[s.phase.sent];
      var next := Next(u, s, Submit(link)).value;
      var (after, heard) := Sent(u, s.server, s.journal[s.phase.sent], link);
      OneSent(u, s, next, link, after, heard);
      DeliverSteps(u, s.server, s.journal, links, s.phase.sent, after, heard);
      if heard {
        states, steps := SendingRun(u, next, links, server, delivered);
        SentOutFurther(s, next, states[|steps|], server, delivered);
      } else {
        states, steps := [next], [];
      }
      LeadsOn(u, s, Submit(link), states, steps);
      states, steps := [s] + states, [Submit(link)] + steps;
    }
  }

  lemma LeadsFurther(u: Setup, states: seq<System>, steps: seq<Step>, step: Step, last: System)
    requires Leads(u, states, steps) && Next(u, states[|steps|], step) == Some(last)
    ensures Leads(u, states + [last], steps + [step])
  {
    forall i | 0 <= i < |steps| + 1
      ensures Next(u, (states + [last])[i], (steps + [step])[i]) == Some((states + [last])[i + 1])
    {
    }
  }

  /**
    * A resting node with a journal can run a delivery through. It leaves the server with what reached
    * it and the journal without what was acknowledged, and changes nothing else.
    */
  lemma QuietDelivery(u: Setup, s: System, links: seq<Link>, server: Tables, delivered: nat)
    returns (states: seq<System>, steps: seq<Step>)
    requires s.phase.Resting? && 0 < |s.journal| <= |links|
    requires (server, delivered) == DeliverFrom(u, s.server, s.journal, links, 0)
    ensures Leads(u, states, steps) && states[0] == s
    ensures states[|steps|] == s.(server := server, journal := s.journal[delivered..], base := s.base + delivered)
  {
    var begun := s.(phase := Sending(0));
    states, steps := SendingRun(u, begun, links, server, delivered);
    var sent := states[|steps|];
    var last := Next(u, sent, FinishDelivery(true)).value;
    LeadsFurther(u, states, steps, FinishDelivery(true), last);
    states, steps := states + [last], steps + [FinishDelivery(true)];
    LeadsOn(u, s, BeginDelivery, states, steps);
    states, steps := [s] + states, [BeginDelivery] + steps;
  }

  /** A resting node can close a window at any time, and restart at any time; what it did not write is lost. */
  lemma ClosingAndRestarting(u: Setup, s: System, at: int, channels: Channels, order: seq<nat>)
    requires forall f :: f in order ==> f in channels
    ensures Next(u, s, Restart(at)) == Some(s.(clock := at, phase := Resting))
    ensures s.phase.Resting? ==> Next(u, s, Close(at, channels, order, true)).Some?
    ensures s.phase.Resting? ==> Next(u, s, Close(at, channels, order, false)) == Some(s.(clock := at))
    ensures s.phase.Resting? && ReportOf(s.clock, at, channels, order).None? ==>
      Next(u, s, Close(at, channels, order, true)) == Some(s.(clock := at))
  {
  }

  /** A delivery whose journal could not be rewritten keeps every report. */
  lemma UntrimmedKeepsAll(u: Setup, s: System)
    requires Next(u, s, FinishDelivery(false)).Some?
    ensures Next(u, s, FinishDelivery(false)).value == s.(phase := Resting)
  {
  }

  /** The node's delivery loop over a real buffer and server, on a link that behaves as `links` says. */
  method Deliver(u: Setup, buffer: ReportBuffer<MeasurementReport>, server: MeasurementServer, links: seq<Link>)
    requires |DecodeAll(buffer.codec, buffer.journal)| <= |links|
    modifies buffer, server
    ensures var pending := DecodeAll(buffer.codec, old(buffer.journal));
      var (after, delivered) := DeliverFrom(u, old(server.Contents()), pending, links, 0);
      && server.Contents() == after
      && (if delivered == 0 then buffer.journal == old(buffer.journal) && buffer.held == old(buffer.held)
          else buffer.held == pending[delivered..] && buffer.journal == FrameAll(buffer.codec, buffer.held))
    ensures old(buffer.Valid()) ==> buffer.Valid()
  {
    var pending := buffer.Pending();
    ghost var target := DeliverFrom(u, server.Contents(), pending, links, 0);
    if pending == [] {
      return;
    }
    var delivered := SendAll(u, server, pending, links);
    if delivered == 0 {
      return;
    }
    buffer.Replace(pending[delivered..]);
  }

  /** Submit the reports in order until one is not acknowledged. */
  method SendAll(u: Setup, server: MeasurementServer, pending: seq<MeasurementReport>,
                 links: seq<Link>) returns (delivered: nat)
    requires |pending| <= |links|
    modifies server
    ensures (server.Contents(), delivered) == DeliverFrom(u, old(server.Contents()), pending, links, 0)
  {
    ghost var target := DeliverFrom(u, server.Contents(), pending, links, 0);
    delivered := 0;
    var refused := false;
    while delivered < |pending| && !refused
      invariant delivered <= |pending|
      invariant if refused then target == (server.Contents(), delivered)
                else target == DeliverFrom(u, server.Contents(), pending, links, delivered)
      decreases |pending| - delivered, !refused
    {
      var stored := false;
      if !links[delivered].Unreachable? {
        stored := server.Submit(u.node, pending[delivered]);
      }
      if stored && links[delivered].Answered? {
        delivered := delivered + 1;
      } else {
        refused := true;
      }
    }
  }

  /** Close the window: what was measured goes to the journal, and the next window opens. */
  method CloseWindow(aggregator: Aggregator, buffer: ReportBuffer<MeasurementReport>, now: int)
    returns (ghost order: seq<nat>)
    modifies aggregator, buffer
    ensures Lists(order, old(aggregator.channels).Keys)
    ensures aggregator.windowStart == now && aggregator.channels == map[]
    ensures var report := ReportOf(old(aggregator.windowStart), now, old(aggregator.channels), order);
      && (report.None? ==> buffer.journal == old(buffer.journal) && buffer.held == old(buffer.held))
      && (report.Some? && old(buffer.Valid()) && ReadsBack(buffer.codec, report.value) ==>
        buffer.Valid() && buffer.held == AfterPush(buffer.codec, old(buffer.held), report.value, buffer.limit))
  {
    var report, listed := aggregator.Finish(now);
    order := listed;
    if report.None? {
      return;
    }
    buffer.Push(report.value);
  }

  // Exactly which windows the server takes.

  /** The instants are ones the server's calendar has. */
  predicate InCalendar(at: int) {
    -8_334_601_228_800 <= at / NANOS <= 8_210_266_876_799
  }

  lemma StampIsRepresentable(at: int)
    requires InCalendar(at)
    ensures Representable(Stamp(at))
  {
  }

  lemma {:induction false} ReadingsFit(metrics: Metrics, order: seq<Metric>)
    requires forall metric :: metric in metrics ==> |metrics[metric]| <= I64_MAX
    ensures forall reading :: reading in ReadingsOf(metrics, order) ==>
      reading.stats.Some? && reading.stats.value.sampleCount <= I64_MAX
  {
    if order != [] {
      ReadingsFit(metrics, order[..|order| - 1]);
    }
  }

  lemma {:induction false} MeasuredFits(channels: Channels, frequencies: seq<nat>)
    requires forall f :: f in frequencies ==> f in channels
    requires forall f :: f in channels ==> forall metric :: metric in channels[f].metrics ==>
      |channels[f].metrics[metric]| <= I64_MAX
    ensures forall channel :: channel in ChannelsOf(channels, frequencies) ==>
      forall reading :: reading in channel.readings ==>
        reading.stats.Some? && reading.stats.value.sampleCount <= I64_MAX
  {
    if frequencies != [] {
      MeasuredFits(channels, frequencies[..|frequencies| - 1]);
      ReadingsFit(channels[frequencies[|frequencies| - 1]].metrics, METRICS);
    }
  }

  /**
    * A report built from samples of assignable channels is admissible exactly when its window
    * spans at most a day in whole seconds and does not vanish when both ends are rounded.
    */
  lemma EmittedReportIsAdmissible(calls: seq<Call>, start: int, end: int, order: seq<nat>)
    requires forall call :: call in calls ==> Assignable(call.channel)
    requires Lists(order, RecordedAll(calls).channels.Keys)
    requires InCalendar(start) && InCalendar(end)
    requires forall f, metric :: |HeldBy(RecordedAll(calls).channels, f, metric)| <= I64_MAX
    ensures var report := ReportOf(start, end, RecordedAll(calls).channels, order);
      report.Some? ==>
        (Admissible(report.value)
         <==> end / 1_000_000_000 - start / 1_000_000_000 <= 86_400
              && InStore(Stamp(start)) && StoredSecond(Stamp(start)) < StoredSecond(Stamp(end)))
  {
    var channels := RecordedAll(calls).channels;
    var report := ReportOf(start, end, channels, order);
    if report.Some? {
      EmittedReportIsAccepted(calls, start, end, order);
      EmittedReportIsStorable(calls, start, end, order);
      MeasurementsVerdict(report.value);
      if GoodReport(report.value) {
        GoodReportPrepares(report.value);
        PreparedCarriesTheReport(report.value);
      }
    }
  }

  lemma EmittedReportIsStorable(calls: seq<Call>, start: int, end: int, order: seq<nat>)
    requires forall call :: call in calls ==> Assignable(call.channel)
    requires Lists(order, RecordedAll(calls).channels.Keys)
    requires InCalendar(start) && InCalendar(end)
    requires forall f, metric :: |HeldBy(RecordedAll(calls).channels, f, metric)| <= I64_MAX
    ensures var report := ReportOf(start, end, RecordedAll(calls).channels, order);
      report.Some? ==> Storable(report.value)
  {
    var channels := RecordedAll(calls).channels;
    forall f, metric | f in channels && metric in channels[f].metrics
      ensures |channels[f].metrics[metric]| <= I64_MAX
    {
      assert HeldBy(channels, f, metric) == channels[f].metrics[metric];
    }
    GatheredIsGood(calls);
    MeasuredIsGood(channels, order);
    MeasuredFits(channels, order);
    StampIsRepresentable(start);
    StampIsRepresentable(end);
  }

  /** From 2000 on, a window of one second to one day always survives the store's rounding. */
  lemma OrdinaryWindowIsKept(start: int, end: int)
    requires start >= 946_684_800_000_000_000 && start + 1_000_000_000 <= end <= start + 86_400_000_000_000
    ensures end / 1_000_000_000 - start / 1_000_000_000 <= 86_400
    ensures InStore(Stamp(start)) && StoredSecond(Stamp(start)) < StoredSecond(Stamp(end))
  {
    StampKeepsNanos(start);
    StampKeepsNanos(end);
    WholeSecondSurvives(Stamp(start), Stamp(end));
  }

  lemma OneSampleGathers(calls: seq<Call>, sample: MetricSample)
    requires calls == [Call(ChannelIdentity(100_000_000, Some(Fm), "x"), [sample])]
    requires sample == MetricSample(100_000_000, Some(SignalToNoise), Some(30.0))
    ensures RecordedAll(calls).channels.Keys == {100_000_000}
    ensures ValuesSince(calls, 100_000_000, SignalToNoise) == [30.0]
  {
    assert calls[..0] == [] && [sample][..0] == [];
    assert RecordedAll(calls[..0]) == Gathered(map[], 0);
    assert ValuesSince(calls[..0], 100_000_000, SignalToNoise) == [];
    assert ValuesIn(100_000_000, SignalToNoise, [sample]) == [30.0];
  }

  /** Part of a second of good samples makes a report that passes validation and that the store refuses. */
  lemma ShortWindowIsRefused() returns (calls: seq<Call>, report: MeasurementReport)
    ensures RecordedAll(calls).channels.Keys == {100_000_000}
    ensures var start := (STORE_EPOCH + 1) * NANOS;
      ReportOf(start, start + 400_000_000, RecordedAll(calls).channels, [100_000_000]) == Some(report)
    ensures Measurements(report).Ok? && !Admissible(report)
  {
    var sample := MetricSample(100_000_000, Some(SignalToNoise), Some(30.0));
    calls := [Call(ChannelIdentity(100_000_000, Some(Fm), "x"), [sample])];
    OneSampleGathers(calls, sample);
    var start := (STORE_EPOCH + 1) * NANOS;
    AcceptableSampleMakesAReport(calls, start, start + 400_000_000, [100_000_000], 100_000_000, SignalToNoise);
    report := ReportOf(start, start + 400_000_000, RecordedAll(calls).channels, [100_000_000]).value;
    assert Assignable(calls[0].channel);
    EmittedReportIsAccepted(calls, start, start + 400_000_000, [100_000_000]);
    if Prepare(report).Ok? {
      PreparedCarriesTheReport(report);
    }
  }
}
