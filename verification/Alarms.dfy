/**
  * Alarms, their history and the work orders on them: one detector that raises from a snapshot,
  * and users who move, dispatch and complete in between.
  */
module Alarms {
  import opened Wrappers
  import opened Integers
  import opened Fleet
  import opened Baselines

  datatype AlarmState = Open | Acknowledged | UnderVerification | Closed

  /** What an alarm is about: one series, or a whole node that has gone quiet. */
  datatype Subject = OfSeries(series: Series) | OfNode(node: int)

  datatype Explanation =
    | BaselineDeviation(hour: int, verdict: Verdict, baseline: Baseline)
    | NodeSilence(lastSeenAt: int, detectedAt: int)

  datatype Alarm = Alarm(
    subject: Subject,
    state: AlarmState,
    explanation: Explanation,
    movedAt: Option<int>,
    closedAt: Option<int>)

  datatype Event = Event(alarm: int, from: Option<AlarmState>, into: AlarmState, user: Option<int>, reason: string)

  /** What a technician found on site. */
  datatype FieldReport = FieldReport(faultPresent: bool, cause: Option<string>, actionTaken: Option<string>)

  datatype WorkOrder = WorkOrder(
    alarm: int,
    technician: int,
    station: string,
    completed: bool,
    filed: Option<FieldReport>)

  /** Who acts, and when. */
  datatype Act = Act(user: int, at: int)

  datatype Book = Book(
    alarms: map<int, Alarm>,
    events: seq<Event>,
    orders: map<int, WorkOrder>,
    nextAlarm: int,
    nextOrder: int)

  datatype Refusal =
    | NotFound
    | Illegal
    | AlarmClosed
    | AlreadyCompleted
    | NoReason
    | NoStation
    | StationTooLong

  const MAX_STATION_CHARS := 200

  // The words that go with a move.

  /** The characters that a trim takes off. */
  predicate IsSpace(c: char) {
    var code := c as int;
    || 0x09 <= code <= 0x0D || code == 0x20 || code == 0x85 || code == 0xA0 || code == 0x1680
    || 0x2000 <= code <= 0x200A || code == 0x2028 || code == 0x2029
    || code == 0x202F || code == 0x205F || code == 0x3000
  }

  function TrimStart(text: string): (r: string)
    ensures r == [] || !IsSpace(r[0])
  {
    if text == [] || !IsSpace(text[0]) then text else TrimStart(text[1..])
  }

  function TrimEnd(text: string): (r: string)
    ensures r <= text && (r == [] || !IsSpace(r[|r| - 1]))
  {
    if text == [] || !IsSpace(text[|text| - 1]) then text else TrimEnd(text[..|text| - 1])
  }

  function Trimmed(text: string): string {
    TrimEnd(TrimStart(text))
  }

  predicate Blank(text: string) {
    Trimmed(text) == []
  }

  /** The white space of Unicode: 25 characters. */
  lemma SpacesOfUnicode(c: char)
    ensures IsSpace(c) <==> c as int in [
        9, 10, 11, 12, 13, 32, 133, 160, 5760, 8192, 8193, 8194, 8195, 8196, 8197, 8198, 8199, 8200, 8201, 8202,
        8232, 8233, 8239, 8287, 12288]
  {
  }

  const RAISED := "raised by the detector"

  function NumberText(n: int): string {
    if n < 0 then "-" + Decimal(-n) else Decimal(n)
  }

  function DispatchText(technician: int, station: string): string {
    "dispatched to technician " + NumberText(technician) + " at " + station
  }

  /** A dispatch is written down with the technician's number, in digits, and the station. */
  lemma DispatchReadsBack(technician: int, station: string) returns (digits: string)
    ensures AllDigits(digits) && Value(digits) == if technician < 0 then -technician else technician
    ensures DispatchText(technician, station)
         == "dispatched to technician " + (if technician < 0 then "-" else "") + digits + " at " + station
  {
    digits := Decimal(if technician < 0 then -technician else technician);
    DecimalReadsBack(if technician < 0 then -technician else technician);
  }

  function Describe(report: FieldReport): string {
    (if report.faultPresent then "fault confirmed on site" else "no fault found on site")
    + (if report.cause.Some? then ": " + report.cause.value else "")
    + (if report.actionTaken.Some? then "; " + report.actionTaken.value else "")
  }

  lemma DescribeJoins(report: FieldReport, told: string, why: string, done: string)
    requires told == if report.faultPresent then "fault confirmed on site" else "no fault found on site"
    requires why == if report.cause.Some? then ": " + report.cause.value else ""
    requires done == if report.actionTaken.Some? then "; " + report.actionTaken.value else ""
    ensures Describe(report) == told + (why + done)
  {
    assert told + why + done == told + (why + done);
  }

  lemma NothingJoined(text: string)
    ensures text + "" == text && "" + text == text
  {
  }

  /** Whether a fault was found is told first, and a cause or an action only if there was one. */
  lemma DescribeSays(fault: bool, cause: string, action: string, told: string)
    requires told == if fault then "fault confirmed on site" else "no fault found on site"
    ensures Describe(FieldReport(fault, None, None)) == told
    ensures Describe(FieldReport(fault, Some(cause), None)) == told + (": " + cause)
    ensures Describe(FieldReport(fault, None, Some(action))) == told + ("; " + action)
    ensures Describe(FieldReport(fault, Some(cause), Some(action))) == told + ((": " + cause) + ("; " + action))
  {
    NothingJoined("");
    NothingJoined(told);
    NothingJoined(": " + cause);
    NothingJoined("; " + action);
    DescribeJoins(FieldReport(fault, None, None), told, "", "");
    DescribeJoins(FieldReport(fault, Some(cause), None), told, ": " + cause, "");
    DescribeJoins(FieldReport(fault, None, Some(action)), told, "", "; " + action);
    DescribeJoins(FieldReport(fault, Some(cause), Some(action)), told, ": " + cause, "; " + action);
  }

  const EMPTY_BOOK := Book(map[], [], map[], 1, 1)

  predicate MayTransition(from: AlarmState, into: AlarmState) {
    || (from.Open? && into.Acknowledged?)
    || (from.Acknowledged? && into.UnderVerification?)
    || (!from.Closed? && into.Closed?)
  }

  /** Users may make every forward move but one: only a dispatch takes an open alarm to verification. */
  lemma TransitionsGoForward(from: AlarmState, into: AlarmState)
    ensures MayTransition(from, into) <==> Rank(from) < Rank(into) && !(from.Open? && into.UnderVerification?)
  {
  }

  function NextStates(from: AlarmState): (r: seq<AlarmState>)
    ensures forall into :: into in r <==> MayTransition(from, into)
  {
    (if MayTransition(from, Open) then [Open] else [])
    + (if MayTransition(from, Acknowledged) then [Acknowledged] else [])
    + (if MayTransition(from, UnderVerification) then [UnderVerification] else [])
    + (if MayTransition(from, Closed) then [Closed] else [])
  }

  // The four transactions.

  function RaiseOf(book: Book, subject: Subject, explanation: Explanation): Book {
    book.(alarms := book.alarms[book.nextAlarm := Alarm(subject, Open, explanation, None, None)],
          events := book.events + [Event(book.nextAlarm, None, Open, None, RAISED)],
          nextAlarm := book.nextAlarm + 1)
  }

  /** The alarm moves and the move is written down. */
  function Moved(book: Book, id: int, into: AlarmState, closedAt: Option<int>, act: Act, reason: string): Book
    requires id in book.alarms
  {
    var alarm := book.alarms[id];
    book.(alarms := book.alarms[id := alarm.(state := into, movedAt := Some(act.at), closedAt := closedAt)],
          events := book.events + [Event(id, Some(alarm.state), into, Some(act.user), reason)])
  }

  function TransitionOf(book: Book, id: int, into: AlarmState, reason: string, act: Act): Result<Book, Refusal> {
    if Blank(reason) then Err(NoReason)
    else if id !in book.alarms then Err(NotFound)
    else if !MayTransition(book.alarms[id].state, into) then Err(Illegal)
    else Ok(Moved(book, id, into, if into.Closed? then Some(act.at) else None, act, reason))
  }

  function Ordered(book: Book, id: int, technician: int, station: string): Book {
    book.(orders := book.orders[book.nextOrder := WorkOrder(id, technician, station, false, None)],
          nextOrder := book.nextOrder + 1)
  }

  function DispatchOf(book: Book, id: int, technician: int, station: string, act: Act): Result<Book, Refusal> {
    var name := Trimmed(station);
    if name == [] then Err(NoStation)
    else if |name| > MAX_STATION_CHARS then Err(StationTooLong)
    else if id !in book.alarms then Err(NotFound)
    else if book.alarms[id].state.Closed? then Err(AlarmClosed)
    else
      var ordered := Ordered(book, id, technician, name);
      if book.alarms[id].state.UnderVerification? then Ok(ordered)
      else Ok(Moved(ordered, id, UnderVerification, book.alarms[id].closedAt, act, DispatchText(technician, name)))
  }

  function Filed(book: Book, order: int, report: FieldReport): Book
    requires order in book.orders
  {
    book.(orders := book.orders[order := book.orders[order].(completed := true, filed := Some(report))])
  }

  function CompleteOf(book: Book, order: int, report: FieldReport, act: Act): Result<Book, Refusal> {
    if order !in book.orders then Err(NotFound)
    else if book.orders[order].completed then Err(AlreadyCompleted)
    else if book.orders[order].alarm !in book.alarms then Err(NotFound)
    else
      var id := book.orders[order].alarm;
      var done := Filed(book, order, report);
      if book.alarms[id].state.Closed? then Ok(done)
      else Ok(Moved(done, id, Closed, Some(act.at), act, Describe(report)))
  }

  /** The tables, and the transactions as they run. */
  class AlarmDesk {
    var alarms: map<int, Alarm>
    var events: seq<Event>
    var orders: map<int, WorkOrder>
    var nextAlarm: int
    var nextOrder: int

    function Contents(): Book
      reads this
    {
      Book(alarms, events, orders, nextAlarm, nextOrder)
    }

    constructor ()
      ensures Contents() == EMPTY_BOOK
    {
      alarms, events, orders, nextAlarm, nextOrder := map[], [], map[], 1, 1;
    }

    method Raise(subject: Subject, explanation: Explanation) returns (id: int)
      modifies this
      ensures Contents() == RaiseOf(old(Contents()), subject, explanation) && id == old(nextAlarm)
    {
      id := nextAlarm;
      nextAlarm := nextAlarm + 1;
      alarms := alarms[id := Alarm(subject, Open, explanation, None, None)];
      events := events + [Event(id, None, Open, None, RAISED)];
    }

    method Transition(id: int, into: AlarmState, reason: string, act: Act) returns (refused: Option<Refusal>)
      modifies this
      ensures match TransitionOf(old(Contents()), id, into, reason, act)
              case Ok(book) => refused.None? && Contents() == book
              case Err(why) => refused == Some(why) && Contents() == old(Contents())
    {
      if Blank(reason) {
        return Some(NoReason);
      }
      if id !in alarms {
        return Some(NotFound);
      }
      var from := alarms[id].state;
      if !MayTransition(from, into) {
        return Some(Illegal);
      }
      var closedAt := if into.Closed? then Some(act.at) else None;
      alarms := alarms[id := alarms[id].(state := into, movedAt := Some(act.at), closedAt := closedAt)];
      events := events + [Event(id, Some(from), into, Some(act.user), reason)];
      refused := None;
    }

    method Dispatch(id: int, technician: int, station: string, act: Act) returns (refused: Option<Refusal>)
      modifies this
      ensures match DispatchOf(old(Contents()), id, technician, station, act)
              case Ok(book) => refused.None? && Contents() == book
              case Err(why) => refused == Some(why) && Contents() == old(Contents())
    {
      var name := Trimmed(station);
      if name == [] {
        return Some(NoStation);
      }
      if |name| > MAX_STATION_CHARS {
        return Some(StationTooLong);
      }
      if id !in alarms {
        return Some(NotFound);
      }
      var from := alarms[id].state;
      if from.Closed? {
        return Some(AlarmClosed);
      }
      orders := orders[nextOrder := WorkOrder(id, technician, name, false, None)];
      nextOrder := nextOrder + 1;
      if !from.UnderVerification? {
        alarms := alarms[id := alarms[id].(state := UnderVerification, movedAt := Some(act.at))];
        events := events + [Event(id, Some(from), UnderVerification, Some(act.user), DispatchText(technician, name))];
      }
      refused := None;
    }

    method Complete(order: int, report: FieldReport, act: Act) returns (refused: Option<Refusal>)
      modifies this
      ensures match CompleteOf(old(Contents()), order, report, act)
              case Ok(book) => refused.None? && Contents() == book
              case Err(why) => refused == Some(why) && Contents() == old(Contents())
    {
      if order !in orders {
        return Some(NotFound);
      }
      if orders[order].completed {
        return Some(AlreadyCompleted);
      }
      var id := orders[order].alarm;
      if id !in alarms {
        return Some(NotFound);
      }
      orders := orders[order := orders[order].(completed := true, filed := Some(report))];
      var from := alarms[id].state;
      if !from.Closed? {
        alarms := alarms[id := alarms[id].(state := Closed, movedAt := Some(act.at), closedAt := Some(act.at))];
        events := events + [Event(id, Some(from), Closed, Some(act.user), Describe(report))];
      }
      refused := None;
    }
  }

  // The invariant of the tables.

  /** How far along its life an alarm is. */
  function Rank(state: AlarmState): nat {
    match state
    case Open => 0
    case Acknowledged => 1
    case UnderVerification => 2
    case Closed => 3
  }

  function HistoryOf(events: seq<Event>, id: int): seq<Event> {
    if events == [] then []
    else
      var front := HistoryOf(events[..|events| - 1], id);
      if events[|events| - 1].alarm == id then front + [events[|events| - 1]] else front
  }

  /** From nothing to open, and from each state on to a later one, up to where the alarm is. */
  ghost predicate Unbroken(history: seq<Event>, state: AlarmState) {
    && history != []
    && history[0].from.None? && history[0].into.Open?
    && history[|history| - 1].into == state
    && forall i :: 0 < i < |history| ==>
      history[i].from == Some(history[i - 1].into) && Rank(history[i - 1].into) < Rank(history[i].into)
  }

  ghost predicate AlarmHolds(book: Book, id: int)
    requires id in book.alarms
  {
    && id < book.nextAlarm
    && Unbroken(HistoryOf(book.events, id), book.alarms[id].state)
    && (book.alarms[id].closedAt.Some? <==> book.alarms[id].state.Closed?)
  }

  ghost predicate OrderHolds(book: Book, order: int)
    requires order in book.orders
  {
    && order < book.nextOrder
    && book.orders[order].alarm in book.alarms
    && Rank(book.alarms[book.orders[order].alarm].state) >= 2
    && (book.orders[order].completed ==> book.alarms[book.orders[order].alarm].state.Closed?)
  }

  ghost predicate BookHolds(book: Book) {
    && (forall id :: id in book.alarms ==> AlarmHolds(book, id))
    && (forall order :: order in book.orders ==> OrderHolds(book, order))
    && (forall i :: 0 <= i < |book.events| ==> book.events[i].alarm < book.nextAlarm)
  }

  predicate Standing(book: Book, id: int) {
    id in book.alarms && !book.alarms[id].state.Closed?
  }

  ghost predicate IsStanding(book: Book, subject: Subject) {
    exists id :: Standing(book, id) && book.alarms[id].subject == subject
  }

  /** No subject has two alarms that are not closed. */
  ghost predicate OneEach(book: Book) {
    forall a, b :: Standing(book, a) && Standing(book, b) && book.alarms[a].subject == book.alarms[b].subject ==> a == b
  }

  lemma HistoryGrows(events: seq<Event>, event: Event, id: int)
    ensures HistoryOf(events + [event], id) == if event.alarm == id then HistoryOf(events, id) + [event]
      else HistoryOf(events, id)
  {
    assert (events + [event])[..|events|] == events;
  }

  lemma {:induction false} NoHistoryYet(events: seq<Event>, id: int)
    requires forall i :: 0 <= i < |events| ==> events[i].alarm != id
    ensures HistoryOf(events, id) == []
  {
    if events != [] {
      NoHistoryYet(events[..|events| - 1], id);
    }
  }

  lemma {:induction false} RanksClimb(history: seq<Event>, state: AlarmState, i: nat)
    requires Unbroken(history, state) && i < |history|
    ensures Rank(history[i].into) >= i
  {
    if i > 0 {
      RanksClimb(history, state, i - 1);
    }
  }

  /** No alarm ever has more than four events. */
  lemma HistoryIsShort(history: seq<Event>, state: AlarmState)
    requires Unbroken(history, state)
    ensures |history| <= 4
  {
    RanksClimb(history, state, |history| - 1);
  }

  // What each transaction keeps.

  lemma RaiseKeepsBook(book: Book, subject: Subject, explanation: Explanation)
    requires BookHolds(book)
    ensures BookHolds(RaiseOf(book, subject, explanation))
  {
    var after := RaiseOf(book, subject, explanation);
    var event := Event(book.nextAlarm, None, Open, None, RAISED);
    forall id | id in after.alarms ensures AlarmHolds(after, id) {
      HistoryGrows(book.events, event, id);
      if id == book.nextAlarm {
        NoHistoryYet(book.events, id);
      } else {
        assert AlarmHolds(book, id);
      }
    }
    forall order | order in after.orders ensures OrderHolds(after, order) {
      assert OrderHolds(book, order);
      assert AlarmHolds(book, book.orders[order].alarm);
    }
  }

  /** A move forward, with `closedAt` set exactly on closing. */
  ghost predicate ForwardMove(book: Book, id: int, into: AlarmState, closedAt: Option<int>) {
    && id in book.alarms
    && Rank(book.alarms[id].state) < Rank(into)
    && (closedAt.Some? <==> into.Closed?)
  }

  lemma MoveKeepsAlarms(book: Book, id: int, into: AlarmState, closedAt: Option<int>, act: Act, reason: string,
                        other: int)
    requires (forall id :: id in book.alarms ==> AlarmHolds(book, id)) && ForwardMove(book, id, into, closedAt)
    requires other in book.alarms
    ensures AlarmHolds(Moved(book, id, into, closedAt, act, reason), other)
  {
    HistoryGrows(book.events, Event(id, Some(book.alarms[id].state), into, Some(act.user), reason), other);
    assert AlarmHolds(book, other);
  }

  lemma MoveKeepsBook(book: Book, id: int, into: AlarmState, closedAt: Option<int>, act: Act, reason: string)
    requires BookHolds(book) && ForwardMove(book, id, into, closedAt)
    ensures BookHolds(Moved(book, id, into, closedAt, act, reason))
  {
    var after := Moved(book, id, into, closedAt, act, reason);
    forall other | other in after.alarms ensures AlarmHolds(after, other) {
      MoveKeepsAlarms(book, id, into, closedAt, act, reason, other);
    }
    forall order | order in after.orders ensures OrderHolds(after, order) {
      assert OrderHolds(book, order);
    }
    assert AlarmHolds(book, id);
  }

  lemma TransitionKeepsBook(book: Book, id: int, into: AlarmState, reason: string, act: Act)
    requires BookHolds(book) && TransitionOf(book, id, into, reason, act).Ok?
    ensures BookHolds(TransitionOf(book, id, into, reason, act).value)
  {
    MoveKeepsBook(book, id, into, if into.Closed? then Some(act.at) else None, act, reason);
  }

  lemma OrderAddedHolds(book: Book, id: int, technician: int, station: string)
    requires BookHolds(book) && id in book.alarms && Rank(book.alarms[id].state) >= 2
    ensures BookHolds(Ordered(book, id, technician, station))
  {
    var after := Ordered(book, id, technician, station);
    forall other | other in after.alarms ensures AlarmHolds(after, other) {
      assert AlarmHolds(book, other);
    }
    forall order | order in after.orders ensures OrderHolds(after, order) {
      if order != book.nextOrder {
        assert OrderHolds(book, order);
      }
    }
  }

  lemma DispatchKeepsBook(book: Book, id: int, technician: int, station: string, act: Act)
    requires BookHolds(book) && DispatchOf(book, id, technician, station, act).Ok?
    ensures BookHolds(DispatchOf(book, id, technician, station, act).value)
  {
    assert AlarmHolds(book, id);
    var name := Trimmed(station);
    if book.alarms[id].state.UnderVerification? {
      OrderAddedHolds(book, id, technician, name);
    } else {
      var closedAt, reason := book.alarms[id].closedAt, DispatchText(technician, name);
      MoveKeepsBook(book, id, UnderVerification, closedAt, act, reason);
      OrderAddedHolds(Moved(book, id, UnderVerification, closedAt, act, reason), id, technician, name);
    }
  }

  lemma OrderCompletedHolds(book: Book, order: int, report: FieldReport)
    requires BookHolds(book) && order in book.orders
    requires book.orders[order].alarm in book.alarms && book.alarms[book.orders[order].alarm].state.Closed?
    ensures BookHolds(Filed(book, order, report))
  {
    var after := Filed(book, order, report);
    forall other | other in after.alarms ensures AlarmHolds(after, other) {
      assert AlarmHolds(book, other);
    }
    forall one | one in after.orders ensures OrderHolds(after, one) {
      assert OrderHolds(book, one);
    }
  }

  lemma CompleteKeepsBook(book: Book, order: int, report: FieldReport, act: Act)
    requires BookHolds(book) && CompleteOf(book, order, report, act).Ok?
    ensures BookHolds(CompleteOf(book, order, report, act).value)
  {
    var id := book.orders[order].alarm;
    if book.alarms[id].state.Closed? {
      OrderCompletedHolds(book, order, report);
    } else {
      MoveKeepsBook(book, id, Closed, Some(act.at), act, Describe(report));
      OrderCompletedHolds(Moved(book, id, Closed, Some(act.at), act, Describe(report)), order, report);
    }
  }

  /** Users never raise, never reopen and never touch what is closed. */
  ghost predicate OnlyMovesForward(before: Book, after: Book) {
    && before.alarms.Keys == after.alarms.Keys
    && (forall id :: id in before.alarms ==>
      && after.alarms[id].subject == before.alarms[id].subject
      && Rank(before.alarms[id].state) <= Rank(after.alarms[id].state)
      && (before.alarms[id].state.Closed? ==> after.alarms[id] == before.alarms[id]))
  }

  lemma TransitionMovesForward(book: Book, id: int, into: AlarmState, reason: string, act: Act)
    requires TransitionOf(book, id, into, reason, act).Ok?
    ensures OnlyMovesForward(book, TransitionOf(book, id, into, reason, act).value)
  {
  }

  lemma DispatchMovesForward(book: Book, id: int, technician: int, station: string, act: Act)
    requires DispatchOf(book, id, technician, station, act).Ok?
    ensures OnlyMovesForward(book, DispatchOf(book, id, technician, station, act).value)
  {
  }

  lemma CompleteMovesForward(book: Book, order: int, report: FieldReport, act: Act)
    requires CompleteOf(book, order, report, act).Ok?
    ensures OnlyMovesForward(book, CompleteOf(book, order, report, act).value)
  {
  }

  lemma ForwardKeepsOneEach(before: Book, after: Book)
    requires OneEach(before) && OnlyMovesForward(before, after)
    ensures OneEach(after)
    ensures forall subject :: IsStanding(after, subject) ==> IsStanding(before, subject)
  {
    forall id | Standing(after, id) ensures Standing(before, id) {
    }
    forall subject | IsStanding(after, subject) ensures IsStanding(before, subject) {
      var id :| Standing(after, id) && after.alarms[id].subject == subject;
      assert Standing(before, id);
    }
  }

  lemma RaiseKeepsOneEach(book: Book, subject: Subject, explanation: Explanation)
    requires BookHolds(book) && OneEach(book) && !IsStanding(book, subject)
    ensures OneEach(RaiseOf(book, subject, explanation))
    ensures forall other :: IsStanding(RaiseOf(book, subject, explanation), other) ==>
      other == subject || IsStanding(book, other)
  {
    var after := RaiseOf(book, subject, explanation);
    forall id | Standing(after, id) && id != book.nextAlarm
      ensures Standing(book, id) && after.alarms[id] == book.alarms[id] {
    }
    forall id | Standing(book, id) ensures book.alarms[id].subject != subject {
    }
    forall other | IsStanding(after, other) && other != subject ensures IsStanding(book, other) {
      var id :| Standing(after, id) && after.alarms[id].subject == other;
      assert Standing(book, id);
    }
  }

  /** A raise keeps subjects apart exactly when nothing stands on its subject yet. */
  lemma RaiseIsSafeExactlyWhenAlone(book: Book, subject: Subject, explanation: Explanation)
    requires BookHolds(book) && OneEach(book)
    ensures OneEach(RaiseOf(book, subject, explanation)) <==> !IsStanding(book, subject)
  {
    if IsStanding(book, subject) {
      var id :| Standing(book, id) && book.alarms[id].subject == subject;
      assert AlarmHolds(book, id);
      var after := RaiseOf(book, subject, explanation);
      assert Standing(after, id) && Standing(after, book.nextAlarm);
      assert after.alarms[id].subject == after.alarms[book.nextAlarm].subject;
    } else {
      RaiseKeepsOneEach(book, subject, explanation);
    }
  }

  // The detector's pass, and users in between.

  datatype Finding<T> = Finding(about: T, explanation: Explanation)

  datatype Phase =
    | Idle
    | Deviations(left: seq<Finding<Series>>, open: set<Series>)
    | Silences(quiet: seq<Finding<int>>, already: set<int>)

  datatype System = System(book: Book, phase: Phase)

  datatype Step =
    | BeginDeviations(found: seq<Finding<Series>>)
    | NextDeviation
    | BeginSilences(silent: seq<Finding<int>>)
    | NextSilence
    | EndPass
    | UserTransition(id: int, into: AlarmState, reason: string, act: Act)
    | UserDispatch(alarm: int, technician: int, station: string, act: Act)
    | UserComplete(order: int, report: FieldReport, act: Act)

  function OpenSeries(book: Book): (r: set<Series>)
    ensures forall s :: s in r <==> IsStanding(book, OfSeries(s))
  {
    var standing := set id | id in book.alarms && !book.alarms[id].state.Closed? && book.alarms[id].subject.OfSeries?;
    assert forall id :: id in standing ==> Standing(book, id);
    set id | id in standing :: book.alarms[id].subject.series
  }

  function SilentNodes(book: Book): (r: set<int>)
    ensures forall n :: n in r <==> IsStanding(book, OfNode(n))
  {
    var standing := set id | id in book.alarms && !book.alarms[id].state.Closed? && book.alarms[id].subject.OfNode?;
    assert forall id :: id in standing ==> Standing(book, id);
    set id | id in standing :: book.alarms[id].subject.node
  }

  function OrSame(book: Book, outcome: Result<Book, Refusal>): Book {
    if outcome.Ok? then outcome.value else book
  }

  function Next(s: System, step: Step): Option<System> {
    match step
    case BeginDeviations(found) =>
      if s.phase.Idle? then Some(s.(phase := Deviations(found, OpenSeries(s.book)))) else None
    case NextDeviation =>
      if !s.phase.Deviations? || s.phase.left == [] then None
      else
        var one := s.phase.left[0];
        Some(System(
               if one.about in s.phase.open then s.book else RaiseOf(s.book, OfSeries(one.about), one.explanation),
               Deviations(s.phase.left[1..], s.phase.open)))
    case BeginSilences(silent) =>
      if s.phase.Silences? then None else Some(s.(phase := Silences(silent, SilentNodes(s.book))))
    case NextSilence =>
      if !s.phase.Silences? || s.phase.quiet == [] then None
      else
        var one := s.phase.quiet[0];
        Some(System(
               if one.about in s.phase.already then s.book else RaiseOf(s.book, OfNode(one.about), one.explanation),
               Silences(s.phase.quiet[1..], s.phase.already)))
    case EndPass => Some(s.(phase := Idle))
    case UserTransition(id, into, reason, act) =>
      Some(s.(book := OrSame(s.book, TransitionOf(s.book, id, into, reason, act))))
    case UserDispatch(alarm, technician, station, act) =>
      Some(s.(book := OrSame(s.book, DispatchOf(s.book, alarm, technician, station, act))))
    case UserComplete(order, report, act) =>
      Some(s.(book := OrSame(s.book, CompleteOf(s.book, order, report, act))))
  }

  ghost predicate Distinct<T(!new)>(found: seq<Finding<T>>) {
    forall i, j :: 0 <= i < j < |found| ==> found[i].about != found[j].about
  }

  /** The pass looks at each series and each node once. */
  ghost predicate Fair(step: Step) {
    match step
    case BeginDeviations(found) => Distinct(found)
    case BeginSilences(silent) => Distinct(silent)
    case _ => true
  }

  /** What the pass has yet to look at and does not stand in its snapshot does not stand at all. */
  ghost predicate PhaseHolds(s: System) {
    match s.phase
    case Idle => true
    case Deviations(left, open) =>
      Distinct(left) && forall i ::
        0 <= i < |left| && IsStanding(s.book, OfSeries(left[i].about)) ==> left[i].about in open
    case Silences(quiet, already) =>
      Distinct(quiet) && forall i ::
        0 <= i < |quiet| && IsStanding(s.book, OfNode(quiet[i].about)) ==> quiet[i].about in already
  }

  ghost predicate Invariant(s: System) {
    BookHolds(s.book) && OneEach(s.book) && PhaseHolds(s)
  }

  lemma ForwardKeeps(s: System, after: Book)
    requires Invariant(s) && BookHolds(after) && OnlyMovesForward(s.book, after)
    ensures Invariant(s.(book := after))
  {
    ForwardKeepsOneEach(s.book, after);
  }

  lemma DeviationKeeps(s: System)
    requires Invariant(s) && s.phase.Deviations? && s.phase.left != []
    ensures Invariant(Next(s, NextDeviation).value)
  {
    var one := s.phase.left[0];
    assert forall i :: 0 <= i < |s.phase.left| - 1 ==> s.phase.left[1..][i] == s.phase.left[i + 1];
    if one.about !in s.phase.open {
      RaiseKeepsBook(s.book, OfSeries(one.about), one.explanation);
      RaiseKeepsOneEach(s.book, OfSeries(one.about), one.explanation);
    }
  }

  lemma SilenceKeeps(s: System)
    requires Invariant(s) && s.phase.Silences? && s.phase.quiet != []
    ensures Invariant(Next(s, NextSilence).value)
  {
    var one := s.phase.quiet[0];
    assert forall i :: 0 <= i < |s.phase.quiet| - 1 ==> s.phase.quiet[1..][i] == s.phase.quiet[i + 1];
    if one.about !in s.phase.already {
      RaiseKeepsBook(s.book, OfNode(one.about), one.explanation);
      RaiseKeepsOneEach(s.book, OfNode(one.about), one.explanation);
    }
  }

  lemma UserKeeps(s: System, step: Step)
    requires Invariant(s) && (step.UserTransition? || step.UserDispatch? || step.UserComplete?)
    ensures Invariant(Next(s, step).value)
  {
    match step
    case UserTransition(id, into, reason, act) =>
      if TransitionOf(s.book, id, into, reason, act).Ok? {
        TransitionKeepsBook(s.book, id, into, reason, act);
        TransitionMovesForward(s.book, id, into, reason, act);
        ForwardKeeps(s, TransitionOf(s.book, id, into, reason, act).value);
      }
    case UserDispatch(alarm, technician, station, act) =>
      if DispatchOf(s.book, alarm, technician, station, act).Ok? {
        DispatchKeepsBook(s.book, alarm, technician, station, act);
        DispatchMovesForward(s.book, alarm, technician, station, act);
        ForwardKeeps(s, DispatchOf(s.book, alarm, technician, station, act).value);
      }
    case UserComplete(order, report, act) =>
      if CompleteOf(s.book, order, report, act).Ok? {
        CompleteKeepsBook(s.book, order, report, act);
        CompleteMovesForward(s.book, order, report, act);
        ForwardKeeps(s, CompleteOf(s.book, order, report, act).value);
      }
  }

  lemma StepKeeps(s: System, step: Step)
    requires Invariant(s) && Fair(step) && Next(s, step).Some?
    ensures Invariant(Next(s, step).value)
  {
    match step
    case BeginDeviations(found) =>
    case NextDeviation => DeviationKeeps(s);
    case BeginSilences(silent) =>
    case NextSilence => SilenceKeeps(s);
    case EndPass =>
    case _ => UserKeeps(s, step);
  }

  // Every run.

  ghost predicate IsRun(states: seq<System>, steps: seq<Step>) {
    && |states| == |steps| + 1
    && states[0] == System(EMPTY_BOOK, Idle)
    && forall i :: 0 <= i < |steps| ==> Fair(steps[i]) && Next(states[i], steps[i]) == Some(states[i + 1])
  }

  lemma {:induction false} RunHolds(states: seq<System>, steps: seq<Step>, i: nat)
    requires IsRun(states, steps) && i < |states|
    ensures Invariant(states[i])
  {
    if i > 0 {
      RunHolds(states, steps, i - 1);
      assert Fair(steps[i - 1]);
      StepKeeps(states[i - 1], steps[i - 1]);
    }
  }

  /** In every run, no series and no node ever has two alarms that are not closed. */
  lemma NeverTwoStanding(states: seq<System>, steps: seq<Step>, i: nat, a: int, b: int)
    requires IsRun(states, steps) && i < |states|
    requires Standing(states[i].book, a) && Standing(states[i].book, b)
    requires states[i].book.alarms[a].subject == states[i].book.alarms[b].subject
    ensures a == b
  {
    RunHolds(states, steps, i);
  }

  /**
    * In every run each alarm's events lead unbroken from nothing through open to where it is, in
    * at most four moves, and it carries a closing time exactly when it is closed.
    */
  lemma EveryHistoryIsUnbroken(states: seq<System>, steps: seq<Step>, i: nat, id: int)
    requires IsRun(states, steps) && i < |states| && id in states[i].book.alarms
    ensures Unbroken(HistoryOf(states[i].book.events, id), states[i].book.alarms[id].state)
    ensures |HistoryOf(states[i].book.events, id)| <= 4
    ensures states[i].book.alarms[id].closedAt.Some? <==> states[i].book.alarms[id].state.Closed?
  {
    RunHolds(states, steps, i);
    assert AlarmHolds(states[i].book, id);
    HistoryIsShort(HistoryOf(states[i].book.events, id), states[i].book.alarms[id].state);
  }

  /** In every run an alarm with an order is being verified or closed, and with a completed one is closed. */
  lemma OrdersFollowAlarms(states: seq<System>, steps: seq<Step>, i: nat, order: int)
    requires IsRun(states, steps) && i < |states| && order in states[i].book.orders
    ensures var book := states[i].book;
      book.orders[order].alarm in book.alarms
      && (book.alarms[book.orders[order].alarm].state.UnderVerification?
         || book.alarms[book.orders[order].alarm].state.Closed?)
      && (book.orders[order].completed ==> book.alarms[book.orders[order].alarm].state.Closed?)
  {
    RunHolds(states, steps, i);
    assert OrderHolds(states[i].book, order);
  }

  lemma StepKeepsClosed(s: System, step: Step, id: int)
    requires BookHolds(s.book) && Next(s, step).Some?
    requires id in s.book.alarms && s.book.alarms[id].state.Closed?
    ensures id in Next(s, step).value.book.alarms && Next(s, step).value.book.alarms[id] == s.book.alarms[id]
  {
    assert AlarmHolds(s.book, id);
  }

  /** A closed alarm is final, in every run. */
  lemma {:induction false} ClosedIsFinal(states: seq<System>, steps: seq<Step>, i: nat, j: nat, id: int)
    requires IsRun(states, steps) && i <= j < |states|
    requires id in states[i].book.alarms && states[i].book.alarms[id].state.Closed?
    ensures id in states[j].book.alarms && states[j].book.alarms[id] == states[i].book.alarms[id]
  {
    if i < j {
      var before := j - 1;
      ClosedIsFinal(states, steps, i, before, id);
      RunHolds(states, steps, before);
      assert Next(states[before], steps[before]) == Some(states[j]);
      StepKeepsClosed(states[before], steps[before], id);
    }
  }

  // Who moved an alarm, and why.

  /** The detector opens in its own words; every other move has its user and says something. */
  ghost predicate Signed(event: Event) {
    && (event.from.None? <==> event.user.None?)
    && (event.from.None? ==> event.reason == RAISED)
    && !Blank(event.reason)
  }

  lemma {:induction false} WordStays(text: string)
    requires text != [] && !IsSpace(text[0])
    ensures TrimStart(text) == text && TrimEnd(text) != []
    decreases |text|
  {
    if |text| > 1 && IsSpace(text[|text| - 1]) {
      WordStays(text[..|text| - 1]);
    }
  }

  /** What starts with a word is not blank. */
  lemma WordIsNotBlank(text: string)
    requires text != [] && !IsSpace(text[0])
    ensures !Blank(text)
  {
    WordStays(text);
  }

  lemma WordsAreNotBlank(technician: int, station: string, report: FieldReport)
    ensures !Blank(RAISED) && !Blank(DispatchText(technician, station)) && !Blank(Describe(report))
  {
    WordIsNotBlank(RAISED);
    WordIsNotBlank(DispatchText(technician, station));
    WordIsNotBlank(Describe(report));
  }

  ghost predicate AllSigned(events: seq<Event>) {
    forall event :: event in events ==> Signed(event)
  }

  lemma OneMoreSigned(events: seq<Event>, event: Event)
    requires AllSigned(events) && Signed(event)
    ensures AllSigned(events + [event])
  {
  }

  lemma RaiseKeepsSigned(book: Book, subject: Subject, explanation: Explanation)
    requires AllSigned(book.events)
    ensures AllSigned(RaiseOf(book, subject, explanation).events)
  {
    WordIsNotBlank(RAISED);
    OneMoreSigned(book.events, Event(book.nextAlarm, None, Open, None, RAISED));
  }

  lemma MoveKeepsSigned(book: Book, id: int, into: AlarmState, closedAt: Option<int>, act: Act, reason: string)
    requires AllSigned(book.events) && id in book.alarms && !Blank(reason)
    ensures AllSigned(Moved(book, id, into, closedAt, act, reason).events)
  {
    OneMoreSigned(book.events, Event(id, Some(book.alarms[id].state), into, Some(act.user), reason));
  }

  lemma StepKeepsSigned(s: System, step: Step)
    requires AllSigned(s.book.events) && Next(s, step).Some?
    ensures AllSigned(Next(s, step).value.book.events)
  {
    match step
    case NextDeviation =>
      var one := s.phase.left[0];
      RaiseKeepsSigned(s.book, OfSeries(one.about), one.explanation);
    case NextSilence =>
      var one := s.phase.quiet[0];
      RaiseKeepsSigned(s.book, OfNode(one.about), one.explanation);
    case UserTransition(id, into, reason, act) =>
      if TransitionOf(s.book, id, into, reason, act).Ok? {
        MoveKeepsSigned(s.book, id, into, if into.Closed? then Some(act.at) else None, act, reason);
      }
    case UserDispatch(alarm, technician, station, act) =>
      if DispatchOf(s.book, alarm, technician, station, act).Ok? {
        var name := Trimmed(station);
        WordsAreNotBlank(technician, name, FieldReport(false, None, None));
        MoveKeepsSigned(Ordered(s.book, alarm, technician, name), alarm, UnderVerification,
                        s.book.alarms[alarm].closedAt, act, DispatchText(technician, name));
      }
    case UserComplete(order, report, act) =>
      if CompleteOf(s.book, order, report, act).Ok? {
        WordsAreNotBlank(0, "", report);
        MoveKeepsSigned(Filed(s.book, order, report), s.book.orders[order].alarm, Closed,
                        Some(act.at), act, Describe(report));
      }
    case _ =>
  }

  /** In every run, every move but a raise names its user, and none is without a reason. */
  lemma {:induction false} EveryMoveIsSigned(states: seq<System>, steps: seq<Step>, i: nat)
    requires IsRun(states, steps) && i < |states|
    ensures AllSigned(states[i].book.events)
  {
    if i > 0 {
      EveryMoveIsSigned(states, steps, i - 1);
      assert Next(states[i - 1], steps[i - 1]) == Some(states[i]);
      StepKeepsSigned(states[i - 1], steps[i - 1]);
    }
  }

  // What each request does and when it is refused, in plain terms.

  predicate AllSpace(text: string) {
    forall i :: 0 <= i < |text| ==> IsSpace(text[i])
  }

  lemma {:induction false} TrimStartTakesSpace(text: string) returns (taken: string)
    ensures text == taken + TrimStart(text) && AllSpace(taken)
  {
    if text == [] || !IsSpace(text[0]) {
      taken := [];
    } else {
      var rest := TrimStartTakesSpace(text[1..]);
      taken := [text[0]] + rest;
      assert text == [text[0]] + text[1..];
    }
  }

  lemma {:induction false} TrimEndTakesSpace(text: string) returns (taken: string)
    ensures text == TrimEnd(text) + taken && AllSpace(taken)
  {
    if text == [] || !IsSpace(text[|text| - 1]) {
      taken := [];
    } else {
      var rest := TrimEndTakesSpace(text[..|text| - 1]);
      taken := rest + [text[|text| - 1]];
      assert text == text[..|text| - 1] + [text[|text| - 1]];
    }
  }

  /** Trimming takes the white space off both ends and nothing else. */
  lemma TrimmedIsBare(text: string) returns (before: string, after: string)
    ensures text == before + Trimmed(text) + after && AllSpace(before) && AllSpace(after)
    ensures Trimmed(text) != [] ==> !IsSpace(Trimmed(text)[0]) && !IsSpace(Trimmed(text)[|Trimmed(text)| - 1])
  {
    before := TrimStartTakesSpace(text);
    after := TrimEndTakesSpace(TrimStart(text));
    assert TrimStart(text) == Trimmed(text) + after;
  }

  lemma BlankIsAllSpace(text: string)
    ensures Blank(text) <==> AllSpace(text)
  {
    var before, after := TrimmedIsBare(text);
    if Trimmed(text) != [] {
      assert text[|before|] == Trimmed(text)[0];
    }
  }

  /** The moves users may make. */
  predicate Allowed(from: AlarmState, into: AlarmState) {
    || (from == Open && (into == Acknowledged || into == Closed))
    || (from == Acknowledged && (into == UnderVerification || into == Closed))
    || (from == UnderVerification && into == Closed)
  }

  /** The alarm after a move, its event written down, and nothing else touched. */
  ghost predicate IsMove(before: Book, after: Book, id: int, into: AlarmState, closedAt: Option<int>, act: Act,
                         reason: string)
    requires id in before.alarms
  {
    var was := before.alarms[id];
    && after.alarms.Keys == before.alarms.Keys
    && after.alarms[id] == Alarm(was.subject, into, was.explanation, Some(act.at), closedAt)
    && (forall other :: other in before.alarms && other != id ==> after.alarms[other] == before.alarms[other])
    && after.events == before.events + [Event(id, Some(was.state), into, Some(act.user), reason)]
    && after.nextAlarm == before.nextAlarm
  }

  /** A move is made exactly when it has words, the alarm exists and the move is allowed. */
  lemma TransitionIsExact(book: Book, id: int, into: AlarmState, reason: string, act: Act)
    ensures TransitionOf(book, id, into, reason, act).Ok? <==>
      !AllSpace(reason) && id in book.alarms && Allowed(book.alarms[id].state, into)
    ensures TransitionOf(book, id, into, reason, act).Ok? ==>
      var after := TransitionOf(book, id, into, reason, act).value;
      && IsMove(book, after, id, into, if into == Closed then Some(act.at) else None, act, reason)
      && after.orders == book.orders && after.nextOrder == book.nextOrder
  {
    BlankIsAllSpace(reason);
  }

  /** A dispatch goes through exactly for an alarm that is there and not closed, to a station of 1 to 200 characters. */
  lemma DispatchIsExact(book: Book, id: int, technician: int, station: string, act: Act)
    ensures DispatchOf(book, id, technician, station, act).Ok? <==>
      1 <= |Trimmed(station)| <= 200 && id in book.alarms && book.alarms[id].state != Closed
    ensures DispatchOf(book, id, technician, station, act).Ok? ==>
      var after := DispatchOf(book, id, technician, station, act).value;
      && after.orders == book.orders[book.nextOrder := WorkOrder(id, technician, Trimmed(station), false, None)]
      && after.nextOrder == book.nextOrder + 1
      && (if book.alarms[id].state == UnderVerification then after.alarms == book.alarms && after.events == book.events
          else IsMove(book, after, id, UnderVerification, book.alarms[id].closedAt, act,
                      DispatchText(technician, Trimmed(station))))
  {
  }

  /** An order is completed exactly when it is there, open and has its alarm, which is closed with it. */
  lemma CompleteIsExact(book: Book, order: int, report: FieldReport, act: Act)
    ensures CompleteOf(book, order, report, act).Ok? <==>
      order in book.orders && !book.orders[order].completed && book.orders[order].alarm in book.alarms
    ensures CompleteOf(book, order, report, act).Ok? ==>
      var after, was := CompleteOf(book, order, report, act).value, book.orders[order];
      && after.orders == book.orders[order := WorkOrder(was.alarm, was.technician, was.station, true, Some(report))]
      && after.nextOrder == book.nextOrder
      && (if book.alarms[was.alarm].state == Closed then after.alarms == book.alarms && after.events == book.events
          else IsMove(book, after, was.alarm, Closed, Some(act.at), act, Describe(report)))
  {
  }

  /** Under the tables' invariant a refused completion is of an unknown or a completed order. */
  lemma KnownOrdersComplete(book: Book, order: int, report: FieldReport, act: Act)
    requires BookHolds(book)
    ensures CompleteOf(book, order, report, act).Ok? <==> order in book.orders && !book.orders[order].completed
  {
    if order in book.orders {
      assert OrderHolds(book, order);
    }
  }

  ghost predicate SameOrdersOn(before: Book, after: Book, id: int) {
    forall order ::
      (order in before.orders && before.orders[order].alarm == id) <==>
      (order in after.orders && after.orders[order].alarm == id)
  }

  lemma StepAddsNoOrder(s: System, step: Step, id: int)
    requires BookHolds(s.book) && Next(s, step).Some?
    requires id in s.book.alarms && s.book.alarms[id].state == Closed
    ensures SameOrdersOn(s.book, Next(s, step).value.book, id)
  {
    match step
    case UserTransition(at, into, reason, act) => TransitionIsExact(s.book, at, into, reason, act);
    case UserDispatch(alarm, technician, station, act) =>
      DispatchIsExact(s.book, alarm, technician, station, act);
      assert s.book.nextOrder in s.book.orders ==> OrderHolds(s.book, s.book.nextOrder);
    case UserComplete(order, report, act) => CompleteIsExact(s.book, order, report, act);
    case _ =>
  }

  /** Once an alarm is closed, no run ever puts another order on it. */
  lemma {:induction false} ClosedTakesNoOrders(states: seq<System>, steps: seq<Step>, i: nat, j: nat, id: int)
    requires IsRun(states, steps) && i <= j < |states|
    requires id in states[i].book.alarms && states[i].book.alarms[id].state == Closed
    ensures SameOrdersOn(states[i].book, states[j].book, id)
  {
    if i < j {
      var before := j - 1;
      ClosedTakesNoOrders(states, steps, i, before, id);
      ClosedIsFinal(states, steps, i, before, id);
      RunHolds(states, steps, before);
      assert Next(states[before], steps[before]) == Some(states[j]);
      StepAddsNoOrder(states[before], steps[before], id);
    }
  }

  /** In a run a user's accepted request has its effect at once, and a refused one has none. */
  lemma UserStepsApply(s: System, id: int, into: AlarmState, reason: string, act: Act, technician: int, station: string,
                       report: FieldReport)
    ensures var moved := TransitionOf(s.book, id, into, reason, act);
      Next(s, UserTransition(id, into, reason, act))
      == Some(System(match moved case Ok(after) => after case Err(_) => s.book, s.phase))
    ensures var sent := DispatchOf(s.book, id, technician, station, act);
      Next(s, UserDispatch(id, technician, station, act))
      == Some(System(match sent case Ok(after) => after case Err(_) => s.book, s.phase))
    ensures var done := CompleteOf(s.book, id, report, act);
      Next(s, UserComplete(id, report, act))
      == Some(System(match done case Ok(after) => after case Err(_) => s.book, s.phase))
  {
  }

  /** Who is refused is told why: what is said to be missing, closed, done or wrong is so. */
  lemma RefusalsAreTrue(book: Book, id: int, into: AlarmState, reason: string, act: Act, technician: int,
                        station: string, report: FieldReport)
    ensures TransitionOf(book, id, into, reason, act).Err? ==>
      match TransitionOf(book, id, into, reason, act).error
      case NoReason => AllSpace(reason)
      case NotFound => id !in book.alarms
      case Illegal => id in book.alarms && !Allowed(book.alarms[id].state, into)
      case _ => false
    ensures DispatchOf(book, id, technician, station, act).Err? ==>
      match DispatchOf(book, id, technician, station, act).error
      case NoStation => Trimmed(station) == []
      case StationTooLong => |Trimmed(station)| > 200
      case NotFound => id !in book.alarms
      case AlarmClosed => id in book.alarms && book.alarms[id].state == Closed
      case _ => false
    ensures CompleteOf(book, id, report, act).Err? ==>
      match CompleteOf(book, id, report, act).error
      case NotFound => id !in book.orders || book.orders[id].alarm !in book.alarms
      case AlreadyCompleted => id in book.orders && book.orders[id].completed
      case _ => false
  {
    BlankIsAllSpace(reason);
  }

  // A pass that nobody disturbs.

  /** The steps lead from state to state. */
  ghost predicate Leads(states: seq<System>, steps: seq<Step>) {
    && |states| == |steps| + 1
    && forall i :: 0 <= i < |steps| ==> Next(states[i], steps[i]) == Some(states[i + 1])
  }

  lemma LeadsOn(s: System, step: Step, states: seq<System>, steps: seq<Step>)
    requires Leads(states, steps) && Next(s, step) == Some(states[0])
    ensures Leads([s] + states, [step] + steps) && ([s] + states)[|steps| + 1] == states[|steps|]
  {
    forall i | 0 <= i < |steps| + 1
      ensures Next(([s] + states)[i], ([step] + steps)[i]) == Some(([s] + states)[i + 1])
    {
      assert i > 0 ==> ([s] + states)[i] == states[i - 1] && ([step] + steps)[i] == steps[i - 1];
      assert ([s] + states)[i + 1] == states[i];
    }
  }

  /** Alarms stay as they are, and each new one is open, about what `about` allows, and written down as raised. */
  ghost predicate OnlyRaised(book: Book, after: Book, about: (Subject, Explanation) -> bool) {
    && (forall id :: id in book.alarms ==> id in after.alarms && after.alarms[id] == book.alarms[id])
    && (forall id :: id in after.alarms && id !in book.alarms ==>
          && about(after.alarms[id].subject, after.alarms[id].explanation)
          && after.alarms[id] == Alarm(after.alarms[id].subject, Open, after.alarms[id].explanation, None, None)
          && Event(id, None, Open, None, "raised by the detector") in after.events)
    && (forall event :: event in book.events ==> event in after.events)
    && after.orders == book.orders
  }

  lemma OnlyRaisedFirst(book: Book, next: Book, after: Book, subject: Subject, explanation: Explanation,
                        about: (Subject, Explanation) -> bool)
    requires BookHolds(book) && about(subject, explanation)
    requires next == book || next == RaiseOf(book, subject, explanation)
    requires OnlyRaised(next, after, about)
    ensures OnlyRaised(book, after, about)
  {
    assert book.nextAlarm !in book.alarms by {
      assert book.nextAlarm in book.alarms ==> AlarmHolds(book, book.nextAlarm);
    }
    if next == RaiseOf(book, subject, explanation) {
      assert next.events[|book.events|] == Event(book.nextAlarm, None, Open, None, "raised by the detector");
      assert next.events[|book.events|] in next.events;
      assert after.alarms[book.nextAlarm] == next.alarms[book.nextAlarm];
    }
  }

  lemma StandsOn(book: Book, after: Book, subject: Subject, about: (Subject, Explanation) -> bool)
    requires OnlyRaised(book, after, about) && IsStanding(book, subject)
    ensures IsStanding(after, subject)
  {
    var id :| Standing(book, id) && book.alarms[id].subject == subject;
    assert Standing(after, id);
  }

  lemma RaisedStands(book: Book, subject: Subject, explanation: Explanation, other: Subject)
    requires BookHolds(book)
    ensures IsStanding(RaiseOf(book, subject, explanation), other) <==> other == subject || IsStanding(book, other)
  {
    var after := RaiseOf(book, subject, explanation);
    assert book.nextAlarm !in book.alarms by {
      assert book.nextAlarm in book.alarms ==> AlarmHolds(book, book.nextAlarm);
    }
    assert Standing(after, book.nextAlarm);
    if id :| Standing(book, id) && book.alarms[id].subject == other {
      assert Standing(after, id) && after.alarms[id].subject == other;
    }
    if IsStanding(after, other) && other != subject {
      var id :| Standing(after, id) && after.alarms[id].subject == other;
      assert Standing(book, id);
    }
  }

  ghost function AboutSeries(found: seq<Finding<Series>>): (Subject, Explanation) -> bool {
    (subject: Subject, explanation: Explanation) =>
      subject.OfSeries? && Finding(subject.series, explanation) in found
  }

  ghost function AboutNodes(silent: seq<Finding<int>>): (Subject, Explanation) -> bool {
    (subject: Subject, explanation: Explanation) => subject.OfNode? && Finding(subject.node, explanation) in silent
  }

  lemma {:induction false} DeviationsRun(s: System, found: seq<Finding<Series>>)
    returns (states: seq<System>, steps: seq<Step>)
    requires BookHolds(s.book) && s.phase.Deviations?
    requires forall series :: series in s.phase.open ==> IsStanding(s.book, OfSeries(series))
    requires forall one :: one in s.phase.left ==> one in found
    ensures Leads(states, steps) && states[0] == s
    ensures var after := states[|steps|].book;
      && OnlyRaised(s.book, after, AboutSeries(found))
      && forall one :: one in s.phase.left ==> IsStanding(after, OfSeries(one.about))
    decreases |s.phase.left|
  {
    if s.phase.left == [] {
      states, steps := [s], [];
    } else {
      var one, t := s.phase.left[0], Next(s, NextDeviation).value;
      assert one in s.phase.left;
      RaiseKeepsBook(s.book, OfSeries(one.about), one.explanation);
      forall series | series in t.phase.open ensures IsStanding(t.book, OfSeries(series)) {
        RaisedStands(s.book, OfSeries(one.about), one.explanation, OfSeries(series));
      }
      RaisedStands(s.book, OfSeries(one.about), one.explanation, OfSeries(one.about));
      states, steps := DeviationsRun(t, found);
      var after := states[|steps|].book;
      StandsOn(t.book, after, OfSeries(one.about), AboutSeries(found));
      OnlyRaisedFirst(s.book, t.book, after, OfSeries(one.about), one.explanation, AboutSeries(found));
      LeadsOn(s, NextDeviation, states, steps);
      states, steps := [s] + states, [NextDeviation] + steps;
    }
  }

  lemma {:induction false} SilencesRun(s: System, silent: seq<Finding<int>>)
    returns (states: seq<System>, steps: seq<Step>)
    requires BookHolds(s.book) && s.phase.Silences?
    requires forall node :: node in s.phase.already ==> IsStanding(s.book, OfNode(node))
    requires forall one :: one in s.phase.quiet ==> one in silent
    ensures Leads(states, steps) && states[0] == s
    ensures var after := states[|steps|].book;
      && OnlyRaised(s.book, after, AboutNodes(silent))
      && forall one :: one in s.phase.quiet ==> IsStanding(after, OfNode(one.about))
    decreases |s.phase.quiet|
  {
    if s.phase.quiet == [] {
      states, steps := [s], [];
    } else {
      var one, t := s.phase.quiet[0], Next(s, NextSilence).value;
      assert one in s.phase.quiet;
      RaiseKeepsBook(s.book, OfNode(one.about), one.explanation);
      forall node | node in t.phase.already ensures IsStanding(t.book, OfNode(node)) {
        RaisedStands(s.book, OfNode(one.about), one.explanation, OfNode(node));
      }
      RaisedStands(s.book, OfNode(one.about), one.explanation, OfNode(one.about));
      states, steps := SilencesRun(t, silent);
      var after := states[|steps|].book;
      StandsOn(t.book, after, OfNode(one.about), AboutNodes(silent));
      OnlyRaisedFirst(s.book, t.book, after, OfNode(one.about), one.explanation, AboutNodes(silent));
      LeadsOn(s, NextSilence, states, steps);
      states, steps := [s] + states, [NextSilence] + steps;
    }
  }

  /**
    * From any book a pass can run undisturbed over what it found. Afterwards every series it found has
    * an alarm that is not closed, and the only new alarms are open ones about what it found.
    */
  lemma QuietPassRaises(book: Book, found: seq<Finding<Series>>) returns (states: seq<System>, steps: seq<Step>)
    requires BookHolds(book)
    ensures Leads(states, steps) && states[0] == System(book, Idle)
    ensures var after := states[|steps|].book;
      && OnlyRaised(book, after, AboutSeries(found))
      && forall one :: one in found ==> IsStanding(after, OfSeries(one.about))
  {
    var s := System(book, Idle);
    var t := System(book, Deviations(found, OpenSeries(book)));
    assert Next(s, BeginDeviations(found)) == Some(t);
    states, steps := DeviationsRun(t, found);
    LeadsOn(s, BeginDeviations(found), states, steps);
    states, steps := [s] + states, [BeginDeviations(found)] + steps;
  }

  /** The same of the nodes that went quiet. */
  lemma QuietPassFindsSilence(book: Book, silent: seq<Finding<int>>) returns (states: seq<System>, steps: seq<Step>)
    requires BookHolds(book)
    ensures Leads(states, steps) && states[0] == System(book, Idle)
    ensures var after := states[|steps|].book;
      && OnlyRaised(book, after, AboutNodes(silent))
      && forall one :: one in silent ==> IsStanding(after, OfNode(one.about))
  {
    var s := System(book, Idle);
    var t := System(book, Silences(silent, SilentNodes(book)));
    assert Next(s, BeginSilences(silent)) == Some(t);
    states, steps := SilencesRun(t, silent);
    LeadsOn(s, BeginSilences(silent), states, steps);
    states, steps := [s] + states, [BeginSilences(silent)] + steps;
  }
}
