/** Watching, opening, closing and sweeping in any order: what the numbers of sessions promise. */
module SessionRuns {
  import opened Wrappers
  import opened Integers
  import opened LiveSessions

  // The invariant.

  predicate Holds(s: State, node: nat) {
    node in s.nodes && s.nodes[node].session.Some?
  }

  /** Numbers in use were issued, and no two nodes hold the same one. */
  ghost predicate IdsHold(s: State) {
    && (forall node :: Holds(s, node) ==> 0 < s.nodes[node].session.value.id < s.nextId)
    && (forall a, b :: Holds(s, a) && Holds(s, b) && s.nodes[a].session.value.id == s.nodes[b].session.value.id ==>
       a == b)
    && 0 < s.nextId
  }

  /** A node that is connected while its session runs has last been told that session's number. */
  ghost predicate Informed(entry: NodeLive, now: int) {
    entry.commands.Some? && Live(entry.session, now).Some? ==>
      var sent := entry.commands.value.sent;
      sent != [] && sent[|sent| - 1].Start? && sent[|sent| - 1].id == entry.session.value.id
  }

  /** A connected node without a session was last told to stop, if it was told anything. */
  ghost predicate Quiet(entry: NodeLive) {
    entry.commands.Some? && entry.session.None? ==>
      var sent := entry.commands.value.sent;
      sent != [] ==> sent[|sent| - 1].Stop?
  }

  /** The stream never holds more than its capacity, and its last word fits the session. */
  ghost predicate EntryHolds(entry: NodeLive, now: int) {
    && Informed(entry, now) && Quiet(entry)
    && (entry.commands.Some? ==>
      var pipe := entry.commands.value;
      pipe.taken <= |pipe.sent| && |pipe.sent| - pipe.taken <= COMMAND_QUEUE)
  }

  ghost predicate PipesHold(s: State, now: int) {
    forall node :: node in s.nodes ==> EntryHolds(s.nodes[node], now)
  }

  datatype Step =
    | Watching(node: nat)
    | Opening(node: nat, readAt: int)
    | Closing(node: nat)
    | Sweeping(readAt: int)
    | Taking(node: nat)
    | HangingUp(node: nat)
    | Waiting(until: int)

  /** The sessions and the clock under the lock. */
  datatype System = System(state: State, clock: int)

  function Next(s: System, step: Step): System {
    match step
    case Watching(node) => s.(state := WatchOf(s.state, node, s.clock))
    case Opening(node, readAt) => s.(state := OpenOf(s.state, node, readAt).0)
    case Closing(node) => s.(state := CloseOf(s.state, node))
    case Sweeping(readAt) => s.(state := SweepOf(s.state, readAt))
    case Taking(node) =>
      var entry := Entry(s.state.nodes, node);
      if entry.commands.None? || entry.commands.value.taken >= |entry.commands.value.sent| then s
      else
        var pipe := entry.commands.value;
        s.(state := s.state.(nodes := s.state.nodes[node := entry.(commands := Some(pipe.(taken := pipe.taken + 1)))]))
    case HangingUp(node) =>
      var entry := Entry(s.state.nodes, node);
      if entry.commands.None? then s
      else s.(state := s.state.(nodes :=
        s.state.nodes[node := entry.(commands := Some(entry.commands.value.(closed := true)))]))
    case Waiting(until) => s.(clock := until)
  }

  /** The clock does not go back. Opening and sweeping read it before they have the lock, so at any time. */
  predicate Fair(s: System, step: Step) {
    step.Waiting? ==> s.clock <= step.until
  }

  /** An opening has the lock when it reads the clock. */
  predicate Prompt(s: System, step: Step) {
    step.Opening? ==> step.readAt == s.clock
  }

  ghost predicate Invariant(s: System) {
    IdsHold(s.state) && PipesHold(s.state, s.clock)
  }

  /** Every session there is was there before. */
  ghost predicate NoNewSessions(before: State, after: State) {
    after.nextId == before.nextId && forall node :: Holds(after, node) ==>
      Holds(before, node) && after.nodes[node].session.value.id == before.nodes[node].session.value.id
  }

  lemma OldSessionsKeepIds(before: State, after: State)
    requires IdsHold(before) && NoNewSessions(before, after)
    ensures IdsHold(after)
  {
  }

  /** Opening touches one node, which keeps its running number or takes the next. */
  lemma OpenTouchesOne(s: State, node: nat, now: int)
    ensures var after := OpenOf(s, node, now).0;
      && (forall other :: other != node ==> (Holds(after, other) <==> Holds(s, other)))
      && (forall other :: other != node && Holds(s, other) ==> after.nodes[other].session == s.nodes[other].session)
      && Holds(after, node)
      && after.nodes[node].session.value.id
         == (if Live(Entry(s.nodes, node).session, now).Some? then Entry(s.nodes, node).session.value.id else s.nextId)
  {
  }

  lemma OpenKeepsIds(s: State, node: nat, now: int)
    requires IdsHold(s) && s.nextId < U64_MAX
    ensures IdsHold(OpenOf(s, node, now).0) && s.nextId <= OpenOf(s, node, now).0.nextId <= s.nextId + 1
  {
    OpenTouchesOne(s, node, now);
  }

  lemma StepKeepsIds(s: System, step: Step)
    requires IdsHold(s.state) && s.state.nextId < U64_MAX
    ensures IdsHold(Next(s, step).state)
    ensures s.state.nextId <= Next(s, step).state.nextId <= s.state.nextId + 1
  {
    match step
    case Opening(node, readAt) => OpenKeepsIds(s.state, node, readAt);
    case _ =>
      assert NoNewSessions(s.state, Next(s, step).state);
      OldSessionsKeepIds(s.state, Next(s, step).state);
  }

  /** A command that says what the session is leaves the entry in order, whether it gets through or not. */
  lemma SendKeepsEntry(entry: NodeLive, command: Command, now: int)
    requires entry.commands.Some? ==> entry.commands.value.taken <= |entry.commands.value.sent|
    requires if entry.session.Some? then command.Start? && command.id == entry.session.value.id else command.Stop?
    ensures EntryHolds(Sent(entry, command), now)
  {
  }

  lemma WatchKeepsEntry(entry: NodeLive, now: int)
    requires EntryHolds(entry, now)
    ensures var renewed := entry.(commands := Some(Pipe([], 0, false)));
      EntryHolds(if Live(entry.session, now).Some? then Sent(renewed, CommandOf(entry.session.value)) else renewed, now)
  {
    var renewed := entry.(commands := Some(Pipe([], 0, false)));
    if Live(entry.session, now).Some? {
      SendKeepsEntry(renewed, CommandOf(entry.session.value), now);
    }
  }

  lemma SweepKeepsEntry(entry: NodeLive, readAt: int, now: int)
    requires EntryHolds(entry, now)
    ensures EntryHolds(Swept(entry, readAt), now)
  {
    var heard := if entry.commands.Some? && entry.commands.value.closed then entry.(commands := None) else entry;
    if heard.session.Some? && Live(heard.session, readAt).None? {
      SendKeepsEntry(heard.(session := None), Stop, now);
    }
  }

  lemma OpenKeepsPipes(s: State, node: nat, readAt: int, now: int)
    requires PipesHold(s, now)
    ensures PipesHold(OpenOf(s, node, readAt).0, now)
  {
    var entry := Entry(s.nodes, node);
    var running := Live(entry.session, readAt);
    var session := Session(if running.Some? then running.value.id else s.nextId, readAt + SESSION_TTL);
    assert EntryHolds(entry, now);
    if entry.commands.Some? {
      SendKeepsEntry(entry.(session := Some(session)), CommandOf(session), now);
    }
  }

  lemma SweepKeepsPipes(s: State, readAt: int, now: int)
    requires PipesHold(s, now)
    ensures PipesHold(SweepOf(s, readAt), now)
  {
    forall node | node in SweepOf(s, readAt).nodes ensures EntryHolds(Swept(s.nodes[node], readAt), now) {
      SweepKeepsEntry(s.nodes[node], readAt, now);
    }
  }

  lemma LaterIsStricter(s: State, now: int, until: int)
    requires PipesHold(s, now) && now <= until
    ensures PipesHold(s, until)
  {
    assert Millis(now) <= Millis(until);
    forall node | node in s.nodes ensures EntryHolds(s.nodes[node], until) {
      assert EntryHolds(s.nodes[node], now);
    }
  }

  lemma NodeSideKeepsPipes(s: System, step: Step)
    requires PipesHold(s.state, s.clock) && (step.Taking? || step.HangingUp?)
    ensures PipesHold(Next(s, step).state, s.clock)
  {
    assert EntryHolds(Entry(s.state.nodes, step.node), s.clock);
  }

  lemma StepKeepsPipes(s: System, step: Step)
    requires PipesHold(s.state, s.clock) && Fair(s, step)
    ensures PipesHold(Next(s, step).state, Next(s, step).clock)
  {
    match step
    case Watching(node) =>
      WatchKeepsEntry(Entry(s.state.nodes, node), s.clock);
    case Opening(node, readAt) => OpenKeepsPipes(s.state, node, readAt, s.clock);
    case Closing(node) =>
      if node in s.state.nodes {
        assert EntryHolds(s.state.nodes[node], s.clock);
        SendKeepsEntry(s.state.nodes[node].(session := None), Stop, s.clock);
      }
    case Sweeping(readAt) => SweepKeepsPipes(s.state, readAt, s.clock);
    case Waiting(until) => LaterIsStricter(s.state, s.clock, until);
    case _ => NodeSideKeepsPipes(s, step);
  }

  // Every run.

  /** A run too short for the counter of sessions to wrap. */
  ghost predicate IsRun(states: seq<System>, steps: seq<Step>) {
    && |states| == |steps| + 1 < U64_MAX
    && states[0].state == State(map[], 1)
    && forall i :: 0 <= i < |steps| ==> Fair(states[i], steps[i]) && Next(states[i], steps[i]) == states[i + 1]
  }

  lemma {:induction false} RunHolds(states: seq<System>, steps: seq<Step>, i: nat)
    requires IsRun(states, steps) && i < |states|
    ensures Invariant(states[i]) && states[i].state.nextId <= i + 1
  {
    if i > 0 {
      RunHolds(states, steps, i - 1);
      assert Fair(states[i - 1], steps[i - 1]);
      StepKeepsIds(states[i - 1], steps[i - 1]);
      StepKeepsPipes(states[i - 1], steps[i - 1]);
    }
  }

  predicate Accepted(s: System, node: nat, id: nat) {
    Accepts(s.state, node, id, s.clock)
  }

  /** An issued number that this node is not running now. */
  ghost predicate Gone(s: System, node: nat, id: nat) {
    id < s.state.nextId && !Accepted(s, node, id)
  }

  lemma OpenStaysGone(s: State, node: nat, now: int, of: nat, id: nat)
    requires id < s.nextId && !Accepts(s, of, id, now)
    ensures !Accepts(OpenOf(s, node, now).0, of, id, now)
  {
    OpenTouchesOne(s, node, now);
  }

  /** Sessions that were neither made nor renewed accept nothing new. */
  ghost predicate NothingRenewed(before: State, after: State) {
    forall node :: Holds(after, node) ==> Holds(before, node) && after.nodes[node].session == before.nodes[node].session
  }

  lemma FewerStaysGone(before: State, after: State, node: nat, id: nat, now: int)
    requires !Accepts(before, node, id, now) && NothingRenewed(before, after)
    ensures !Accepts(after, node, id, now)
  {
    if Accepts(after, node, id, now) {
      assert Holds(after, node);
    }
  }

  lemma QuietStepStaysGone(s: System, step: Step, node: nat, id: nat)
    requires !Accepted(s, node, id) && !step.Opening? && !step.Waiting?
    ensures !Accepted(Next(s, step), node, id)
  {
    FewerStaysGone(s.state, Next(s, step).state, node, id, s.clock);
  }

  lemma StepStaysGone(s: System, step: Step, node: nat, id: nat)
    requires Invariant(s) && s.state.nextId < U64_MAX && Fair(s, step) && Prompt(s, step) && Gone(s, node, id)
    ensures Gone(Next(s, step), node, id)
  {
    StepKeepsIds(s, step);
    match step
    case Opening(at, readAt) => OpenStaysGone(s.state, at, readAt, node, id);
    case Waiting(until) => assert Millis(s.clock) <= Millis(until);
    case _ => QuietStepStaysGone(s, step, node, id);
  }

  lemma {:induction false} GoneStaysGone(states: seq<System>, steps: seq<Step>, i: nat, j: nat, node: nat, id: nat)
    requires IsRun(states, steps) && i <= j < |states| && Gone(states[i], node, id)
    requires forall k :: i <= k < j ==> Prompt(states[k], steps[k])
    ensures Gone(states[j], node, id)
  {
    if i < j {
      var before := j - 1;
      GoneStaysGone(states, steps, i, before, node, id);
      RunHolds(states, steps, before);
      assert Fair(states[before], steps[before]) && Next(states[before], steps[before]) == states[j];
      assert Prompt(states[before], steps[before]);
      StepStaysGone(states[before], steps[before], node, id);
    }
  }

  lemma {:induction false} NumbersOnlyGrow(states: seq<System>, steps: seq<Step>, i: nat, j: nat)
    requires IsRun(states, steps) && i <= j < |states|
    ensures states[i].state.nextId <= states[j].state.nextId
  {
    if i < j {
      var before := j - 1;
      NumbersOnlyGrow(states, steps, i, before);
      RunHolds(states, steps, before);
      assert Fair(states[before], steps[before]) && Next(states[before], steps[before]) == states[j];
      StepKeepsIds(states[before], steps[before]);
    }
  }

  lemma AcceptedWasIssued(s: System, node: nat, id: nat)
    requires Invariant(s) && Accepted(s, node, id)
    ensures id < s.state.nextId && forall other :: other != node ==> !Accepted(s, other, id)
  {
    assert Holds(s.state, node);
    forall other | other != node ensures !Accepted(s, other, id) {
      if Accepted(s, other, id) {
        assert Holds(s.state, other);
      }
    }
  }

  /**
    * In every run, a session that was closed or has run out is not accepted again as long as openings
    * read the clock under the lock.
    */
  lemma EndedIsNeverAccepted(states: seq<System>, steps: seq<Step>, i: nat, j: nat, k: nat, node: nat, id: nat)
    requires IsRun(states, steps) && i <= j <= k < |states|
    requires forall l :: j <= l < k ==> Prompt(states[l], steps[l])
    requires Accepted(states[i], node, id) && !Accepted(states[j], node, id)
    ensures !Accepted(states[k], node, id)
  {
    RunHolds(states, steps, i);
    AcceptedWasIssued(states[i], node, id);
    NumbersOnlyGrow(states, steps, i, j);
    GoneStaysGone(states, steps, j, k, node, id);
  }

  /** An issued number that no other node holds. */
  ghost predicate BelongsTo(s: State, node: nat, id: nat) {
    id < s.nextId && forall other :: other != node && Holds(s, other) ==> s.nodes[other].session.value.id != id
  }

  lemma StepKeepsOwner(s: System, step: Step, node: nat, id: nat)
    requires s.state.nextId < U64_MAX && BelongsTo(s.state, node, id)
    ensures BelongsTo(Next(s, step).state, node, id)
  {
    match step
    case Opening(at, readAt) => OpenTouchesOne(s.state, at, readAt);
    case _ => assert NoNewSessions(s.state, Next(s, step).state);
  }

  lemma {:induction false} OwnerStays(states: seq<System>, steps: seq<Step>, i: nat, j: nat, node: nat, id: nat)
    requires IsRun(states, steps) && i <= j < |states| && BelongsTo(states[i].state, node, id)
    ensures BelongsTo(states[j].state, node, id)
  {
    if i < j {
      var before := j - 1;
      OwnerStays(states, steps, i, before, node, id);
      RunHolds(states, steps, before);
      assert Next(states[before], steps[before]) == states[j];
      StepKeepsOwner(states[before], steps[before], node, id);
    }
  }

  lemma AcceptedBelongs(s: System, node: nat, id: nat)
    requires Invariant(s) && Accepted(s, node, id)
    ensures BelongsTo(s.state, node, id)
  {
    assert Holds(s.state, node);
  }

  /** In every run, however late openings come to the lock, no number is ever accepted from two nodes. */
  lemma OneNodeForEver(states: seq<System>, steps: seq<Step>, i: nat, j: nat, a: nat, b: nat, id: nat)
    requires IsRun(states, steps) && i <= j < |states|
    requires Accepted(states[i], a, id) && Accepted(states[j], b, id)
    ensures a == b
  {
    RunHolds(states, steps, i);
    AcceptedBelongs(states[i], a, id);
    OwnerStays(states, steps, i, j, a, id);
    assert Holds(states[j].state, b);
  }

  lemma StepHoldsNone(s: System, step: Step, node: nat)
    requires !Holds(s.state, node) && !(step.Opening? && step.node == node)
    ensures !Holds(Next(s, step).state, node)
  {
    if step.Opening? {
      OpenTouchesOne(s.state, step.node, step.readAt);
    }
  }

  lemma {:induction false} NoSessionUntilOpened(states: seq<System>, steps: seq<Step>, i: nat, j: nat, node: nat)
    requires IsRun(states, steps) && i <= j < |states| && !Holds(states[i].state, node)
    requires forall k :: i <= k < j ==> !(steps[k].Opening? && steps[k].node == node)
    ensures !Holds(states[j].state, node)
  {
    if i < j {
      var before := j - 1;
      NoSessionUntilOpened(states, steps, i, before, node);
      assert Next(states[before], steps[before]) == states[j];
      StepHoldsNone(states[before], steps[before], node);
    }
  }

  /** In every run, from a closing until the next opening nothing is accepted from the node. */
  lemma ClosedUntilOpened(states: seq<System>, steps: seq<Step>, i: nat, j: nat, node: nat, id: nat)
    requires IsRun(states, steps) && i < j < |states| && steps[i] == Closing(node)
    requires forall k :: i < k < j ==> !(steps[k].Opening? && steps[k].node == node)
    ensures !Accepted(states[j], node, id)
  {
    assert Next(states[i], steps[i]) == states[i + 1];
    NoSessionUntilOpened(states, steps, i + 1, j, node);
  }

  /** Renewing keeps the number; anything else gets one never used before. */
  lemma RenewingKeepsTheNumber(s: System, node: nat)
    requires Invariant(s)
    ensures var after := OpenOf(s.state, node, s.clock).0;
      forall id :: Accepts(after, node, id, s.clock) <==>
        if (exists running :: Accepted(s, node, running)) then Accepted(s, node, id) else id == s.state.nextId
  {
    var after := OpenOf(s.state, node, s.clock).0;
    var entry := Entry(s.state.nodes, node);
    assert Millis(s.clock + SESSION_TTL) > Millis(s.clock);
    assert Live(entry.session, s.clock).Some? ==> Accepted(s, node, entry.session.value.id);
    OpenTouchesOne(s.state, node, s.clock);
  }

  /** In every run, a connected node whose session runs has last been told that session's number. */
  lemma ConnectedNodesAreInformed(states: seq<System>, steps: seq<Step>, i: nat, node: nat, id: nat)
    requires IsRun(states, steps) && i < |states| && Accepted(states[i], node, id)
    ensures var entry := states[i].state.nodes[node];
      entry.commands.Some? ==>
        var sent := entry.commands.value.sent;
        sent != [] && sent[|sent| - 1].Start? && sent[|sent| - 1].id == id
  {
    RunHolds(states, steps, i);
    assert node in states[i].state.nodes;
  }

  /**
    * The clock is really read before the lock is taken. An opening that read it at `readAt` and
    * gets the lock late brings an ended session back exactly when the session still ran at `readAt`
    * and the time it adds reaches past the present.
    */
  lemma StaleOpenRevivesExactlyWhen(s: System, node: nat, id: nat, readAt: int)
    requires Invariant(s) && Holds(s.state, node) && s.state.nodes[node].session.value.id == id
    requires !Accepted(s, node, id)
    ensures Accepts(OpenOf(s.state, node, readAt).0, node, id, s.clock) <==>
      Millis(s.state.nodes[node].session.value.expiresAt) > Millis(readAt)
        && Millis(readAt + SESSION_TTL) > Millis(s.clock)
  {
    OpenTouchesOne(s.state, node, readAt);
  }
}
