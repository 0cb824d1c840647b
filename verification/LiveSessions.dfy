/** Live inspection sessions: who is being watched, under which number, until when. */
module LiveSessions {
  import opened Wrappers
  import opened Integers

  /** Instants are microseconds; the comparison that ends a session is made in milliseconds. */
  const SESSION_TTL := 45_000_000
  const COMMAND_QUEUE := 3

  datatype Session = Session(id: nat, expiresAt: int)

  datatype Command = Start(id: nat, expiresAt: int) | Stop

  /** A node's command stream: everything sent into it, how much the node took, whether it hung up. */
  datatype Pipe = Pipe(sent: seq<Command>, taken: nat, closed: bool)

  datatype NodeLive = NodeLive(commands: Option<Pipe>, session: Option<Session>)

  datatype Reach = Told | Absent

  type Nodes = map<nat, NodeLive>

  datatype State = State(nodes: Nodes, nextId: nat)

  const NOBODY := NodeLive(None, None)

  function Millis(at: int): int {
    at / 1_000
  }

  function Live(session: Option<Session>, now: int): Option<Session> {
    if session.Some? && Millis(session.value.expiresAt) > Millis(now) then session else None
  }

  function Entry(nodes: Nodes, node: nat): NodeLive {
    if node in nodes then nodes[node] else NOBODY
  }

  /** A stream that is full or hung up is dropped. */
  function Sent(entry: NodeLive, command: Command): NodeLive {
    match entry.commands
    case None => entry
    case Some(pipe) =>
      if pipe.closed || |pipe.sent| - pipe.taken >= COMMAND_QUEUE then entry.(commands := None)
      else entry.(commands := Some(pipe.(sent := pipe.sent + [command])))
  }

  function CommandOf(session: Session): Command {
    Start(session.id, session.expiresAt)
  }

  function WatchOf(s: State, node: nat, now: int): State {
    var entry := Entry(s.nodes, node).(commands := Some(Pipe([], 0, false)));
    var running := Live(entry.session, now);
    s.(nodes := s.nodes[node := if running.Some? then Sent(entry, CommandOf(running.value)) else entry])
  }

  /** The 64-bit counter of sessions wraps. */
  function Increment(n: nat): nat {
    if n >= U64_MAX then 0 else n + 1
  }

  function OpenOf(s: State, node: nat, now: int): (State, Reach) {
    var entry := Entry(s.nodes, node);
    var running := Live(entry.session, now);
    var id := if running.Some? then running.value.id else s.nextId;
    var session := Session(id, now + SESSION_TTL);
    var nextId := if running.Some? then s.nextId else Increment(s.nextId);
    var entered := entry.(session := Some(session));
    if entry.commands.None? then (State(s.nodes[node := entered], nextId), Absent)
    else (State(s.nodes[node := Sent(entered, CommandOf(session))], nextId), Told)
  }

  function CloseOf(s: State, node: nat): State {
    if node !in s.nodes then s
    else s.(nodes := s.nodes[node := Sent(s.nodes[node].(session := None), Stop)])
  }

  function Swept(entry: NodeLive, now: int): NodeLive {
    var heard := if entry.commands.Some? && entry.commands.value.closed then entry.(commands := None) else entry;
    if heard.session.Some? && Live(heard.session, now).None? then Sent(heard.(session := None), Stop) else heard
  }

  function SweepOf(s: State, now: int): State {
    s.(nodes := map node | node in s.nodes && Swept(s.nodes[node], now) != NOBODY :: Swept(s.nodes[node], now))
  }

  predicate Accepts(s: State, node: nat, id: nat, now: int) {
    var running := Live(Entry(s.nodes, node).session, now);
    running.Some? && running.value.id == id
  }

  /** Every node's live channel. The clock is read by the caller. */
  class Sessions {
    var nodes: Nodes
    var nextId: nat

    function Contents(): State
      reads this
    {
      State(nodes, nextId)
    }

    constructor ()
      ensures Contents() == State(map[], 1)
    {
      nodes, nextId := map[], 1;
    }

    method Watch(node: nat, now: int)
      modifies this
      ensures Contents() == WatchOf(old(Contents()), node, now)
    {
      var entry := Entry(nodes, node).(commands := Some(Pipe([], 0, false)));
      var running := Live(entry.session, now);
      if running.Some? {
        entry := Sent(entry, CommandOf(running.value));
      }
      nodes := nodes[node := entry];
    }

    method Open(node: nat, now: int) returns (reach: Reach)
      modifies this
      ensures (Contents(), reach) == OpenOf(old(Contents()), node, now)
    {
      var entry := Entry(nodes, node);
      var running := Live(entry.session, now);
      var id := nextId;
      if running.Some? {
        id := running.value.id;
      } else {
        nextId := Increment(nextId);
      }
      var session := Session(id, now + SESSION_TTL);
      entry := entry.(session := Some(session));
      if entry.commands.None? {
        nodes := nodes[node := entry];
        return Absent;
      }
      nodes := nodes[node := Sent(entry, CommandOf(session))];
      reach := Told;
    }

    /** Whatever ran on the node is over, at any time; the other nodes and the numbers are as before. */
    method Close(node: nat)
      modifies this
      ensures Contents() == CloseOf(old(Contents()), node)
      ensures forall id, now :: !Accepts(Contents(), node, id, now)
      ensures forall other :: other != node ==> Entry(nodes, other) == Entry(old(nodes), other)
      ensures Entry(nodes, node).commands.Some? ==>
        var before := Entry(old(nodes), node).commands;
        before.Some? && Entry(nodes, node).commands.value.sent == before.value.sent + [Stop]
    {
      if node !in nodes {
        return;
      }
      nodes := nodes[node := Sent(nodes[node].(session := None), Stop)];
    }

    method SweepOne(node: nat, now: int)
      requires node in nodes
      modifies this
      ensures nextId == old(nextId)
      ensures nodes == if Swept(old(nodes[node]), now) == NOBODY then old(nodes) - {node}
                       else old(nodes)[node := Swept(old(nodes[node]), now)]
    {
      var entry := nodes[node];
      if entry.commands.Some? && entry.commands.value.closed {
        entry := entry.(commands := None);
      }
      if entry.session.Some? && Live(entry.session, now).None? {
        entry := Sent(entry.(session := None), Stop);
      }
      nodes := if entry == NOBODY then nodes - {node} else nodes[node := entry];
    }

    method Sweep(now: int)
      modifies this
      ensures Contents() == SweepOf(old(Contents()), now)
    {
      ghost var before := nodes;
      var left := nodes.Keys;
      while left != {}
        invariant left <= before.Keys && nextId == old(nextId)
        invariant PartlySwept(before, nodes, left, now)
        decreases |left|
      {
        var node :| node in left;
        SweepOne(node, now);
        left := left - {node};
      }
      AllSwept(before, nodes, nextId, now);
    }
  }

  /** Every node is as before or swept; those still to come are as before. */
  ghost predicate PartlySwept(before: Nodes, after: Nodes, left: set<nat>, now: int) {
    && (forall node :: node in left && node in before ==> node in after && after[node] == before[node])
    && (forall node :: node !in left ==> (node in after <==> node in before && Swept(before[node], now) != NOBODY))
    && (forall node :: node !in left && node in after && node in before ==> after[node] == Swept(before[node], now))
  }

  lemma AllSwept(before: Nodes, after: Nodes, nextId: nat, now: int)
    requires PartlySwept(before, after, {}, now)
    ensures State(after, nextId) == SweepOf(State(before, nextId), now)
  {
    assert after == SweepOf(State(before, nextId), now).nodes;
  }

  // What each call does, in plain terms.

  /** A session runs until its expiry, told apart in milliseconds. */
  ghost predicate Runs(entry: NodeLive, now: int) {
    entry.session.Some? && entry.session.value.expiresAt / 1_000 > now / 1_000
  }

  /** A stream takes a command while it is open and fewer than three wait in it; otherwise it is dropped. */
  ghost predicate Delivered(before: Option<Pipe>, after: Option<Pipe>, command: Command) {
    if before.Some? && !before.value.closed && |before.value.sent| - before.value.taken < 3
    then after == Some(Pipe(before.value.sent + [command], before.value.taken, false))
    else after == None
  }

  ghost predicate OthersStay(before: Nodes, after: Nodes, node: nat) {
    forall other :: other != node ==>
      Entry(before, other) == Entry(after, other) && (other in before <==> other in after)
  }

  /** Watching replaces the stream by an empty one, and the command of a running session is all it holds. */
  lemma WatchIsExact(s: State, node: nat, now: int)
    ensures var entry, after := Entry(s.nodes, node), WatchOf(s, node, now);
      && after.nextId == s.nextId && node in after.nodes && OthersStay(s.nodes, after.nodes, node)
      && after.nodes[node] == NodeLive(
           Some(Pipe(if Runs(entry, now) then [Start(entry.session.value.id, entry.session.value.expiresAt)] else [],
                     0, false)),
           entry.session)
  {
    var entry := Entry(s.nodes, node);
    if Runs(entry, now) {
      var renewed := entry.(commands := Some(Pipe([], 0, false)));
      var command := CommandOf(entry.session.value);
      assert [] + [command] == [command];
      assert Sent(renewed, command).commands == Some(Pipe([command], 0, false));
    }
  }

  /** Opening renews for 45 seconds under the running number or the next one, and tells a connected node. */
  lemma OpenIsExact(s: State, node: nat, now: int)
    ensures var entry, (after, reach) := Entry(s.nodes, node), OpenOf(s, node, now);
      var session := Session(if Runs(entry, now) then entry.session.value.id else s.nextId, now + 45_000_000);
      && (Runs(entry, now) ==> after.nextId == s.nextId)
      && (!Runs(entry, now) ==> after.nextId == if s.nextId < 0xFFFF_FFFF_FFFF_FFFF then s.nextId + 1 else 0)
      && node in after.nodes && OthersStay(s.nodes, after.nodes, node)
      && after.nodes[node].session == Some(session)
      && Delivered(entry.commands, after.nodes[node].commands, Start(session.id, session.expiresAt))
      && (reach.Told? <==> entry.commands.Some?)
  {
  }

  /** Closing ends the session and tells a connected node to stop; an unknown node is left alone. */
  lemma CloseIsExact(s: State, node: nat)
    ensures var after := CloseOf(s, node);
      && after.nextId == s.nextId && OthersStay(s.nodes, after.nodes, node)
      && (node in after.nodes <==> node in s.nodes)
      && (node in s.nodes ==>
        && after.nodes[node].session == None
        && Delivered(s.nodes[node].commands, after.nodes[node].commands, Stop))
  {
  }

  /** Sweeping drops closed streams, ends sessions that ran out with a stop, and leaves the rest as it was. */
  lemma SweptIsExact(entry: NodeLive, now: int)
    ensures var after := Swept(entry, now);
      var heard := if entry.commands.Some? && entry.commands.value.closed then None else entry.commands;
      if entry.session.Some? && !Runs(entry, now)
      then after.session == None && Delivered(heard, after.commands, Stop)
      else after == NodeLive(heard, entry.session)
  {
  }

  /** A node is forgotten exactly when the sweep leaves it neither a stream nor a session. */
  lemma SweepIsExact(s: State, now: int, node: nat)
    ensures var after := SweepOf(s, now);
      && after.nextId == s.nextId
      && (node in after.nodes <==>
            node in s.nodes && (Swept(s.nodes[node], now).commands.Some? || Swept(s.nodes[node], now).session.Some?))
      && (node in after.nodes ==> after.nodes[node] == Swept(s.nodes[node], now))
  {
  }

  /** Only the running session's number is accepted. */
  lemma AcceptsIsExact(s: State, node: nat, id: nat, now: int)
    ensures Accepts(s, node, id, now)
      <==> node in s.nodes && Runs(s.nodes[node], now) && s.nodes[node].session.value.id == id
  {
  }
}
