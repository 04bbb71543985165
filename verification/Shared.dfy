/** src/node.rs and src/protocol.rs: the table and one connection, side by side. Every step of a
    connection that touches its slot is one operation on the table under the node's lock, and however
    the rest of the node interleaves, the connection sees of the table exactly its slot. */
module Shared {
  import opened Wrappers
  import opened Bytes
  import opened Versions
  import opened Messages
  import opened Node
  import opened Protocol
  import opened Connection
  import opened Runs

  /** The table operation that a step of connection `id` performs, if any. */
  function OpOf(c: Conn, id: PeerId, a: Action): Option<Op<Queued>>
    requires Enabled(c, a)
  {
    match a
    case AdvanceState =>
      if EventOf(c.reader.m).Some? then Some(DoAdvance(id, EventOf(c.reader.m).value)) else None
    case DeliverReply => Some(DoSend(id, Reply(c.reader.reply)))
    case Unregister => Some(DoRemove(id))
    case Receive => Some(DoReceive(id))
    case HangUp => Some(DoHangUp(id))
    case Relay(bytes) => Some(DoBroadcast(Relayed(bytes)))
    case Evict => Some(DoRemove(id))
    case _ => None
  }

  /** A step changes the slot as its operation does, and not at all if it performs none. */
  lemma StepIsItsOp(h: Hasher, c: Conn, id: PeerId, a: Action)
    requires Enabled(c, a)
    ensures var op := OpOf(c, id, a);
            Act(h, c, a).slot == if op.Some? then SlotApply(c.slot, id, op.value) else c.slot
  {
    hide TryParse, Frame, QueuedBytes, TrySend;
  }

  // ----- the table and the connection in step

  /** A step of the connection, or something else happening under the lock. */
  datatype Beat = Ours(a: Action) | Theirs(op: Op<Queued>)

  /** An operation that leaves connection `id` alone: on another peer, or a broadcast it has no
      entry to receive. What does reach its entry is an action of the connection. */
  predicate Elsewhere(c: Conn, id: PeerId, op: Op<Queued>) {
    match op
    case DoRegister(_, _) => true
    case DoRemove(i) => i != id
    case DoAdvance(i, _) => i != id
    case DoSend(i, _) => i != id
    case DoBroadcast(_) => c.slot.entry.None?
    case DoReceive(i) => i != id
    case DoHangUp(i) => i != id
  }

  predicate CanBeat(c: Conn, id: PeerId, b: Beat) {
    match b
    case Ours(a) => Enabled(c, a)
    case Theirs(op) => Elsewhere(c, id, op)
  }

  function TableBeat(t: Table<Queued>, c: Conn, id: PeerId, b: Beat): Table<Queued>
    requires CanBeat(c, id, b)
  {
    match b
    case Ours(a) => if OpOf(c, id, a).Some? then Apply(t, OpOf(c, id, a).value) else t
    case Theirs(op) => Apply(t, op)
  }

  function ConnBeat(h: Hasher, c: Conn, id: PeerId, b: Beat): Conn
    requires CanBeat(c, id, b)
  {
    match b
    case Ours(a) => Act(h, c, a)
    case Theirs(_) => c
  }

  /** The entry of `id` in the table is what the connection takes it to be, and its id is spent. */
  ghost predicate InStep(t: Table<Queued>, c: Conn, id: PeerId) {
    && TableInv(t) && id < t.nextId
    && (id in t.peers <==> c.slot.entry.Some?)
    && (id in t.peers ==> SlotOf(t, id) == c.slot)
  }

  lemma SpentIdStaysOut(t: Table<Queued>, id: PeerId, op: Op<Queued>)
    requires TableInv(t) && id < t.nextId && id !in t.peers
    ensures id !in Apply(t, op).peers && id < Apply(t, op).nextId
  {
    hide Apply;
    OpKeepsTable(t, op);
  }

  lemma OpKeepsStep(t: Table<Queued>, c: Conn, id: PeerId, op: Op<Queued>, d: Conn)
    requires InStep(t, c, id) && d.slot == SlotApply(c.slot, id, op)
    ensures InStep(Apply(t, op), d, id)
  {
    hide Apply, TableInv, SlotApply, SlotOf;
    OpKeepsTable(t, op);
    if id in t.peers {
      OpsAreLocal(t, id, op);
    } else {
      SpentIdStaysOut(t, id, op);
      GoneStaysGone(c.slot, id, op);
    }
  }

  lemma GoneStaysGone(s: Slot<Queued>, id: PeerId, op: Op<Queued>)
    requires s.entry.None?
    ensures SlotApply(s, id, op).entry.None?
  {
  }

  lemma ElsewhereIsElsewhere(c: Conn, id: PeerId, op: Op<Queued>)
    requires Elsewhere(c, id, op)
    ensures SlotApply(c.slot, id, op) == c.slot
  {
  }

  lemma BeatKeepsStep(h: Hasher, t: Table<Queued>, c: Conn, id: PeerId, b: Beat)
    requires InStep(t, c, id) && CanBeat(c, id, b)
    ensures InStep(TableBeat(t, c, id, b), ConnBeat(h, c, id, b), id)
  {
    hide Apply, TableInv, SlotApply, SlotOf, Act, Enabled, Elsewhere, OpOf;
    match b {
      case Ours(a) =>
        StepIsItsOp(h, c, id, a);
        if OpOf(c, id, a).Some? {
          OpKeepsStep(t, c, id, OpOf(c, id, a).value, Act(h, c, a));
        }
      case Theirs(op) =>
        ElsewhereIsElsewhere(c, id, op);
        OpKeepsStep(t, c, id, op, c);
    }
  }

  function Play(h: Hasher, t: Table<Queued>, c: Conn, id: PeerId, beats: seq<Beat>): Option<(Table<Queued>, Conn)>
    decreases |beats|
  {
    if beats == [] then Some((t, c))
    else if CanBeat(c, id, beats[0]) then
      Play(h, TableBeat(t, c, id, beats[0]), ConnBeat(h, c, id, beats[0]), id, beats[1..])
    else None
  }

  function OursAmong(beats: seq<Beat>): seq<Action> {
    if beats == [] then []
    else (if beats[0].Ours? then [beats[0].a] else []) + OursAmong(beats[1..])
  }

  /** However the connection's steps interleave with the rest of the node's, the table and the
      connection never disagree about its entry, and the connection's steps alone are a run of it. */
  lemma {:induction false} PlayProjects(h: Hasher, t: Table<Queued>, c: Conn, id: PeerId, beats: seq<Beat>)
    requires InStep(t, c, id) && Play(h, t, c, id, beats).Some?
    ensures var (after, d) := Play(h, t, c, id, beats).value;
            InStep(after, d, id) && Exec(h, c, OursAmong(beats)) == Some(d)
    decreases |beats|
  {
    hide InStep, Act, Enabled, Elsewhere, TableBeat;
    if beats != [] {
      var b := beats[0];
      BeatKeepsStep(h, t, c, id, b);
      PlayProjects(h, TableBeat(t, c, id, b), ConnBeat(h, c, id, b), id, beats[1..]);
      if b.Ours? {
        assert OursAmong(beats)[0] == b.a && OursAmong(beats)[1..] == OursAmong(beats[1..]);
      } else {
        assert OursAmong(beats) == OursAmong(beats[1..]);
      }
    }
  }

  /** From registration on: a connection inside any node is one of the runs studied by itself. */
  lemma ConnectionInTheNode(
      h: Hasher, v: Version, t: Table<Queued>, address: SocketAddr, origin: Origin, beats: seq<Beat>)
    requires TableInv(t) && Register(t, address, origin, Queue([], true)).1.Ok?
    ensures var (registered, got) := Register(t, address, origin, Queue([], true));
            var id := got.value;
            Play(h, registered, Start(h, v), id, beats).Some? ==>
              var (after, d) := Play(h, registered, Start(h, v), id, beats).value;
              && Reaches(h, v, OursAmong(beats), d)
              && (id in after.peers <==> d.slot.entry.Some?) && (id in after.peers ==> SlotOf(after, id) == d.slot)
  {
    hide Play, Exec, Frame;
    var (registered, got) := Register(t, address, origin, Queue([], true));
    RegisteringKeeps(t, address, origin);
    assert InStep(registered, Start(h, v), got.value);
    if Play(h, registered, Start(h, v), got.value, beats).Some? {
      PlayProjects(h, registered, Start(h, v), got.value, beats);
    }
  }
}
