/** src/node.rs: the handshake, the outbound queues and the table of peers, as values. */
module Node {
  import opened Wrappers
  import opened Versions

  const MAX_PEERS := 32
  const OUTBOUND_QUEUE := 128

  type PeerId = nat

  datatype Origin = Dialled | Accepted

  // ----- the handshake

  datatype Handshake = AwaitingVersion | AwaitingVerack | Ready

  datatype HandshakeEvent = VersionArrived | VerackArrived

  datatype HandshakeError = VerackFirst | VersionAgain | VerackAgain | NoSuchPeer

  function Advance(state: Handshake, event: HandshakeEvent): Result<Handshake, HandshakeError> {
    match (state, event)
    case (AwaitingVersion, VersionArrived) => Ok(AwaitingVerack)
    case (AwaitingVerack, VerackArrived) => Ok(Ready)
    case (AwaitingVersion, VerackArrived) => Err(VerackFirst)
    case (_, VersionArrived) => Err(VersionAgain)
    case (_, VerackArrived) => Err(VerackAgain)
  }

  /** The state after a history of events, or None if one of them was out of order. */
  function Follow(events: seq<HandshakeEvent>): Option<Handshake> {
    if events == [] then
      Some(AwaitingVersion)
    else
      var before := Follow(events[..|events| - 1]);
      if before.None? then None
      else match Advance(before.value, events[|events| - 1])
        case Ok(after) => Some(after)
        case Err(_) => None
  }

  const WHOLE_HANDSHAKE: seq<HandshakeEvent> := [VersionArrived, VerackArrived]

  /** The handshake accepts exactly the prefixes of version, verack, and its state is their length. */
  lemma {:induction false} HandshakeAcceptsPrefixes(events: seq<HandshakeEvent>)
    ensures Follow(events).Some? <==> events <= WHOLE_HANDSHAKE
    ensures Follow(events).Some? ==>
              Follow(events).value ==
              if |events| == 0 then AwaitingVersion else if |events| == 1 then AwaitingVerack else Ready
  {
    if events != [] {
      var before := events[..|events| - 1];
      HandshakeAcceptsPrefixes(before);
      if events <= WHOLE_HANDSHAKE {
        assert before <= WHOLE_HANDSHAKE;
      }
    }
  }

  // ----- one queue, and one peer's slot

  /** A bounded channel: what it holds, and whether its receiver is still there. */
  datatype Queue<M> = Queue(items: seq<M>, open: bool)

  function TrySend<M>(q: Queue<M>, m: M): Option<Queue<M>> {
    if q.open && |q.items| < OUTBOUND_QUEUE then Some(q.(items := q.items + [m])) else None
  }

  /** One connection's share of the node: its table entry, while it has one, and its queue, which
      the writer goes on holding after the entry is gone. The entry holds the only sender. */
  datatype Slot<M> = Slot(entry: Option<Handshake>, queue: Queue<M>)

  function SlotSend<M>(s: Slot<M>, m: M): (Slot<M>, bool) {
    if s.entry.None? then (s, false)
    else match TrySend(s.queue, m)
      case Some(q) => (s.(queue := q), true)
      case None => (s.(entry := None), false)
  }

  function SlotAdvance<M>(s: Slot<M>, event: HandshakeEvent): (Slot<M>, Option<HandshakeError>) {
    if s.entry.None? then (s, Some(NoSuchPeer))
    else match Advance(s.entry.value, event)
      case Ok(after) => (s.(entry := Some(after)), None)
      case Err(e) => (s, Some(e))
  }

  // ----- the table, as a value

  datatype Refused = AtCapacity | AlreadyDialled

  datatype Peer<M> = Peer(address: SocketAddr, origin: Origin, handshake: Handshake, queue: Queue<M>)

  datatype Table<M> = Table(peers: map<PeerId, Peer<M>>, nextId: PeerId)

  predicate IsDialled<M>(t: Table<M>, address: SocketAddr) {
    exists id :: id in t.peers && t.peers[id].origin == Dialled && t.peers[id].address == address
  }

  function Register<M>(t: Table<M>, address: SocketAddr, origin: Origin, queue: Queue<M>)
    : (Table<M>, Result<PeerId, Refused>)
  {
    if origin == Dialled && IsDialled(t, address) then (t, Err(AlreadyDialled))
    else if |t.peers| >= MAX_PEERS then (t, Err(AtCapacity))
    else (Table(t.peers[t.nextId := Peer(address, origin, AwaitingVersion, queue)], t.nextId + 1), Ok(t.nextId))
  }

  function Remove<M>(t: Table<M>, id: PeerId): Table<M> {
    t.(peers := t.peers - {id})
  }

  function AdvanceHandshake<M>(t: Table<M>, id: PeerId, event: HandshakeEvent)
    : (Table<M>, Result<Handshake, HandshakeError>)
  {
    if id !in t.peers then (t, Err(NoSuchPeer))
    else
      var after := Advance(t.peers[id].handshake, event);
      if after.Err? then (t, after) else (t.(peers := t.peers[id := t.peers[id].(handshake := after.value)]), after)
  }

  function SendTo<M>(t: Table<M>, id: PeerId, m: M): (Table<M>, bool) {
    if id !in t.peers then (t, false)
    else match TrySend(t.peers[id].queue, m)
      case Some(q) => (t.(peers := t.peers[id := t.peers[id].(queue := q)]), true)
      case None => (Remove(t, id), false)
  }

  /** The peers whose queue takes `m`. */
  function Reached<M>(t: Table<M>, m: M): set<PeerId> {
    set id | id in t.peers && TrySend(t.peers[id].queue, m).Some?
  }

  function Broadcast<M>(t: Table<M>, m: M): (Table<M>, nat) {
    (t.(peers := map id | id in Reached(t, m) :: t.peers[id].(queue := TrySend(t.peers[id].queue, m).value)),
     |Reached(t, m)|)
  }

  // ----- every operation that takes the lock, and what all of them keep

  datatype Op<M> =
    | DoRegister(address: SocketAddr, origin: Origin)
    | DoRemove(id: PeerId)
    | DoAdvance(id: PeerId, event: HandshakeEvent)
    | DoSend(id: PeerId, m: M)
    | DoBroadcast(m: M)
    | DoReceive(id: PeerId)
    | DoHangUp(id: PeerId)

  function WithQueue<M>(t: Table<M>, id: PeerId, q: Queue<M>): Table<M>
    requires id in t.peers
  {
    t.(peers := t.peers[id := t.peers[id].(queue := q)])
  }

  function Apply<M>(t: Table<M>, op: Op<M>): Table<M> {
    match op
    case DoRegister(address, origin) => Register(t, address, origin, Queue([], true)).0
    case DoRemove(id) => Remove(t, id)
    case DoAdvance(id, event) => AdvanceHandshake(t, id, event).0
    case DoSend(id, m) => SendTo(t, id, m).0
    case DoBroadcast(m) => Broadcast(t, m).0
    case DoReceive(id) =>
      if id in t.peers && t.peers[id].queue.items != [] then
        WithQueue(t, id, t.peers[id].queue.(items := t.peers[id].queue.items[1..]))
      else t
    case DoHangUp(id) =>
      if id in t.peers then WithQueue(t, id, t.peers[id].queue.(open := false)) else t
  }

  function Run<M>(t: Table<M>, ops: seq<Op<M>>): Table<M>
    decreases |ops|
  {
    if ops == [] then t else Run(Apply(t, ops[0]), ops[1..])
  }

  ghost predicate TableInv<M>(t: Table<M>) {
    && |t.peers| <= MAX_PEERS
    && (forall id :: id in t.peers ==> id < t.nextId && |t.peers[id].queue.items| <= OUTBOUND_QUEUE)
    && (forall i, j :: i in t.peers && j in t.peers && i != j && t.peers[i].origin == t.peers[j].origin == Dialled ==>
          t.peers[i].address != t.peers[j].address)
  }

  /** No operation invents a peer, moves one to another id, or changes who it is. */
  ghost predicate Keeps<M>(t: Table<M>, after: Table<M>) {
    && t.nextId <= after.nextId
    && forall id :: id in after.peers && id < t.nextId ==>
         id in t.peers && after.peers[id].address == t.peers[id].address && after.peers[id].origin == t.peers[id].origin
  }

  lemma Shrinks<M>(small: map<PeerId, Peer<M>>, large: map<PeerId, Peer<M>>)
    requires small.Keys <= large.Keys
    ensures |small| <= |large|
  {
    assert |large.Keys| == |small.Keys| + |large.Keys - small.Keys|;
  }

  lemma NarrowingKeeps<M>(t: Table<M>, after: Table<M>)
    requires TableInv(t) && after.nextId == t.nextId && after.peers.Keys <= t.peers.Keys
    requires forall id :: id in after.peers ==>
               && after.peers[id].address == t.peers[id].address && after.peers[id].origin == t.peers[id].origin
               && |after.peers[id].queue.items| <= OUTBOUND_QUEUE
    ensures TableInv(after) && Keeps(t, after)
  {
    Shrinks(after.peers, t.peers);
  }

  lemma RegisteringKeeps<M>(t: Table<M>, address: SocketAddr, origin: Origin)
    requires TableInv(t)
    ensures var after := Register(t, address, origin, Queue([], true)).0; TableInv(after) && Keeps(t, after)
  {
    var (after, got) := Register(t, address, origin, Queue([], true));
    if got.Ok? {
      assert |after.peers| == |t.peers| + 1;
    }
  }

  lemma OpKeepsTable<M>(t: Table<M>, op: Op<M>)
    requires TableInv(t)
    ensures TableInv(Apply(t, op)) && Keeps(t, Apply(t, op))
  {
    if op.DoRegister? {
      RegisteringKeeps(t, op.address, op.origin);
    } else {
      hide Keeps, Register;
      assert Apply(t, op).peers.Keys <= t.peers.Keys;
      NarrowingKeeps(t, Apply(t, op));
    }
  }

  /** Over every run of lock-held steps: at most 32 peers, queues of at most 128, dialled addresses
      distinct, and no entry older than the run changes its owner. */
  lemma {:induction false} RunKeepsTable<M>(t: Table<M>, ops: seq<Op<M>>)
    requires TableInv(t)
    ensures TableInv(Run(t, ops)) && Keeps(t, Run(t, ops))
    decreases |ops|
  {
    if ops != [] {
      hide Apply, TableInv;
      OpKeepsTable(t, ops[0]);
      RunKeepsTable(Apply(t, ops[0]), ops[1..]);
    }
  }

  /** However late a registration is dropped, its id still means it or nobody: no later
      registration gets the same id, and removing it leaves every other peer as it was. */
  lemma LateDropIsHarmless<M>(t: Table<M>, address: SocketAddr, origin: Origin, ops: seq<Op<M>>)
    requires TableInv(t) && Register(t, address, origin, Queue([], true)).1.Ok?
    ensures var (registered, got) := Register(t, address, origin, Queue([], true));
            var later := Run(registered, ops);
            var id := got.value;
            && id !in t.peers && id in registered.peers
            && (id in later.peers ==> later.peers[id].address == address && later.peers[id].origin == origin)
            && (forall a, o, q :: Register(later, a, o, q).1 != Ok(id))
            && (forall other :: other in later.peers && other != id ==>
                  other in Remove(later, id).peers && Remove(later, id).peers[other] == later.peers[other])
  {
    hide Run;
    OpKeepsTable(t, DoRegister(address, origin));
    RunKeepsTable(Register(t, address, origin, Queue([], true)).0, ops);
  }

  // ----- one peer's view of it all

  function SlotOf<M>(t: Table<M>, id: PeerId): Slot<M>
    requires id in t.peers
  {
    Slot(Some(t.peers[id].handshake), t.peers[id].queue)
  }

  function SlotApply<M>(s: Slot<M>, id: PeerId, op: Op<M>): Slot<M> {
    match op
    case DoRegister(_, _) => s
    case DoRemove(i) => if i == id then s.(entry := None) else s
    case DoAdvance(i, event) => if i == id then SlotAdvance(s, event).0 else s
    case DoSend(i, m) => if i == id then SlotSend(s, m).0 else s
    case DoBroadcast(m) => SlotSend(s, m).0
    case DoReceive(i) =>
      if i == id && s.queue.items != [] then s.(queue := s.queue.(items := s.queue.items[1..])) else s
    case DoHangUp(i) => if i == id then s.(queue := s.queue.(open := false)) else s
  }

  /** Every operation acts on a peer through its own slot alone, so one connection can be studied
      with the rest of the node reduced to broadcasts and removals. */
  lemma OpsAreLocal<M>(t: Table<M>, id: PeerId, op: Op<M>)
    requires TableInv(t) && id in t.peers
    ensures var s := SlotApply(SlotOf(t, id), id, op);
            && (id in Apply(t, op).peers <==> s.entry.Some?)
            && (id in Apply(t, op).peers ==> SlotOf(Apply(t, op), id) == s)
  {
  }

  // ----- what each operation answers

  /** The three ways out of order. */
  lemma WhenOutOfOrder(state: Handshake, event: HandshakeEvent)
    ensures Advance(state, event) == Err(VerackFirst) <==> event == VerackArrived && state == AwaitingVersion
    ensures Advance(state, event) == Err(VersionAgain) <==> event == VersionArrived && state != AwaitingVersion
    ensures Advance(state, event) == Err(VerackAgain) <==> event == VerackArrived && state == Ready
    ensures Advance(state, event) != Err(NoSuchPeer)
  {
  }

  /** A queue takes a message exactly when its receiver is there and fewer than 128 wait, at its end. */
  lemma WhenTaken<M>(q: Queue<M>, m: M)
    ensures TrySend(q, m).Some? <==> q.open && |q.items| < 128
    ensures TrySend(q, m).Some? ==> TrySend(q, m).value == Queue(q.items + [m], true)
  {
  }

  /** Only a second dial of an address is refused as such, whatever else is full, and only from 32
      peers on is anybody else: so an accepted connection from a dialled address is let in. The newcomer
      gets the next id, an untouched queue and no handshake; nobody else notices. */
  lemma WhenRegistered<M>(t: Table<M>, address: SocketAddr, origin: Origin, queue: Queue<M>)
    ensures var (after, got) := Register(t, address, origin, queue);
            && (got == Err(AlreadyDialled) <==>
                  origin == Dialled
                  && exists id :: id in t.peers && t.peers[id].origin == Dialled && t.peers[id].address == address)
            && (got == Err(AtCapacity) <==> got != Err(AlreadyDialled) && |t.peers| >= 32)
            && (got.Err? ==> after == t)
            && (got.Ok? ==>
                  && got.value == t.nextId && after.nextId == t.nextId + 1
                  && after.peers == t.peers[t.nextId := Peer(address, origin, AwaitingVersion, queue)])
  {
  }

  /** True exactly when the message was queued, and then only that queue has changed; otherwise the
      peer, if there was one, is gone, and nobody else is touched. */
  lemma WhenSent<M>(t: Table<M>, id: PeerId, m: M)
    ensures var (after, reached) := SendTo(t, id, m);
            && (reached <==> id in t.peers && t.peers[id].queue.open && |t.peers[id].queue.items| < 128)
            && after.nextId == t.nextId
            && (reached ==>
                  after.peers.Keys == t.peers.Keys
                  && after.peers[id] == t.peers[id].(queue := Queue(t.peers[id].queue.items + [m], true)))
            && (!reached ==> after.peers.Keys == t.peers.Keys - {id})
            && (forall other :: other in after.peers && other != id ==>
                  other in t.peers && after.peers[other] == t.peers[other])
  {
  }

  /** An error changes nothing; otherwise only that peer's state moves on. */
  lemma WhenAdvanced<M>(t: Table<M>, id: PeerId, event: HandshakeEvent)
    ensures var (after, got) := AdvanceHandshake(t, id, event);
            && (got == Err(NoSuchPeer) <==> id !in t.peers)
            && (id in t.peers ==> got == Advance(t.peers[id].handshake, event))
            && (got.Err? ==> after == t)
            && (got.Ok? ==> after == t.(peers := t.peers[id := t.peers[id].(handshake := got.value)]))
  {
  }

  /** A broadcast is queued for exactly the peers whose receiver is there and whose queue has room;
      they are counted, and the others are gone. */
  lemma WhenBroadcast<M>(t: Table<M>, m: M)
    ensures var (after, delivered) := Broadcast(t, m);
            && after.nextId == t.nextId && delivered == |after.peers|
            && (forall id :: id in after.peers <==>
                  id in t.peers && t.peers[id].queue.open && |t.peers[id].queue.items| < 128)
            && (forall id :: id in after.peers ==>
                  after.peers[id] == t.peers[id].(queue := Queue(t.peers[id].queue.items + [m], true)))
  {
    var after := Broadcast(t, m).0;
    assert after.peers.Keys == Reached(t, m);
  }

  lemma WhenRemoved<M>(t: Table<M>, id: PeerId)
    ensures Remove(t, id).nextId == t.nextId && Remove(t, id).peers == t.peers - {id}
  {
  }
}
