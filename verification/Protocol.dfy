/** src/protocol.rs: what a connection's reader does with each message, against the shared table. */
module Protocol {
  import opened Wrappers
  import opened Bytes
  import opened Messages
  import opened Framing
  import opened Node
  import opened PeerTables

  const READ_BUFFER := 4096

  datatype HandleError = OutOfOrder(event: HandshakeError) | CannotKeepUp

  function EventOf(m: Message): Option<HandshakeEvent> {
    match m
    case VersionMsg(_) => Some(VersionArrived)
    case VerackMsg => Some(VerackArrived)
    case PingMsg(_) => None
    case PongMsg(_) => None
  }

  function ReplyTo(m: Message): Option<Message> {
    match m
    case VersionMsg(_) => Some(VerackMsg)
    case PingMsg(nonce) => Some(PongMsg(nonce))
    case VerackMsg => None
    case PongMsg(_) => None
  }

  // ----- with nobody else at the lock: the table before, the table after

  function Deliver(t: Table<seq<byte>>, id: PeerId, frame: seq<byte>): (Table<seq<byte>>, Option<HandleError>) {
    var (after, reached) := SendTo(t, id, frame);
    (after, if reached then None else Some(CannotKeepUp))
  }

  function Handle(h: Hasher, id: PeerId, t: Table<seq<byte>>, m: Message): (Table<seq<byte>>, Option<HandleError>) {
    match m
    case VersionMsg(_) =>
      var (t1, advanced) := AdvanceHandshake(t, id, VersionArrived);
      if advanced.Err? then (t1, Some(OutOfOrder(advanced.error))) else Deliver(t1, id, Frame(h, VerackMsg))
    case VerackMsg =>
      var (t1, advanced) := AdvanceHandshake(t, id, VerackArrived);
      (t1, if advanced.Err? then Some(OutOfOrder(advanced.error)) else None)
    case PingMsg(nonce) => Deliver(t, id, Frame(h, PongMsg(nonce)))
    case PongMsg(_) => (t, None)
  }

  function HandlerFor(h: Hasher, id: PeerId): Handler<Table<seq<byte>>, HandleError> {
    (t, m) => Handle(h, id, t, m)
  }

  class Registered {
    const node: PeerTable
    const id: PeerId

    constructor (node: PeerTable, id: PeerId)
      ensures this.node == node && this.id == id
    {
      this.node := node;
      this.id := id;
    }

    method DeliverFrame(frame: seq<byte>, ghost t: Table<seq<byte>>) returns (failure: Option<HandleError>)
      requires node.StandsFor(t)
      modifies node, node.channels
      ensures var (after, outcome) := Deliver(t, id, frame); node.StandsFor(after) && failure == outcome
      ensures node.channels == old(node.channels)
    {
      var reached := node.SendTo(id, frame, t);
      failure := if reached then None else Some(CannotKeepUp);
    }

    method HandleMessage(h: Hasher, m: Message, ghost t: Table<seq<byte>>) returns (failure: Option<HandleError>)
      requires node.StandsFor(t)
      modifies node, node.channels
      ensures var (after, outcome) := Handle(h, id, t, m); node.StandsFor(after) && failure == outcome
      ensures node.channels == old(node.channels)
    {
      hide Frame;
      match m {
        case VersionMsg(_) =>
          var advanced := node.AdvanceHandshake(id, VersionArrived, t);
          if advanced.Err? {
            return Some(OutOfOrder(advanced.error));
          }
          failure := DeliverFrame(Frame(h, VerackMsg), AdvanceHandshake(t, id, VersionArrived).0);
        case VerackMsg =>
          var advanced := node.AdvanceHandshake(id, VerackArrived, t);
          failure := if advanced.Err? then Some(OutOfOrder(advanced.error)) else None;
        case PingMsg(nonce) =>
          failure := DeliverFrame(Frame(h, PongMsg(nonce)), t);
        case PongMsg(_) =>
          failure := None;
      }
    }

    /** One read's worth of bytes. What is left in the buffer after a success is an incomplete frame. */
    method ProcessIncomingBytes(h: Hasher, recvBuffer: seq<byte>, chunk: seq<byte>, ghost t: Table<seq<byte>>)
        returns (leftover: seq<byte>, failure: Option<Failure<HandleError>>)
      requires node.StandsFor(t) && TryParse(h, recvBuffer).Wait? && |chunk| <= READ_BUFFER
      modifies node, node.channels
      ensures var d := Process(h, HandlerFor(h, id), t, recvBuffer + chunk);
              node.StandsFor(d.state) && leftover == d.leftover && failure == d.failure
      ensures failure.None? ==> TryParse(h, leftover).Wait? && |leftover| < HEADER_LENGTH + MAX_PAYLOAD_SIZE
    {
      hide TryParse, Handle;
      var buffer := recvBuffer + chunk;
      ghost var goal := Process(h, HandlerFor(h, id), t, buffer);
      ghost var now := t;
      while true
        invariant |buffer| < HEADER_LENGTH + MAX_PAYLOAD_SIZE + READ_BUFFER
        invariant node.StandsFor(now) && node.channels == old(node.channels)
        invariant Process(h, HandlerFor(h, id), now, buffer) == goal
        decreases |buffer|
      {
        var attempt := TryParseMessage(h, buffer);
        match attempt {
          case Refuse(e) => return buffer, Some(BadFrame(e));
          case Wait => return buffer, None;
          case Accept(m, used) =>
            buffer := buffer[used..];
            var rejected := HandleMessage(h, m, now);
            now := Handle(h, id, now, m).0;
            if rejected.Some? {
              return buffer, Some(Rejected(rejected.value));
            }
        }
      }
    }
  }

  // ----- what a message does, by its kind

  lemma EventsAndReplies(m: Message)
    ensures EventOf(m) == Some(VersionArrived) <==> m.VersionMsg?
    ensures EventOf(m) == Some(VerackArrived) <==> m.VerackMsg?
    ensures m.VersionMsg? ==> ReplyTo(m) == Some(VerackMsg)
    ensures m.PingMsg? ==> ReplyTo(m) == Some(PongMsg(m.nonce))
    ensures m.VerackMsg? || m.PongMsg? ==> ReplyTo(m) == None
  {
  }

  /** First the handshake moves, if the message has a part in it; refused, nothing else happens. Then
      the reply, if it asks for one, is framed and queued for the peer it came from; not queued, the
      connection fails. */
  lemma HandledInOrder(h: Hasher, id: PeerId, t: Table<seq<byte>>, m: Message)
    ensures var (after, failure) := Handle(h, id, t, m);
            var (advanced, refused) :=
              match EventOf(m)
              case Some(event) =>
                var (t1, got) := AdvanceHandshake(t, id, event);
                (t1, if got.Err? then Some(got.error) else None)
              case None => (t, None);
            if refused.Some? then
              after == advanced == t && failure == Some(OutOfOrder(refused.value))
            else if ReplyTo(m).None? then
              after == advanced && failure == None
            else
              var (sent, reached) := SendTo(advanced, id, Frame(h, ReplyTo(m).value));
              after == sent && failure == if reached then None else Some(CannotKeepUp)
  {
    hide Frame, SendTo;
  }

  /** A verack before any version ends the connection at once, whatever follows it in the buffer. */
  lemma VerackFirstEndsIt(h: Hasher, id: PeerId, t: Table<seq<byte>>, rest: seq<byte>)
    requires id in t.peers && t.peers[id].handshake == AwaitingVersion
    ensures Process(h, HandlerFor(h, id), t, Frame(h, VerackMsg) + rest) ==
            Drained(t, rest, Some(Rejected(OutOfOrder(VerackFirst))))
  {
    hide Frame, Process;
    OneMessage(h, HandlerFor(h, id), t, VerackMsg, rest);
  }
}
