/** src/protocol.rs: one connection as a transition system.

    A reader thread and a writer thread share a slot of the node: the table entry, which holds the
    only sender, and the queue. One action is one lock hold, queue operation, read, write, drop or
    join. The rest of the node is `Relay` (a broadcast) and `Evict` (a removal by another lock
    holder); the network is `Arrive` and `PeerCloses`, and chooses how much every read and write
    moves. `Shared` is why nothing else of the node matters here. */
module Connection {
  import opened Wrappers
  import opened Bytes
  import opened Versions
  import opened Messages
  import opened Node
  import opened Protocol

  /** How `read_loop` returns; `PeerClosed` is its one Ok. */
  datatype End =
    | PeerClosed
    | ReadFailed
    | Unparseable(frame: FrameError)
    | HandshakeRefused(event: HandshakeError)
    | Overflowed
    | TooLate

  datatype Reader =
    | Reading                       // blocked in read
    | Draining                      // at the head of the loop over complete frames
    | Handling(m: Message)          // about to advance the handshake
    | Logging(m: Message)           // about to take the lock for the log
    | Delivering(reply: Message)    // about to send through the table
    | Checking                      // about to check the deadline
    | Ended(why: End)               // out of the loop, still registered
    | Joining(why: End)             // registration dropped, waiting for the writer
    | Finished(why: End, wrote: bool)

  datatype Writer =
    | Writing(rest: seq<byte>, pinged: bool)  // inside write_all; after a ping comes the queue
    | Top                                     // at the head of the loop
    | Receiving                               // in recv_timeout
    | Returned(ok: bool)                      // out of the loop, receiver still held
    | Closing(ok: bool)                       // receiver dropped, socket not yet shut
    | Done(ok: bool)

  /** What the reader queued in reply, and what a broadcast put there: any bytes at all. */
  datatype Queued = Reply(m: Message) | Relayed(bytes: seq<byte>)

  datatype Sent = Opening(version: Version) | TimerPing(nonce: u64) | FromQueue(q: Queued)

  datatype Conn = Conn(
    slot: Slot<Queued>,
    reader: Reader,
    writer: Writer,
    shut: bool,              // our own shutdown of the socket
    peerClosed: bool,
    inbound: seq<byte>,      // arrived, not yet read
    buffer: seq<byte>,       // recv_buffer
    ready: bool,             // the reader's latch
    taken: seq<byte>,        // history: every byte read
    seen: seq<Message>,      // history: every message parsed
    accepted: seq<Queued>,   // history: every message a queue took
    sent: seq<Sent>,         // history: every message the writer began to write
    out: seq<byte>)          // history: every byte the socket took

  datatype Action =
    | Read(n: nat) | ReadEof | ReadRetry | ReadFail
    | Parse | AdvanceState | Log | DeliverReply | Check(expired: bool) | Unregister | Join
    | Write(n: nat) | WriteFail | Turn | PingDue(nonce: u64) | Receive | Timeout | Disconnected | HangUp | Shutdown
    | Relay(bytes: seq<byte>) | Evict | Arrive(bytes: seq<byte>) | PeerCloses

  function Start(h: Hasher, version: Version): Conn {
    Conn(Slot(Some(AwaitingVersion), Queue([], true)), Reading, Writing(Frame(h, VersionMsg(version)), false),
         false, false, [], [], false, [], [], [], [Opening(version)], [])
  }

  function QueuedBytes(h: Hasher, q: Queued): seq<byte> {
    match q
    case Reply(m) => Frame(h, m)
    case Relayed(bytes) => bytes
  }

  predicate Enabled(c: Conn, a: Action) {
    match a
    // After our own shutdown a read returns at once: data that had arrived, or the end.
    case Read(n) => c.reader.Reading? && 0 < n <= READ_BUFFER && n <= |c.inbound|
    case ReadEof => c.reader.Reading? && (c.shut || (c.peerClosed && c.inbound == []))
    case ReadRetry => c.reader.Reading? && !c.shut
    case ReadFail => c.reader.Reading?
    case Parse => c.reader.Draining?
    case AdvanceState => c.reader.Handling?
    case Log => c.reader.Logging?
    case DeliverReply => c.reader.Delivering?
    case Check(_) => c.reader.Checking?
    case Unregister => c.reader.Ended?
    case Join => c.reader.Joining? && c.writer.Done?
    case Write(n) => c.writer.Writing? && 0 < n <= |c.writer.rest|
    case WriteFail => c.writer.Writing?
    case Turn => c.writer.Top?
    case PingDue(_) => c.writer.Top?
    case Receive => c.writer.Receiving? && c.slot.queue.items != []
    case Timeout => c.writer.Receiving? && c.slot.queue.items == [] && c.slot.entry.Some?
    case Disconnected => c.writer.Receiving? && c.slot.queue.items == [] && c.slot.entry.None?
    case HangUp => c.writer.Returned?
    case Shutdown => c.writer.Closing?
    case Relay(_) => c.slot.entry.Some?
    case Evict => c.slot.entry.Some?
    case Arrive(bytes) => !c.shut && !c.peerClosed
    case PeerCloses => true
  }

  function ActRead(c: Conn, n: nat): Conn
    requires n <= |c.inbound|
  {
    var got := c.inbound[..n];
    c.(inbound := c.inbound[n..], buffer := c.buffer + got, taken := c.taken + got, reader := Draining)
  }

  /** One frame off the buffer, more bytes needed, or the end of the connection. */
  function ActParse(h: Hasher, c: Conn): Conn {
    match TryParse(h, c.buffer)
    case Accept(m, used) =>
      c.(buffer := c.buffer[used..], seen := c.seen + [m],
         reader := if EventOf(m).Some? then Handling(m) else Logging(m))
    case Wait => c.(reader := Checking)
    case Refuse(e) => c.(reader := Ended(Unparseable(e)))
  }

  function ActAdvance(c: Conn): Conn
    requires c.reader.Handling?
  {
    var m := c.reader.m;
    if EventOf(m).None? then c.(reader := Logging(m))
    else
      var (slot, refused) := SlotAdvance(c.slot, EventOf(m).value);
      c.(slot := slot, reader := if refused.None? then Logging(m) else Ended(HandshakeRefused(refused.value)))
  }

  function ActDeliver(c: Conn): Conn
    requires c.reader.Delivering?
  {
    var q := Reply(c.reader.reply);
    var (slot, reached) := SlotSend(c.slot, q);
    if reached then c.(slot := slot, accepted := c.accepted + [q], reader := Draining)
    else c.(slot := slot, reader := Ended(Overflowed))
  }

  function ActCheck(c: Conn, expired: bool): Conn {
    var ready := c.ready || c.slot.entry == Some(Ready);
    c.(ready := ready, reader := if !ready && expired then Ended(TooLate) else Reading)
  }

  function ActPing(h: Hasher, c: Conn, nonce: u64): Conn {
    c.(sent := c.sent + [TimerPing(nonce)], writer := Writing(Frame(h, PingMsg(nonce)), true))
  }

  function ActReceive(h: Hasher, c: Conn): Conn
    requires c.slot.queue.items != []
  {
    var items := c.slot.queue.items;
    var bytes := QueuedBytes(h, items[0]);
    c.(slot := c.slot.(queue := c.slot.queue.(items := items[1..])),
       sent := c.sent + [FromQueue(items[0])],
       writer := if bytes == [] then Top else Writing(bytes, false))
  }

  function ActWrite(c: Conn, n: nat): Conn
    requires c.writer.Writing? && n <= |c.writer.rest|
  {
    var rest := c.writer.rest[n..];
    c.(out := c.out + c.writer.rest[..n],
       writer := if rest != [] then Writing(rest, c.writer.pinged) else if c.writer.pinged then Receiving else Top)
  }

  function ActRelay(c: Conn, bytes: seq<byte>): Conn {
    var (slot, reached) := SlotSend(c.slot, Relayed(bytes));
    c.(slot := slot, accepted := if reached then c.accepted + [Relayed(bytes)] else c.accepted)
  }

  function Act(h: Hasher, c: Conn, a: Action): Conn
    requires Enabled(c, a)
  {
    match a
    case Read(n) => ActRead(c, n)
    case ReadEof => c.(reader := Ended(PeerClosed))
    case ReadRetry => c.(reader := Checking)
    case ReadFail => c.(reader := Ended(ReadFailed))
    case Parse => ActParse(h, c)
    case AdvanceState => ActAdvance(c)
    case Log =>
      var reply := ReplyTo(c.reader.m);
      c.(reader := if reply.Some? then Delivering(reply.value) else Draining)
    case DeliverReply => ActDeliver(c)
    case Check(expired) => ActCheck(c, expired)
    case Unregister => c.(slot := c.slot.(entry := None), reader := Joining(c.reader.why))
    case Join => c.(reader := Finished(c.reader.why, c.writer.ok))
    case Write(n) => ActWrite(c, n)
    case WriteFail => c.(writer := Returned(false))
    case Turn => c.(writer := Receiving)
    case PingDue(nonce) => ActPing(h, c, nonce)
    case Receive => ActReceive(h, c)
    case Timeout => c.(writer := Top)
    case Disconnected => c.(writer := Returned(true))
    case HangUp => c.(slot := c.slot.(queue := c.slot.queue.(open := false)), writer := Closing(c.writer.ok))
    case Shutdown => c.(shut := true, writer := Done(c.writer.ok))
    case Relay(bytes) => ActRelay(c, bytes)
    case Evict => c.(slot := c.slot.(entry := None))
    case Arrive(bytes) => c.(inbound := c.inbound + bytes)
    case PeerCloses => c.(peerClosed := true)
  }

  // ----- whose step changes what

  datatype Thread = ReaderThread | WriterThread | Outside

  function ThreadOf(a: Action): Thread {
    match a
    case Read(_) => ReaderThread
    case ReadEof => ReaderThread
    case ReadRetry => ReaderThread
    case ReadFail => ReaderThread
    case Parse => ReaderThread
    case AdvanceState => ReaderThread
    case Log => ReaderThread
    case DeliverReply => ReaderThread
    case Check(_) => ReaderThread
    case Unregister => ReaderThread
    case Join => ReaderThread
    case Relay(_) => Outside
    case Evict => Outside
    case Arrive(_) => Outside
    case PeerCloses => Outside
    case _ => WriterThread
  }

  /** A reader's step leaves the writer, what it wrote and the socket alone; only a reply touches the
      queue, only a parse adds a message, and without an entry nothing of the slot changes. */
  lemma ReaderFrame(h: Hasher, c: Conn, a: Action)
    requires Enabled(c, a) && ThreadOf(a) == ReaderThread
    ensures var d := Act(h, c, a);
            && d.writer == c.writer && d.sent == c.sent && d.out == c.out && d.shut == c.shut
            && d.peerClosed == c.peerClosed
            && (!a.DeliverReply? ==> d.slot.queue == c.slot.queue && d.accepted == c.accepted)
            && (!a.Parse? ==> d.seen == c.seen)
            && (!a.Read? ==> d.taken == c.taken && d.inbound == c.inbound)
            && (c.slot.entry.None? ==> d.slot == c.slot && d.accepted == c.accepted)
            && d.slot.queue.open == c.slot.queue.open
  {
    hide TryParse, SlotSend, SlotAdvance, ActDeliver, ActAdvance, ReplyTo;
    match a {
      case AdvanceState => AdvanceFrame(c);
      case DeliverReply => DeliverFrame(c);
      case _ =>
    }
  }

  lemma AdvanceFrame(c: Conn)
    requires c.reader.Handling?
    ensures var d := ActAdvance(c); d == c.(reader := d.reader, slot := d.slot)
    ensures ActAdvance(c).slot.queue == c.slot.queue
    ensures c.slot.entry.None? ==> ActAdvance(c).slot == c.slot
  {
  }

  lemma DeliverFrame(c: Conn)
    requires c.reader.Delivering?
    ensures var d := ActDeliver(c); d == c.(reader := d.reader, slot := d.slot, accepted := d.accepted)
    ensures ActDeliver(c).slot.queue.open == c.slot.queue.open
    ensures c.slot.entry.None? ==> ActDeliver(c).slot == c.slot && ActDeliver(c).accepted == c.accepted
  {
  }

  /** A writer's step leaves the reader, its buffer and the table entry alone. */
  lemma WriterFrame(h: Hasher, c: Conn, a: Action)
    requires Enabled(c, a) && ThreadOf(a) == WriterThread
    ensures var d := Act(h, c, a);
            && d.reader == c.reader && d.buffer == c.buffer && d.ready == c.ready && d.seen == c.seen
            && d.taken == c.taken && d.inbound == c.inbound && d.peerClosed == c.peerClosed
            && d.accepted == c.accepted && d.slot.entry == c.slot.entry
            && !c.writer.Done? && (c.shut ==> d.shut)
  {
    hide Frame;
  }

  /** The rest of the node can only add to the queue or take the entry away; the network can only
      add to what has arrived. */
  lemma OutsideFrame(h: Hasher, c: Conn, a: Action)
    requires Enabled(c, a) && ThreadOf(a) == Outside
    ensures var d := Act(h, c, a);
            && d.reader == c.reader && d.buffer == c.buffer && d.ready == c.ready && d.seen == c.seen
            && d.taken == c.taken
            && d.writer == c.writer && d.sent == c.sent && d.out == c.out && d.shut == c.shut
            && (d.slot.entry == c.slot.entry || d.slot.entry.None?) && d.slot.queue.open == c.slot.queue.open
            && (!a.Relay? ==> d.slot.queue == c.slot.queue && d.accepted == c.accepted)
            && (c.slot.entry.None? ==> d.slot == c.slot && d.accepted == c.accepted)
            && (!a.Arrive? ==> d.inbound == c.inbound) && (!a.PeerCloses? ==> d.peerClosed == c.peerClosed)
  {
  }

  /** The state after a schedule, if every action of it was possible when its turn came. */
  function Exec(h: Hasher, c: Conn, schedule: seq<Action>): Option<Conn>
    decreases |schedule|
  {
    if schedule == [] then Some(c)
    else if Enabled(c, schedule[0]) then Exec(h, Act(h, c, schedule[0]), schedule[1..])
    else None
  }

  // ----- projections of the histories

  function SentBytes(h: Hasher, s: Sent): seq<byte> {
    match s
    case Opening(v) => Frame(h, VersionMsg(v))
    case TimerPing(nonce) => Frame(h, PingMsg(nonce))
    case FromQueue(q) => QueuedBytes(h, q)
  }

  /** All the bytes of everything the writer began, in order. */
  function Written(h: Hasher, sent: seq<Sent>): seq<byte> {
    if sent == [] then []
    else Written(h, sent[..|sent| - 1]) + SentBytes(h, sent[|sent| - 1])
  }

  /** The queued messages among those the writer began, in order. */
  function Dequeued(sent: seq<Sent>): seq<Queued> {
    if sent == [] then []
    else
      var last := sent[|sent| - 1];
      Dequeued(sent[..|sent| - 1]) + if last.FromQueue? then [last.q] else []
  }

  function Events(ms: seq<Message>): seq<HandshakeEvent> {
    if ms == [] then []
    else
      var event := EventOf(ms[|ms| - 1]);
      Events(ms[..|ms| - 1]) + if event.Some? then [event.value] else []
  }

  /** The replies among the queued, in order. */
  function RepliesAmong(qs: seq<Queued>): seq<Message> {
    if qs == [] then []
    else
      var last := qs[|qs| - 1];
      RepliesAmong(qs[..|qs| - 1]) + if last.Reply? then [last.m] else []
  }

  /** A verack for every version and a pong for every ping. */
  function RepliesTo(ms: seq<Message>): seq<Message> {
    if ms == [] then []
    else RepliesTo(ms[..|ms| - 1]) + OneReply(ms[|ms| - 1])
  }

  function OneReply(m: Message): seq<Message> {
    if ReplyTo(m).Some? then [ReplyTo(m).value] else []
  }

  /** How many bytes are queued. */
  function BytesQueued(h: Hasher, qs: seq<Queued>): nat {
    if qs == [] then 0 else |QueuedBytes(h, qs[0])| + BytesQueued(h, qs[1..])
  }

  lemma {:induction false} BytesQueuedSnoc(h: Hasher, qs: seq<Queued>, q: Queued)
    ensures BytesQueued(h, qs + [q]) == BytesQueued(h, qs) + |QueuedBytes(h, q)|
  {
    hide QueuedBytes;
    if qs == [] {
      assert [q][1..] == [];
    } else {
      assert (qs + [q])[1..] == qs[1..] + [q];
      BytesQueuedSnoc(h, qs[1..], q);
    }
  }

  // ----- broadcasts that frame a message

  /** The message a broadcast frames, if it frames exactly one; otherwise any. */
  function Carried(h: Hasher, q: Queued): Message {
    match q
    case Reply(m) => m
    case Relayed(bytes) =>
      match TryParse(h, bytes)
      case Accept(m, _) => m
      case _ => VerackMsg
  }

  /** A broadcast that does not speak for the handshake: the frame of a ping or a pong. */
  predicate IsPlain(h: Hasher, q: Queued) {
    q.Relayed? ==> q.bytes == Frame(h, Carried(h, q)) && EventOf(Carried(h, q)).None?
  }

  predicate Plain(h: Hasher, qs: seq<Queued>) {
    forall i :: 0 <= i < |qs| ==> IsPlain(h, qs[i])
  }

  function MessageOf(h: Hasher, s: Sent): Message {
    match s
    case Opening(v) => VersionMsg(v)
    case TimerPing(nonce) => PingMsg(nonce)
    case FromQueue(q) => Carried(h, q)
  }

  function MessagesOf(h: Hasher, sent: seq<Sent>): (ms: seq<Message>)
    ensures |ms| == |sent|
  {
    seq(|sent|, i requires 0 <= i < |sent| => MessageOf(h, sent[i]))
  }

  function QueuedMessages(h: Hasher, qs: seq<Queued>): (ms: seq<Message>)
    ensures |ms| == |qs|
  {
    seq(|qs|, i requires 0 <= i < |qs| => Carried(h, qs[i]))
  }

  lemma Snoc<T>(s: seq<T>, x: T)
    ensures (s + [x])[..|s + [x]| - 1] == s && (s + [x])[|s + [x]| - 1] == x && s + [x] != []
  {
  }
}
