/** What every step of one connection keeps, and so what holds over every run of it. */
module Invariants {
  import opened Wrappers
  import opened Bytes
  import opened Messages
  import opened Framing
  import opened Node
  import opened Protocol
  import opened Connection

  predicate InLoop(r: Reader) {
    r.Reading? || r.Draining? || r.Handling? || r.Logging? || r.Delivering? || r.Checking?
  }

  predicate Running(w: Writer) {
    w.Writing? || w.Top? || w.Receiving?
  }

  predicate ReturnedOk(w: Writer) {
    (w.Returned? || w.Closing? || w.Done?) && w.ok
  }

  function Why(r: Reader): Option<End> {
    if r.Ended? || r.Joining? || r.Finished? then Some(r.why) else None
  }

  // ----- the queue: nothing accepted is lost, duplicated or reordered

  ghost predicate QueueInv(c: Conn) {
    && c.accepted == Dequeued(c.sent) + c.slot.queue.items
    && |c.slot.queue.items| <= OUTBOUND_QUEUE
    && (c.slot.queue.open <==> Running(c.writer) || c.writer.Returned?)
    && (forall i :: 0 <= i < |c.accepted| && c.accepted[i].Reply? ==>
          c.accepted[i].m.VerackMsg? || c.accepted[i].m.PongMsg?)
    && (c.reader.Delivering? ==> c.reader.reply.VerackMsg? || c.reader.reply.PongMsg?)
  }

  lemma DequeuedSnoc(sent: seq<Sent>, s: Sent)
    ensures Dequeued(sent + [s]) == Dequeued(sent) + if s.FromQueue? then [s.q] else []
  {
    Snoc(sent, s);
  }

  lemma QueueReceive(h: Hasher, c: Conn)
    requires QueueInv(c) && Enabled(c, Receive)
    ensures QueueInv(ActReceive(h, c))
  {
    hide Dequeued, Frame;
    var items := c.slot.queue.items;
    DequeuedSnoc(c.sent, FromQueue(items[0]));
    assert items == [items[0]] + items[1..];
    assert Dequeued(c.sent) + items == Dequeued(c.sent) + [items[0]] + items[1..];
  }

  lemma QueueAccept(c: Conn, q: Queued)
    requires QueueInv(c) && (q.Reply? ==> q.m.VerackMsg? || q.m.PongMsg?)
    ensures var (slot, reached) := SlotSend(c.slot, q);
            QueueInv(c.(slot := slot, accepted := if reached then c.accepted + [q] else c.accepted))
  {
    hide Dequeued;
    Assoc3(Dequeued(c.sent), c.slot.queue.items, q);
  }

  lemma Assoc3<T>(a: seq<T>, b: seq<T>, x: T)
    ensures a + b + [x] == a + (b + [x])
  {
  }

  lemma QueueWritten(h: Hasher, c: Conn, a: Action)
    requires QueueInv(c) && Enabled(c, a) && ThreadOf(a) == WriterThread
    ensures QueueInv(Act(h, c, a))
  {
    hide Dequeued, Frame, ActReceive;
    match a {
      case PingDue(nonce) =>
        DequeuedSnoc(c.sent, TimerPing(nonce));
        assert Dequeued(c.sent) + [] == Dequeued(c.sent);
      case Receive => QueueReceive(h, c);
      case _ =>
    }
  }

  lemma QueueStep(h: Hasher, c: Conn, a: Action)
    requires QueueInv(c) && Enabled(c, a)
    ensures QueueInv(Act(h, c, a))
  {
    hide Dequeued, TryParse, SlotSend, SlotAdvance;
    match a {
      case DeliverReply => QueueAccept(c, Reply(c.reader.reply));
      case Relay(bytes) => QueueAccept(c, Relayed(bytes));
      case _ =>
        match ThreadOf(a) {
          case WriterThread => QueueWritten(h, c, a);
          case ReaderThread => ReaderFrame(h, c, a);
          case Outside => OutsideFrame(h, c, a);
        }
    }
  }

  // ----- the socket: what is written is the opening, then what was begun, in order

  ghost predicate WriterInv(h: Hasher, c: Conn) {
    && c.sent != [] && c.sent[0].Opening? && (forall i :: 0 < i < |c.sent| ==> !c.sent[i].Opening?)
    && (c.writer.Writing? ==> c.writer.rest != [] && c.out + c.writer.rest == Written(h, c.sent))
    && (c.writer.Top? || c.writer.Receiving? || ReturnedOk(c.writer) ==> c.out == Written(h, c.sent))
    && c.out <= Written(h, c.sent)
    && (ReturnedOk(c.writer) ==> c.slot.entry.None? && c.slot.queue.items == [])
    && (c.shut <==> c.writer.Done?)
  }

  lemma BeginMessage(h: Hasher, sent: seq<Sent>, s: Sent)
    ensures Written(h, sent + [s]) == Written(h, sent) + SentBytes(h, s)
  {
    Snoc(sent, s);
  }

  lemma WriterKept(h: Hasher, c: Conn, d: Conn)
    requires WriterInv(h, c) && d.writer == c.writer && d.sent == c.sent && d.out == c.out && d.shut == c.shut
    requires c.slot.entry.None? ==> d.slot == c.slot
    ensures WriterInv(h, d)
  {
    hide Written;
  }

  lemma WriterWrites(h: Hasher, c: Conn, a: Action)
    requires WriterInv(h, c) && Enabled(c, a) && ThreadOf(a) == WriterThread
    ensures WriterInv(h, Act(h, c, a))
  {
    hide Frame, Written, QueuedBytes;
    match a {
      case PingDue(nonce) => BeginMessage(h, c.sent, TimerPing(nonce));
      case Receive =>
        var q := c.slot.queue.items[0];
        BeginMessage(h, c.sent, FromQueue(q));
        assert QueuedBytes(h, q) == [] ==> c.out + QueuedBytes(h, q) == c.out;
      case Write(n) =>
        assert c.out + c.writer.rest == c.out + c.writer.rest[..n] + c.writer.rest[n..];
      case _ =>
    }
  }

  lemma WriterStep(h: Hasher, c: Conn, a: Action)
    requires WriterInv(h, c) && Enabled(c, a)
    ensures WriterInv(h, Act(h, c, a))
  {
    hide WriterInv, Act, Enabled;
    match ThreadOf(a) {
      case WriterThread => WriterWrites(h, c, a);
      case ReaderThread => ReaderFrame(h, c, a); WriterKept(h, c, Act(h, c, a));
      case Outside => OutsideFrame(h, c, a); WriterKept(h, c, Act(h, c, a));
    }
  }

  // ----- the buffer: however reads cut the stream, what is seen is what the stream says

  ghost predicate BufferInv(h: Hasher, c: Conn) {
    && Process(h, Collect, [], c.taken) == Process(h, Collect, c.seen, c.buffer)
    && |c.buffer| < HEADER_LENGTH + MAX_PAYLOAD_SIZE + READ_BUFFER
    && (c.reader.Reading? || c.reader.Checking? ==> TryParse(h, c.buffer).Wait?)
    && (match Why(c.reader)
        case Some(Unparseable(e)) => TryParse(h, c.buffer) == Refuse(e)
        case _ => true)
  }

  lemma BufferRead(h: Hasher, c: Conn, n: nat)
    requires BufferInv(h, c) && Enabled(c, Read(n))
    ensures BufferInv(h, Act(h, c, Read(n)))
  {
    hide TryParse;
    OneCut(h, Collect, [], c.taken, c.inbound[..n]);
  }

  lemma BufferParse(h: Hasher, c: Conn)
    requires BufferInv(h, c) && c.reader.Draining?
    ensures BufferInv(h, ActParse(h, c))
  {
    hide TryParse;
  }

  lemma BufferKept(h: Hasher, c: Conn, d: Conn)
    requires BufferInv(h, c) && d.reader == c.reader && d.buffer == c.buffer && d.taken == c.taken && d.seen == c.seen
    ensures BufferInv(h, d)
  {
    hide Process, TryParse;
  }

  lemma BufferReaderStep(h: Hasher, c: Conn, a: Action)
    requires BufferInv(h, c) && Enabled(c, a) && ThreadOf(a) == ReaderThread
    ensures BufferInv(h, Act(h, c, a))
  {
    hide TryParse, Process, SlotSend, SlotAdvance, ActParse, ActRead;
    match a {
      case Read(n) => BufferRead(h, c, n);
      case Parse => BufferParse(h, c);
      case _ =>
    }
  }

  lemma BufferStep(h: Hasher, c: Conn, a: Action)
    requires BufferInv(h, c) && Enabled(c, a)
    ensures BufferInv(h, Act(h, c, a))
  {
    hide BufferInv, Act, Enabled;
    match ThreadOf(a) {
      case ReaderThread => BufferReaderStep(h, c, a);
      case WriterThread => WriterFrame(h, c, a); BufferKept(h, c, Act(h, c, a));
      case Outside => OutsideFrame(h, c, a); BufferKept(h, c, Act(h, c, a));
    }
  }

  // ----- the handshake: the entry's state is what the peer's messages make it

  /** The messages the handshake has taken account of: all but one about to be, or just refused. */
  function Counted(c: Conn): seq<Message> {
    if c.seen != [] && (c.reader.Handling? || (Why(c.reader).Some? && Why(c.reader).value.HandshakeRefused?))
    then c.seen[..|c.seen| - 1] else c.seen
  }

  ghost predicate HandshakeInv(c: Conn) {
    && (c.reader.Handling? || c.reader.Logging? ==> c.seen != [] && c.seen[|c.seen| - 1] == c.reader.m)
    && (c.reader.Handling? ==> EventOf(c.reader.m).Some?)
    && (c.slot.entry.Some? ==> Follow(Events(Counted(c))) == c.slot.entry)
    && (match Why(c.reader)
        case Some(HandshakeRefused(e)) =>
          c.seen != [] && if e == NoSuchPeer then c.slot.entry.None? else Follow(Events(c.seen)) == None
        case _ => true)
    && (c.reader.Joining? || c.reader.Finished? ==> c.slot.entry.None?)
    && (c.reader.Finished? ==> c.writer.Done?)
    && (Why(c.reader) == Some(TooLate) ==> !c.ready)
  }

  lemma EventsSnoc(ms: seq<Message>, m: Message)
    ensures Events(ms + [m]) == Events(ms) + if EventOf(m).Some? then [EventOf(m).value] else []
  {
    Snoc(ms, m);
  }

  lemma FollowSnoc(events: seq<HandshakeEvent>, event: HandshakeEvent)
    ensures Follow(events + [event]) ==
            if Follow(events).None? then None
            else match Advance(Follow(events).value, event) case Ok(after) => Some(after) case Err(_) => None
  {
    Snoc(events, event);
  }

  lemma HandshakeParse(h: Hasher, c: Conn)
    requires HandshakeInv(c) && c.reader.Draining?
    ensures HandshakeInv(ActParse(h, c))
  {
    hide TryParse, Events, Follow;
    if TryParse(h, c.buffer).Accept? {
      var m := TryParse(h, c.buffer).message;
      EventsSnoc(c.seen, m);
      Snoc(c.seen, m);
      assert Events(c.seen) + [] == Events(c.seen);
    }
  }

  lemma HandshakeAdvance(c: Conn)
    requires HandshakeInv(c) && c.reader.Handling?
    ensures HandshakeInv(ActAdvance(c))
  {
    hide Events, Follow;
    var m, before := c.reader.m, c.seen[..|c.seen| - 1];
    assert c.seen == before + [m];
    EventsSnoc(before, m);
    FollowSnoc(Events(before), EventOf(m).value);
  }

  lemma HandshakeKept(c: Conn, d: Conn)
    requires HandshakeInv(c) && d.reader == c.reader && d.seen == c.seen && d.ready == c.ready
    requires d.slot.entry == c.slot.entry || d.slot.entry.None?
    requires c.writer.Done? ==> d.writer.Done?
    ensures HandshakeInv(d)
  {
    hide Events, Follow;
  }

  lemma HandshakeRead(h: Hasher, c: Conn, a: Action)
    requires HandshakeInv(c) && Enabled(c, a) && ThreadOf(a) == ReaderThread
    ensures HandshakeInv(Act(h, c, a))
  {
    hide TryParse, Events, Follow, ActParse, ActAdvance;
    match a {
      case Parse => HandshakeParse(h, c);
      case AdvanceState => HandshakeAdvance(c);
      case _ =>
    }
  }

  lemma HandshakeStep(h: Hasher, c: Conn, a: Action)
    requires HandshakeInv(c) && Enabled(c, a)
    ensures HandshakeInv(Act(h, c, a))
  {
    hide HandshakeInv, Act, Enabled;
    match ThreadOf(a) {
      case ReaderThread => HandshakeRead(h, c, a);
      case WriterThread => WriterFrame(h, c, a); HandshakeKept(c, Act(h, c, a));
      case Outside => OutsideFrame(h, c, a); HandshakeKept(c, Act(h, c, a));
    }
  }

  // ----- the replies: one for each message that asks for one, in order

  /** A reply owed but not yet queued, if the connection has not ended owing it. */
  function Owed(c: Conn): seq<Message> {
    if c.seen == [] then []
    else
      var last := c.seen[|c.seen| - 1];
      match c.reader
      case Handling(_) => OneReply(last)
      case Logging(_) => OneReply(last)
      case Delivering(_) => OneReply(last)
      case _ =>
        match Why(c.reader)
        case Some(HandshakeRefused(_)) => OneReply(last)
        case Some(Overflowed) => OneReply(last)
        case _ => []
  }

  ghost predicate ReplyInv(c: Conn) {
    && RepliesTo(c.seen) == RepliesAmong(c.accepted) + Owed(c)
    && (c.reader.Logging? || c.reader.Handling? ==> c.seen != [] && c.seen[|c.seen| - 1] == c.reader.m)
    && (c.reader.Delivering? ==> c.seen != [] && OneReply(c.seen[|c.seen| - 1]) == [c.reader.reply])
  }

  lemma ReplyParse(h: Hasher, c: Conn)
    requires ReplyInv(c) && c.reader.Draining?
    ensures ReplyInv(ActParse(h, c))
  {
    hide TryParse, RepliesTo, RepliesAmong, OneReply;
    if TryParse(h, c.buffer).Accept? {
      RepliesToSnoc(c.seen, TryParse(h, c.buffer).message);
      Snoc(c.seen, TryParse(h, c.buffer).message);
      assert RepliesAmong(c.accepted) + [] == RepliesAmong(c.accepted);
    }
  }

  lemma ReplyAccept(c: Conn, q: Queued)
    requires ReplyInv(c)
    ensures RepliesAmong(c.accepted + [q]) == RepliesAmong(c.accepted) + if q.Reply? then [q.m] else []
    ensures q.Reply? && Owed(c) == [q.m] ==> RepliesTo(c.seen) == RepliesAmong(c.accepted + [q]) + []
    ensures !q.Reply? ==> RepliesTo(c.seen) == RepliesAmong(c.accepted + [q]) + Owed(c)
  {
    hide RepliesTo, RepliesAmong, Owed;
    RepliesAmongSnoc(c.accepted, q);
    assert RepliesAmong(c.accepted) + [] == RepliesAmong(c.accepted);
  }

  lemma ReplyKept(c: Conn, d: Conn)
    requires ReplyInv(c) && d.reader == c.reader && d.seen == c.seen && d.accepted == c.accepted
    ensures ReplyInv(d)
  {
    hide RepliesTo, RepliesAmong, OneReply;
  }

  lemma ReplyRelay(c: Conn, bytes: seq<byte>)
    requires ReplyInv(c)
    ensures ReplyInv(ActRelay(c, bytes))
  {
    hide RepliesTo, RepliesAmong, OneReply, SlotSend;
    ReplyAccept(c, Relayed(bytes));
  }

  lemma ReplyDeliver(c: Conn)
    requires ReplyInv(c) && c.reader.Delivering?
    ensures ReplyInv(ActDeliver(c))
  {
    hide RepliesTo, RepliesAmong, OneReply, SlotSend;
    ReplyAccept(c, Reply(c.reader.reply));
  }

  lemma ReplyRead(h: Hasher, c: Conn, a: Action)
    requires ReplyInv(c) && Enabled(c, a) && ThreadOf(a) == ReaderThread
    ensures ReplyInv(Act(h, c, a))
  {
    hide TryParse, RepliesTo, RepliesAmong, ActParse, ActDeliver, SlotAdvance;
    match a {
      case Parse => ReplyParse(h, c);
      case DeliverReply => ReplyDeliver(c);
      case _ =>
    }
  }

  lemma ReplyStep(h: Hasher, c: Conn, a: Action)
    requires ReplyInv(c) && Enabled(c, a)
    ensures ReplyInv(Act(h, c, a))
  {
    hide ReplyInv, Enabled, ActRelay, ActReceive, ActPing, ActRead;
    match ThreadOf(a) {
      case ReaderThread => ReplyRead(h, c, a);
      case WriterThread => WriterFrame(h, c, a); ReplyKept(c, Act(h, c, a));
      case Outside =>
        OutsideFrame(h, c, a);
        if a.Relay? {
          ReplyRelay(c, a.bytes);
        } else {
          ReplyKept(c, Act(h, c, a));
        }
    }
  }

  lemma RepliesToSnoc(ms: seq<Message>, m: Message)
    ensures RepliesTo(ms + [m]) == RepliesTo(ms) + OneReply(m)
  {
    Snoc(ms, m);
  }

  lemma RepliesAmongSnoc(qs: seq<Queued>, q: Queued)
    ensures RepliesAmong(qs + [q]) == RepliesAmong(qs) + if q.Reply? then [q.m] else []
  {
    Snoc(qs, q);
  }

  // ----- the verack: ours goes out once, after their version

  predicate AboutToVerack(r: Reader) {
    (r.Logging? && r.m.VersionMsg?) || (r.Delivering? && r.reply.VerackMsg?)
  }

  ghost predicate VerackInv(c: Conn) {
    && Events(RepliesAmong(c.accepted)) <= [VerackArrived]
    && (AboutToVerack(c.reader) ==> Events(RepliesAmong(c.accepted)) == [])
    && (c.slot.entry == Some(AwaitingVersion) ==> Events(RepliesAmong(c.accepted)) == [] && !AboutToVerack(c.reader))
    && (AboutToVerack(c.reader) && c.slot.entry.Some? ==> c.slot.entry == Some(AwaitingVerack))
    && (c.slot.entry.Some? && c.slot.entry != Some(AwaitingVersion) && !AboutToVerack(c.reader) ==>
          Events(RepliesAmong(c.accepted)) == [VerackArrived])
    && (c.reader.Delivering? ==> !c.reader.reply.VersionMsg?)
  }

  lemma ReplyEvents(qs: seq<Queued>, m: Message)
    ensures Events(RepliesAmong(qs + [Reply(m)])) ==
            Events(RepliesAmong(qs)) + if EventOf(m).Some? then [EventOf(m).value] else []
  {
    RepliesAmongSnoc(qs, Reply(m));
    EventsSnoc(RepliesAmong(qs), m);
  }

  lemma VerackKept(c: Conn, d: Conn)
    requires VerackInv(c) && d.reader == c.reader && d.accepted == c.accepted
    requires d.slot.entry == c.slot.entry || d.slot.entry.None?
    ensures VerackInv(d)
  {
    hide Events, RepliesAmong;
  }

  lemma VerackRead(h: Hasher, c: Conn, a: Action)
    requires VerackInv(c) && HandshakeInv(c) && Enabled(c, a) && ThreadOf(a) == ReaderThread
    ensures VerackInv(Act(h, c, a))
  {
    hide TryParse, Events, RepliesAmong, Follow;
    if a.DeliverReply? {
      ReplyEvents(c.accepted, c.reader.reply);
    }
  }

  lemma VerackRelay(c: Conn, bytes: seq<byte>)
    requires VerackInv(c)
    ensures VerackInv(ActRelay(c, bytes))
  {
    hide Events, RepliesAmong;
    RepliesAmongSnoc(c.accepted, Relayed(bytes));
    assert RepliesAmong(c.accepted) + [] == RepliesAmong(c.accepted);
  }

  lemma VerackStep(h: Hasher, c: Conn, a: Action)
    requires VerackInv(c) && HandshakeInv(c) && Enabled(c, a)
    ensures VerackInv(Act(h, c, a))
  {
    hide VerackInv, HandshakeInv, ActRelay, ActReceive, ActPing, ActRead;
    match ThreadOf(a) {
      case ReaderThread => VerackRead(h, c, a);
      case WriterThread => WriterFrame(h, c, a); VerackKept(c, Act(h, c, a));
      case Outside =>
        OutsideFrame(h, c, a);
        if a.Relay? {
          VerackRelay(c, a.bytes);
        } else {
          VerackKept(c, Act(h, c, a));
        }
    }
  }

  // ----- all of it, over every run

  ghost predicate Inv(h: Hasher, c: Conn) {
    QueueInv(c) && WriterInv(h, c) && BufferInv(h, c) && HandshakeInv(c) && ReplyInv(c) && VerackInv(c)
  }

  lemma StartWriter(h: Hasher, v: Versions.Version)
    ensures WriterInv(h, Start(h, v)) && Dequeued(Start(h, v).sent) == []
  {
    hide Frame;
    var c, opening := Start(h, v), VersionMsg(v);
    BeginMessage(h, [], Opening(v));
    assert [] + [Opening(v)] == c.sent;
    assert [] + Frame(h, opening) == Frame(h, opening);
    assert c.sent[..0] == [];
  }

  lemma StartInv(h: Hasher, v: Versions.Version)
    ensures Inv(h, Start(h, v))
  {
    hide Frame, WriterInv;
    StartWriter(h, v);
  }

  lemma Step(h: Hasher, c: Conn, a: Action)
    requires Inv(h, c) && Enabled(c, a)
    ensures Inv(h, Act(h, c, a))
  {
    hide QueueInv, WriterInv, BufferInv, HandshakeInv, ReplyInv, VerackInv, Act, Enabled;
    QueueStep(h, c, a);
    WriterStep(h, c, a);
    BufferStep(h, c, a);
    HandshakeStep(h, c, a);
    ReplyStep(h, c, a);
    VerackStep(h, c, a);
  }

  lemma {:induction false} EveryRun(h: Hasher, c: Conn, schedule: seq<Action>)
    requires Inv(h, c) && Exec(h, c, schedule).Some?
    ensures Inv(h, Exec(h, c, schedule).value)
    decreases |schedule|
  {
    hide Inv, Act, Enabled;
    if schedule != [] {
      Step(h, c, schedule[0]);
      EveryRun(h, Act(h, c, schedule[0]), schedule[1..]);
    }
  }
}
