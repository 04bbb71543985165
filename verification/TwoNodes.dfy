/** src/protocol.rs: two nodes running this code, joined by two byte streams.

    What one writes arrives at the other in order, cut into reads in any way; bytes sent to a socket
    already shut are lost; a shutdown is seen by the peer once it has read what came before. */
module TwoNodes {
  import opened Wrappers
  import opened Bytes
  import opened Versions
  import opened Messages
  import opened Framing
  import opened Node
  import opened Protocol
  import opened Connection
  import opened Invariants
  import opened Runs

  datatype Pair = Pair(a: Conn, b: Conn)

  datatype Side = A | B

  datatype Move = Move(side: Side, action: Action)

  function Swap(p: Pair): Pair {
    Pair(p.b, p.a)
  }

  /** The wires are not free to act: they carry what the other end does. And nobody broadcasts
      anything but pings and pongs, which could speak for the handshake. */
  predicate Possible(h: Hasher, p: Pair, m: Move) {
    && Enabled(if m.side.A? then p.a else p.b, m.action) && !m.action.Arrive? && !m.action.PeerCloses?
    && (m.action.Relay? ==> IsPlain(h, Relayed(m.action.bytes)))
  }

  /** What `you` notices of `me` doing `action`. */
  function Notice(h: Hasher, me: Conn, you: Conn, action: Action): Conn
    requires Enabled(me, action)
  {
    match action
    case Write(n) =>
      var chunk := me.writer.rest[..n];
      if Enabled(you, Arrive(chunk)) then Act(h, you, Arrive(chunk)) else you
    case Shutdown => Act(h, you, PeerCloses)
    case _ => you
  }

  function ByA(h: Hasher, p: Pair, action: Action): Pair
    requires Enabled(p.a, action)
  {
    Pair(Act(h, p.a, action), Notice(h, p.a, p.b, action))
  }

  function Next(h: Hasher, p: Pair, m: Move): Pair
    requires Possible(h, p, m)
  {
    if m.side.A? then ByA(h, p, m.action) else Swap(ByA(h, Swap(p), m.action))
  }

  function ExecPair(h: Hasher, p: Pair, moves: seq<Move>): Option<Pair>
    decreases |moves|
  {
    if moves == [] then Some(p)
    else if Possible(h, p, moves[0]) then ExecPair(h, Next(h, p, moves[0]), moves[1..])
    else None
  }

  function StartPair(h: Hasher, va: Version, vb: Version): Pair {
    Pair(Start(h, va), Start(h, vb))
  }

  // ----- the wire from one to the other

  ghost predicate Wire(src: Conn, dst: Conn) {
    && dst.taken + dst.inbound <= src.out
    && (!dst.shut ==> dst.taken + dst.inbound == src.out)
    && (dst.peerClosed <==> src.shut)
  }

  ghost predicate PairInv(h: Hasher, p: Pair) {
    && Inv(h, p.a) && Inv(h, p.b) && Wire(p.a, p.b) && Wire(p.b, p.a)
    && Plain(h, p.a.accepted) && Plain(h, p.b.accepted)
  }

  lemma NoticeInv(h: Hasher, me: Conn, you: Conn, action: Action)
    requires Enabled(me, action) && Inv(h, you)
    ensures Inv(h, Notice(h, me, you, action))
  {
    hide Inv, Act;
    match action {
      case Write(n) =>
        if Enabled(you, Arrive(me.writer.rest[..n])) {
          Step(h, you, Arrive(me.writer.rest[..n]));
        }
      case Shutdown => Step(h, you, PeerCloses);
      case _ =>
    }
  }

  /** Of `me` only a write or a shutdown shows on the wire to `you`. */
  lemma OutWire(h: Hasher, me: Conn, you: Conn, action: Action)
    requires Wire(me, you) && Enabled(me, action) && (me.shut <==> me.writer.Done?)
    ensures Wire(Act(h, me, action), Notice(h, me, you, action))
  {
    hide Frame, ActReceive, ActRelay;
    match ThreadOf(action) {
      case WriterThread =>
        WriterFrame(h, me, action);
        match action {
          case Write(n) =>
            assert you.taken + (you.inbound + me.writer.rest[..n]) == you.taken + you.inbound + me.writer.rest[..n];
          case Receive => ReceiveQuiet(h, me);
          case _ =>
        }
      case ReaderThread => OutWireReader(h, me, you, action);
      case Outside => OutsideFrame(h, me, action);
    }
  }

  lemma ReceiveQuiet(h: Hasher, c: Conn)
    requires Enabled(c, Receive)
    ensures ActReceive(h, c).out == c.out && ActReceive(h, c).shut == c.shut
  {
    hide Frame;
  }

  lemma OutWireReader(h: Hasher, me: Conn, you: Conn, action: Action)
    requires Wire(me, you) && Enabled(me, action) && ThreadOf(action) == ReaderThread
    ensures Wire(Act(h, me, action), Notice(h, me, you, action))
  {
    ReaderFrame(h, me, action);
    hide Act;
  }

  /** Of `me` only a read shows on the wire from `you`, and it only moves the boundary. */
  lemma InWire(h: Hasher, me: Conn, you: Conn, action: Action)
    requires Wire(you, me) && Enabled(me, action) && !action.Arrive? && !action.PeerCloses?
    ensures Wire(Notice(h, me, you, action), Act(h, me, action))
  {
    NoticeSends(h, me, you, action);
    TakenOnly(h, me, action);
    hide Notice, Act;
  }

  /** Noticing the other end sends nothing and shuts nothing. */
  lemma NoticeSends(h: Hasher, me: Conn, you: Conn, action: Action)
    requires Enabled(me, action)
    ensures Notice(h, me, you, action).out == you.out && Notice(h, me, you, action).shut == you.shut
  {
    hide Frame, TryParse;
  }

  lemma TakenOnly(h: Hasher, c: Conn, a: Action)
    requires Enabled(c, a) && !a.Arrive? && !a.PeerCloses?
    ensures var d := Act(h, c, a);
            d.taken + d.inbound == c.taken + c.inbound && d.peerClosed == c.peerClosed && (c.shut ==> d.shut)
  {
    hide ActReceive, ActRelay, ActParse, ActDeliver, ActAdvance;
    match ThreadOf(a) {
      case WriterThread => WriterFrame(h, c, a);
      case Outside => OutsideFrame(h, c, a);
      case ReaderThread =>
        ReaderFrame(h, c, a);
        if a.Read? {
          assert c.inbound == c.inbound[..a.n] + c.inbound[a.n..];
          assert c.taken + c.inbound[..a.n] + c.inbound[a.n..] == c.taken + c.inbound;
        }
    }
  }

  lemma ByAKeeps(h: Hasher, p: Pair, action: Action)
    requires PairInv(h, p) && Possible(h, p, Move(A, action))
    ensures PairInv(h, ByA(h, p, action))
  {
    StaysPlain(h, p.a, action);
    NoticeAccepts(h, p.a, p.b, action);
    hide Inv, Act, Enabled, Notice, Wire, Plain, IsPlain;
    Step(h, p.a, action);
    NoticeInv(h, p.a, p.b, action);
    Shut(h, p.a);
    OutWire(h, p.a, p.b, action);
    InWire(h, p.a, p.b, action);
  }

  lemma StaysPlain(h: Hasher, c: Conn, a: Action)
    requires Plain(h, c.accepted) && Enabled(c, a) && (a.Relay? ==> IsPlain(h, Relayed(a.bytes)))
    ensures Plain(h, Act(h, c, a).accepted)
  {
    hide TryParse, Carried, ActParse, ActReceive, ActAdvance;
    match ThreadOf(a) {
      case WriterThread => WriterFrame(h, c, a);
      case ReaderThread => ReaderFrame(h, c, a);
      case Outside => OutsideFrame(h, c, a);
    }
  }

  lemma NoticeAccepts(h: Hasher, me: Conn, you: Conn, action: Action)
    requires Enabled(me, action)
    ensures Notice(h, me, you, action).accepted == you.accepted
  {
  }

  lemma Shut(h: Hasher, c: Conn)
    requires Inv(h, c)
    ensures c.shut <==> c.writer.Done?
  {
    hide QueueInv, BufferInv, HandshakeInv, ReplyInv, VerackInv;
  }

  lemma MoveKeeps(h: Hasher, p: Pair, m: Move)
    requires PairInv(h, p) && Possible(h, p, m)
    ensures PairInv(h, Next(h, p, m))
  {
    hide Inv, Wire, ByA;
    if m.side.A? {
      ByAKeeps(h, p, m.action);
    } else {
      ByAKeeps(h, Swap(p), m.action);
    }
  }

  lemma {:induction false} PairRun(h: Hasher, p: Pair, moves: seq<Move>)
    requires PairInv(h, p) && ExecPair(h, p, moves).Some?
    ensures PairInv(h, ExecPair(h, p, moves).value)
    decreases |moves|
  {
    hide PairInv, Next, Possible;
    if moves != [] {
      MoveKeeps(h, p, moves[0]);
      PairRun(h, Next(h, p, moves[0]), moves[1..]);
    }
  }

  lemma StartPairInv(h: Hasher, va: Version, vb: Version)
    ensures PairInv(h, StartPair(h, va, vb))
  {
    hide Inv, Frame;
    StartInv(h, va);
    StartInv(h, vb);
  }

  // ----- the handshake messages on one wire

  /** Every message one end has committed to: begun by the writer, or queued. */
  function Committed(h: Hasher, c: Conn): seq<Message> {
    MessagesOf(h, c.sent) + QueuedMessages(h, c.slot.queue.items)
  }

  lemma {:induction false} EventsConcat(x: seq<Message>, y: seq<Message>)
    ensures Events(x + y) == Events(x) + Events(y)
  {
    if y == [] {
      assert x + y == x;
    } else {
      var last := y[|y| - 1];
      assert x + y == x + y[..|y| - 1] + [last] && y == y[..|y| - 1] + [last];
      EventsConcat(x, y[..|y| - 1]);
      EventsSnoc(x + y[..|y| - 1], last);
      EventsSnoc(y[..|y| - 1], last);
    }
  }

  lemma EventsOfPrefix(x: seq<Message>, y: seq<Message>)
    requires x <= y
    ensures Events(x) <= Events(y)
  {
    hide Events;
    EventsConcat(x, y[|x|..]);
    assert y == x + y[|x|..];
  }

  lemma {:induction false} EventsSurvive(ms: seq<Message>)
    ensures Events(ReceivedAll(ms)) == Events(ms)
  {
    if ms != [] {
      EventsSurvive(ms[1..]);
      assert ms == [ms[0]] + ms[1..] && ReceivedAll(ms) == [Received(ms[0])] + ReceivedAll(ms[1..]);
      EventsConcat([ms[0]], ms[1..]);
      EventsConcat([Received(ms[0])], ReceivedAll(ms[1..]));
    }
  }

  lemma {:induction false} EventsSent(h: Hasher, sent: seq<Sent>)
    requires sent != [] && sent[0].Opening? && forall i :: 0 < i < |sent| ==> !sent[i].Opening?
    ensures Events(MessagesOf(h, sent)) == [VersionArrived] + Events(QueuedMessages(h, Dequeued(sent)))
  {
    hide Carried;
    var before, last := sent[..|sent| - 1], sent[|sent| - 1];
    assert MessagesOf(h, sent) == MessagesOf(h, before) + [MessageOf(h, last)];
    EventsSnoc(MessagesOf(h, before), MessageOf(h, last));
    if before == [] {
      assert Dequeued(before) == [] && Dequeued(sent) == [];
    } else {
      EventsSent(h, before);
      if last.FromQueue? {
        var qs := Dequeued(before);
        assert QueuedMessages(h, qs + [last.q]) == QueuedMessages(h, qs) + [Carried(h, last.q)];
        EventsSnoc(QueuedMessages(h, qs), Carried(h, last.q));
      } else {
        assert Dequeued(sent) == Dequeued(before);
      }
    }
  }

  /** Under plain broadcasts everything written is frames of messages. */
  lemma {:induction false} PlainWritten(h: Hasher, sent: seq<Sent>)
    requires Plain(h, Dequeued(sent))
    ensures Written(h, sent) == FrameAll(h, MessagesOf(h, sent))
  {
    hide Frame, Carried, EventOf;
    if sent == [] {
      assert MessagesOf(h, sent) == [];
    } else {
      var before, last := sent[..|sent| - 1], sent[|sent| - 1];
      var qs := Dequeued(before);
      assert Dequeued(sent)[..|qs|] == qs;
      assert Plain(h, qs) by {
        assert forall i :: 0 <= i < |qs| ==> qs[i] == Dequeued(sent)[i];
      }
      if last.FromQueue? {
        assert IsPlain(h, Dequeued(sent)[|qs|]);
      }
      PlainWritten(h, before);
      assert SentBytes(h, last) == Frame(h, MessageOf(h, last)) by {
        CarriedReply(h, last);
      }
      assert MessagesOf(h, sent) == MessagesOf(h, before) + [MessageOf(h, last)];
      FrameAllSnoc(h, MessagesOf(h, before), MessageOf(h, last));
    }
  }

  lemma CarriedReply(h: Hasher, s: Sent)
    ensures s.FromQueue? && s.q.Reply? ==> MessageOf(h, s) == s.q.m
  {
  }

  lemma CommitParts(h: Hasher, c: Conn)
    requires Inv(h, c) && Plain(h, c.accepted)
    ensures c.accepted == Dequeued(c.sent) + c.slot.queue.items
    ensures c.sent != [] && c.sent[0].Opening? && forall i :: 0 < i < |c.sent| ==> !c.sent[i].Opening?
    ensures Events(QueuedMessages(h, c.accepted)) <= [VerackArrived]
    ensures AboutToVerack(c.reader) ==> Events(QueuedMessages(h, c.accepted)) == []
    ensures Plain(h, Dequeued(c.sent))
  {
    hide Dequeued, Events, QueuedMessages, RepliesAmong, Written, BufferInv, HandshakeInv, ReplyInv, IsPlain;
    PlainEvents(h, c.accepted);
    assert forall i :: 0 <= i < |Dequeued(c.sent)| ==> Dequeued(c.sent)[i] == c.accepted[i];
  }

  /** One end commits to a version, then at most one verack; while the reader is on its way to queue
      that verack, nothing else of the kind has been. */
  lemma CommitsAHandshake(h: Hasher, c: Conn)
    requires Inv(h, c) && Plain(h, c.accepted)
    ensures Events(Committed(h, c)) == [VersionArrived] + Events(QueuedMessages(h, c.accepted))
    ensures Events(Committed(h, c)) <= WHOLE_HANDSHAKE
    ensures AboutToVerack(c.reader) ==> Events(Committed(h, c)) == [VersionArrived]
  {
    hide Inv, Events, Dequeued, MessagesOf, Plain, Carried;
    CommitParts(h, c);
    var begun, items := Dequeued(c.sent), c.slot.queue.items;
    EventsSent(h, c.sent);
    EventsConcat(MessagesOf(h, c.sent), QueuedMessages(h, items));
    EventsConcat(QueuedMessages(h, begun), QueuedMessages(h, items));
    assert QueuedMessages(h, begun + items) == QueuedMessages(h, begun) + QueuedMessages(h, items);
  }

  /** What one end has parsed is the start of what the other has begun to write; what is between
      is on the wire. Nothing it has parsed was in error. */
  lemma SeenWasSent(h: Hasher, src: Conn, dst: Conn)
    requires Inv(h, src) && Inv(h, dst) && Wire(src, dst) && Plain(h, src.accepted)
    ensures dst.seen <= ReceivedAll(MessagesOf(h, src.sent))
    ensures !TryParse(h, dst.buffer).Refuse?
    ensures dst.taken == FrameAll(h, MessagesOf(h, src.sent)) ==>
              Process(h, Collect, dst.seen, dst.buffer) == Drained(ReceivedAll(MessagesOf(h, src.sent)), [], None)
  {
    hide Inv, TryParse, FrameAll, MessagesOf, Plain, Written;
    CommitParts(h, src);
    PlainWritten(h, src.sent);
    InvParts(h, src);
    InvParts(h, dst);
    hide QueueInv, HandshakeInv, ReplyInv, VerackInv;
    var ms := MessagesOf(h, src.sent);
    assert dst.taken <= FrameAll(h, ms);
    FramesParse(h, [], ms, dst.taken);
    EachMessageTakesAHeader(h, dst.seen, dst.buffer);
    assert [] + ReceivedAll(ms) == ReceivedAll(ms);
  }

  lemma NeverRefuses(h: Hasher, src: Conn, dst: Conn)
    requires Inv(h, src) && Inv(h, dst) && Wire(src, dst) && Plain(h, src.accepted)
    ensures dst.seen <= ReceivedAll(MessagesOf(h, src.sent))
    ensures Events(dst.seen) <= Events(Committed(h, src)) <= WHOLE_HANDSHAKE
    ensures AboutToVerack(src.reader) ==> Events(Committed(h, src)) == [VersionArrived]
    ensures match Why(dst.reader)
            case Some(Unparseable(_)) => false
            case Some(HandshakeRefused(e)) => e == NoSuchPeer
            case _ => true
  {
    hide Inv, Events, MessagesOf, FrameAll, TryParse, Follow, ReceivedAll, Wire, Plain;
    SeenWasSent(h, src, dst);
    CommitsAHandshake(h, src);
    EventsOfPrefix(dst.seen, ReceivedAll(MessagesOf(h, src.sent)));
    EventsSurvive(MessagesOf(h, src.sent));
    EventsConcat(MessagesOf(h, src.sent), QueuedMessages(h, src.slot.queue.items));
    InvParts(h, dst);
    hide QueueInv, WriterInv, ReplyInv, VerackInv;
    HandshakeAcceptsPrefixes(Events(dst.seen));
  }

  /** In every interleaving, with any cutting of the byte streams and any failures besides, neither
      node finds the other's bytes unreadable or its handshake out of order. The versions and veracks
      one has parsed start those the other has begun to write or queued, which with a verack its
      reader is about to queue are in all a prefix of version, verack. */
  lemma NeitherRejectsTheOther(h: Hasher, va: Version, vb: Version, moves: seq<Move>, p: Pair)
    requires ExecPair(h, StartPair(h, va, vb), moves) == Some(p)
    ensures forall src, dst :: (src, dst) == (p.a, p.b) || (src, dst) == (p.b, p.a) ==>
              && dst.seen <= ReceivedAll(MessagesOf(h, src.sent))
              && Events(dst.seen) <= Events(Committed(h, src)) <= WHOLE_HANDSHAKE
              && (AboutToVerack(src.reader) ==> Events(Committed(h, src)) == [VersionArrived])
              && (match Why(dst.reader)
                  case Some(Unparseable(_)) => false
                  case Some(HandshakeRefused(e)) => e == NoSuchPeer
                  case _ => true)
  {
    hide Inv, ExecPair, StartPair, Wire;
    StartPairInv(h, va, vb);
    PairRun(h, StartPair(h, va, vb), moves);
    NeverRefuses(h, p.a, p.b);
    NeverRefuses(h, p.b, p.a);
  }

  // ----- and they do shake hands

  /** Both threads in their loops, still in the table, the socket open both ways. */
  predicate Live(c: Conn) {
    c.slot.entry.Some? && Running(c.writer) && InLoop(c.reader) && !c.shut && !c.peerClosed
  }

  /** An overflow, a missed deadline, a failed read or write, or a removal by somebody else. */
  predicate Fault(c: Conn, a: Action) {
    || a.ReadFail? || a.WriteFail? || a.Evict?
    || (a.Check? && a.expired && !c.ready && c.slot.entry != Some(Ready))
    || ((a.Relay? || a.DeliverReply?) && |c.slot.queue.items| >= OUTBOUND_QUEUE)
  }

  lemma LiveStep(h: Hasher, c: Conn, a: Action)
    requires Live(c) && Enabled(c, a) && !Fault(c, a) && !a.PeerCloses?
    requires c.slot.queue.open && !TryParse(h, c.buffer).Refuse?
    ensures var d := Act(h, c, a);
            || Live(d)
            || (Why(d.reader).Some? && Why(d.reader).value.HandshakeRefused? && Why(d.reader).value.event != NoSuchPeer)
  {
    hide TryParse, Frame;
  }

  lemma LiveByA(h: Hasher, p: Pair, action: Action)
    requires PairInv(h, p) && Possible(h, p, Move(A, action)) && Live(p.a) && Live(p.b) && !Fault(p.a, action)
    ensures Live(ByA(h, p, action).a) && Live(ByA(h, p, action).b)
  {
    hide Inv, Act, Enabled, Wire, TryParse;
    var q := ByA(h, p, action);
    ByAKeeps(h, p, action);
    NeverRefuses(h, q.b, q.a);
    SeenWasSent(h, p.b, p.a);
    QueueIsOpen(h, p.a);
    LiveStep(h, p.a, action);
    LiveNotice(h, p.a, p.b, action);
  }

  lemma QueueIsOpen(h: Hasher, c: Conn)
    requires Inv(h, c) && Running(c.writer)
    ensures c.slot.queue.open
  {
    hide WriterInv, BufferInv, HandshakeInv, ReplyInv, VerackInv, Dequeued;
  }

  lemma LiveNotice(h: Hasher, me: Conn, you: Conn, action: Action)
    requires Live(me) && Live(you) && Enabled(me, action)
    ensures Live(Notice(h, me, you, action))
  {
    hide TryParse, Frame;
  }

  /** Until a fault, both connections stay up. */
  lemma {:induction false} LiveRun(h: Hasher, p: Pair, moves: seq<Move>)
    requires PairInv(h, p) && Live(p.a) && Live(p.b) && ExecPair(h, p, moves).Some?
    requires Faultless(h, p, moves)
    ensures var q := ExecPair(h, p, moves).value; PairInv(h, q) && Live(q.a) && Live(q.b)
    decreases |moves|
  {
    hide PairInv, Live, Fault, ByA, Enabled;
    if moves != [] {
      var m := moves[0];
      MoveKeeps(h, p, m);
      if m.side.A? {
        LiveByA(h, p, m.action);
      } else {
        SwapInv(h, p);
        LiveByA(h, Swap(p), m.action);
      }
      LiveRun(h, Next(h, p, m), moves[1..]);
    }
  }

  lemma SwapInv(h: Hasher, p: Pair)
    requires PairInv(h, p)
    ensures PairInv(h, Swap(p))
  {
    hide Inv, Wire;
  }

  predicate Faultless(h: Hasher, p: Pair, moves: seq<Move>)
    requires ExecPair(h, p, moves).Some?
    decreases |moves|
  {
    moves == [] ||
    (!Fault(if moves[0].side.A? then p.a else p.b, moves[0].action) && Faultless(h, Next(h, p, moves[0]), moves[1..]))
  }

  /** The clock and the outside aside, nothing to do. */
  predicate Working(a: Action) {
    match a
    case ReadRetry => false
    case PingDue(_) => false
    case Timeout => false
    case Relay(_) => false
    case Evict => false
    case Arrive(_) => false
    case PeerCloses => false
    case _ => true
  }

  ghost predicate Quiet(c: Conn) {
    forall a :: Working(a) && !a.ReadFail? && !a.WriteFail? ==> !Enabled(c, a)
  }

  lemma QuietShape(h: Hasher, c: Conn)
    requires Live(c) && Quiet(c) && (c.writer.Writing? ==> c.writer.rest != [])
    ensures c.reader.Reading? && c.inbound == [] && c.writer.Receiving? && c.slot.queue.items == []
  {
    assert !Enabled(c, Parse) && !Enabled(c, AdvanceState) && !Enabled(c, Log) && !Enabled(c, DeliverReply);
    assert !Enabled(c, Check(false)) && !Enabled(c, Read(1));
    assert !Enabled(c, Turn) && !Enabled(c, Receive) && !Enabled(c, Write(1));
  }

  /** All that one end sent has been seen by the other. */
  lemma AllSeen(h: Hasher, src: Conn, dst: Conn)
    requires Inv(h, src) && Inv(h, dst) && Wire(src, dst) && Plain(h, src.accepted) && Live(src) && Live(dst)
    requires src.writer.Receiving? && src.slot.queue.items == [] && dst.reader.Reading? && dst.inbound == []
    ensures Events(dst.seen) == [VersionArrived] + Events(QueuedMessages(h, src.accepted))
  {
    hide Inv, Events, MessagesOf, FrameAll, TryParse, QueuedMessages, Plain, Written;
    SeenWasSent(h, src, dst);
    CommitsAHandshake(h, src);
    CommitParts(h, src);
    PlainWritten(h, src.sent);
    InvParts(h, src);
    InvParts(h, dst);
    hide QueueInv, HandshakeInv, ReplyInv, VerackInv;
    assert dst.taken + [] == dst.taken;
    EventsSurvive(MessagesOf(h, src.sent));
    EventsConcat(MessagesOf(h, src.sent), QueuedMessages(h, src.slot.queue.items));
    assert Events(QueuedMessages(h, src.slot.queue.items)) == [] by { NoEvents(h, src.slot.queue.items); }
    assert Events(MessagesOf(h, src.sent)) + [] == Events(MessagesOf(h, src.sent));
  }

  /** A version seen by a live idle reader has been answered, and the state says what came. */
  lemma StateOfIdle(h: Hasher, c: Conn)
    requires Inv(h, c) && Live(c) && c.reader.Reading?
    ensures Follow(Events(c.seen)) == c.slot.entry
    ensures c.slot.entry != Some(AwaitingVersion) ==> Events(RepliesAmong(c.accepted)) == [VerackArrived]
  {
    hide Follow, Events, RepliesAmong, QueueInv, WriterInv, BufferInv, ReplyInv;
  }

  /** Whenever nothing is left to do on either side and neither connection has been taken down, both
      nodes are Ready. */
  lemma QuietMeansReady(h: Hasher, p: Pair)
    requires PairInv(h, p) && Live(p.a) && Live(p.b) && Quiet(p.a) && Quiet(p.b)
    ensures p.a.slot.entry == Some(Ready) && p.b.slot.entry == Some(Ready)
  {
    hide Inv, Quiet, Live, Wire, Events, QueuedMessages, RepliesAmong, Plain;
    PlainEvents(h, p.a.accepted);
    PlainEvents(h, p.b.accepted);
    RestIsSomething(h, p.a);
    RestIsSomething(h, p.b);
    QuietShape(h, p.a);
    QuietShape(h, p.b);
    AllSeen(h, p.a, p.b);
    AllSeen(h, p.b, p.a);
    StateOfIdle(h, p.a);
    StateOfIdle(h, p.b);
    HandshakeAcceptsPrefixes(Events(p.a.seen));
    HandshakeAcceptsPrefixes(Events(p.b.seen));
  }

  lemma RestIsSomething(h: Hasher, c: Conn)
    requires Inv(h, c)
    ensures c.writer.Writing? ==> c.writer.rest != []
  {
    hide QueueInv, BufferInv, HandshakeInv, ReplyInv, VerackInv, Written;
  }

  /** Every run without an overflow, a timeout or a failure that comes to rest leaves both Ready. */
  lemma TheyShakeHands(h: Hasher, va: Version, vb: Version, moves: seq<Move>, p: Pair)
    requires ExecPair(h, StartPair(h, va, vb), moves) == Some(p) && Faultless(h, StartPair(h, va, vb), moves)
    ensures Live(p.a) && Live(p.b)
    ensures Quiet(p.a) && Quiet(p.b) ==> p.a.slot.entry == Some(Ready) && p.b.slot.entry == Some(Ready)
  {
    hide PairInv, Quiet, ExecPair, Faultless, Frame;
    StartPairInv(h, va, vb);
    LiveRun(h, StartPair(h, va, vb), moves);
    if Quiet(p.a) && Quiet(p.b) {
      QuietMeansReady(h, p);
    }
  }
}
