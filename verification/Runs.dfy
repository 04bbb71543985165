/** What the invariants say of every run of one connection, from its start. */
module Runs {
  import opened Wrappers
  import opened Bytes
  import opened Versions
  import opened Messages
  import opened Framing
  import opened Node
  import opened Protocol
  import opened Connection
  import opened Invariants

  ghost predicate Reaches(h: Hasher, v: Version, schedule: seq<Action>, c: Conn) {
    Exec(h, Start(h, v), schedule) == Some(c)
  }

  lemma ReachesInv(h: Hasher, v: Version, schedule: seq<Action>, c: Conn)
    requires Reaches(h, v, schedule, c)
    ensures Inv(h, c) && c.sent != [] && c.sent[0] == Opening(v)
  {
    hide Inv, Exec;
    StartInv(h, v);
    EveryRun(h, Start(h, v), schedule);
    HistoriesGrow(h, Start(h, v), schedule);
    assert WriterInv(h, c) by {
      InvParts(h, c);
    }
  }

  lemma InvParts(h: Hasher, c: Conn)
    requires Inv(h, c)
    ensures QueueInv(c) && WriterInv(h, c) && BufferInv(h, c) && HandshakeInv(c) && ReplyInv(c) && VerackInv(c)
  {
  }

  /** No history is ever rewritten, and an entry once gone is gone for good. */
  ghost predicate Extends(c: Conn, later: Conn) {
    && c.taken <= later.taken && c.seen <= later.seen && c.accepted <= later.accepted
    && c.sent <= later.sent && c.out <= later.out
    && (c.slot.entry.None? ==> later.slot.entry.None? && later.accepted == c.accepted)
    && (c.ready ==> later.ready)
  }

  lemma StepExtends(h: Hasher, c: Conn, a: Action)
    requires Enabled(c, a)
    ensures Extends(c, Act(h, c, a))
  {
    hide TryParse, Frame;
    match ThreadOf(a) {
      case ReaderThread => ReaderFrame(h, c, a); hide SlotAdvance;
      case WriterThread => WriterFrame(h, c, a);
      case Outside => OutsideFrame(h, c, a);
    }
  }

  lemma {:induction false} HistoriesGrow(h: Hasher, c: Conn, schedule: seq<Action>)
    requires Exec(h, c, schedule).Some?
    ensures Extends(c, Exec(h, c, schedule).value)
    decreases |schedule|
  {
    hide Act, Enabled;
    if schedule != [] {
      StepExtends(h, c, schedule[0]);
      HistoriesGrow(h, Act(h, c, schedule[0]), schedule[1..]);
    }
  }

  /** Conservation. What the queue took is what the writer took from it, then what is still queued,
      in order. What the socket took starts with our version and follows what the writer began. The writer
      returns Ok only with everything accepted on the wire. */
  lemma NothingIsLost(h: Hasher, v: Version, schedule: seq<Action>, c: Conn)
    requires Reaches(h, v, schedule, c)
    ensures c.accepted == Dequeued(c.sent) + c.slot.queue.items && |c.slot.queue.items| <= OUTBOUND_QUEUE
    ensures c.sent != [] && c.sent[0] == Opening(v) && (forall i :: 0 < i < |c.sent| ==> !c.sent[i].Opening?)
    ensures c.out <= Written(h, c.sent)
    ensures ReturnedOk(c.writer) ==>
              c.accepted == Dequeued(c.sent) && c.out == Written(h, c.sent) && c.slot.entry.None?
  {
    hide Inv;
    ReachesInv(h, v, schedule, c);
    InvParts(h, c);
    assert Dequeued(c.sent) + [] == Dequeued(c.sent);
  }

  /** Whatever the reads cut the stream into, a reader about to read has seen exactly the messages
      in the bytes read so far, and holds exactly the incomplete frame at their end. */
  lemma ReadsDoNotMatter(h: Hasher, v: Version, schedule: seq<Action>, c: Conn)
    requires Reaches(h, v, schedule, c)
    ensures c.reader.Reading? || c.reader.Checking? ==>
              Process(h, Collect, [], c.taken) == Drained(c.seen, c.buffer, None)
              && |c.buffer| < HEADER_LENGTH + MAX_PAYLOAD_SIZE
    ensures Why(c.reader).Some? && Why(c.reader).value.Unparseable? ==>
              Process(h, Collect, [], c.taken) == Drained(c.seen, c.buffer, Some(BadFrame(Why(c.reader).value.frame)))
    ensures |c.buffer| < HEADER_LENGTH + MAX_PAYLOAD_SIZE + READ_BUFFER
  {
    hide Inv, TryParse;
    ReachesInv(h, v, schedule, c);
    InvParts(h, c);
  }

  lemma NoEvents(h: Hasher, qs: seq<Queued>)
    requires qs == []
    ensures Events(QueuedMessages(h, qs)) == Events(RepliesAmong(qs)) == []
  {
  }

  /** Under plain broadcasts the versions and veracks queued are those queued in reply. */
  lemma {:induction false} PlainEvents(h: Hasher, qs: seq<Queued>)
    requires Plain(h, qs)
    ensures Events(QueuedMessages(h, qs)) == Events(RepliesAmong(qs))
  {
    hide Events, RepliesAmong, EventOf, Frame, TryParse;
    if qs == [] {
      NoEvents(h, qs);
    } else {
      var before, last := qs[..|qs| - 1], qs[|qs| - 1];
      assert QueuedMessages(h, qs) == QueuedMessages(h, before) + [Carried(h, last)] && qs == before + [last];
      PlainEvents(h, before);
      assert IsPlain(h, last);
      EventsSnoc(QueuedMessages(h, before), Carried(h, last));
      if last.Reply? {
        ReplyEvents(before, last.m);
      } else {
        RepliesAmongSnoc(before, last);
        assert RepliesAmong(before) + [] == RepliesAmong(before);
        assert Events(QueuedMessages(h, before)) + [] == Events(QueuedMessages(h, before));
      }
    }
  }

  /** The messages that ask for a reply, in order. */
  function Asking(ms: seq<Message>): seq<Message> {
    if ms == [] then []
    else
      var last := ms[|ms| - 1];
      Asking(ms[..|ms| - 1]) + if last.VersionMsg? || last.PingMsg? then [last] else []
  }

  /** `reply` is what `m` asks for: a pong of its own nonce for a ping, a verack for a version. */
  predicate Answers(reply: Message, m: Message) {
    match m
    case PingMsg(nonce) => reply == PongMsg(nonce)
    case VersionMsg(_) => reply == VerackMsg
    case _ => false
  }

  predicate AnswersAll(replies: seq<Message>, asking: seq<Message>) {
    |replies| <= |asking| && forall i :: 0 <= i < |replies| ==> Answers(replies[i], asking[i])
  }

  /** The replies asked for are one for each message that asks, in order, each its own. */
  lemma {:induction false} RepliesAnswer(ms: seq<Message>)
    ensures |RepliesTo(ms)| == |Asking(ms)| && AnswersAll(RepliesTo(ms), Asking(ms))
  {
    if ms != [] {
      RepliesAnswer(ms[..|ms| - 1]);
    }
  }

  /** The reply trace, for a connection still in the table. Its handshake state is the one the
      peer's versions and veracks lead to; it refuses exactly when they leave the prefixes of
      version, verack; what it has queued in reply is a verack per version and a pong per ping, in
      order, each with the nonce of its ping; and once Ready it has queued exactly one verack in
      reply, whatever was broadcast meanwhile, and exactly one in all if every broadcast was a ping
      or a pong. */
  lemma RepliesFollowFrames(h: Hasher, v: Version, schedule: seq<Action>, c: Conn)
    requires Reaches(h, v, schedule, c) && c.slot.entry.Some? && !c.reader.Handling?
    ensures Why(c.reader).Some? && Why(c.reader).value.HandshakeRefused? <==> !(Events(c.seen) <= WHOLE_HANDSHAKE)
    ensures Events(c.seen) <= WHOLE_HANDSHAKE ==> c.slot.entry == Follow(Events(c.seen))
    ensures c.reader.Reading? || c.reader.Draining? || c.reader.Checking? ==>
              RepliesAmong(c.accepted) == RepliesTo(c.seen)
    ensures AnswersAll(RepliesAmong(c.accepted), Asking(c.seen))
    ensures c.reader.Reading? || c.reader.Draining? || c.reader.Checking? ==>
              |RepliesAmong(c.accepted)| == |Asking(c.seen)|
    ensures c.slot.entry == Some(Ready) ==> Events(RepliesAmong(c.accepted)) == [VerackArrived]
    ensures c.slot.entry == Some(Ready) && Plain(h, c.accepted) ==>
              Events(QueuedMessages(h, c.accepted)) == [VerackArrived]
  {
    hide Inv, TryParse, Follow, Events, Plain, Asking, AnswersAll, RepliesTo, RepliesAmong;
    RepliesAreAPrefix(h, v, schedule, c);
    RepliesAnswer(c.seen);
    if Plain(h, c.accepted) {
      PlainEvents(h, c.accepted);
    }
    ReachesInv(h, v, schedule, c);
    InvParts(h, c);
    hide ReplyInv, VerackInv;
    HandshakeAcceptsPrefixes(Events(c.seen));
    OwesNothing(c);
    OneVerackWhenReady(c);
  }

  lemma OwesNothing(c: Conn)
    requires ReplyInv(c)
    ensures c.reader.Reading? || c.reader.Draining? || c.reader.Checking? ==>
              RepliesAmong(c.accepted) == RepliesTo(c.seen)
  {
    hide RepliesAmong, RepliesTo;
    assert RepliesAmong(c.accepted) + [] == RepliesAmong(c.accepted);
  }

  lemma OneVerackWhenReady(c: Conn)
    requires VerackInv(c)
    ensures c.slot.entry == Some(Ready) ==> Events(RepliesAmong(c.accepted)) == [VerackArrived]
  {
    hide Events, RepliesAmong;
  }

  /** In any state at all, evicted or ended, the replies queued are the first of those asked for. */
  lemma RepliesAreAPrefix(h: Hasher, v: Version, schedule: seq<Action>, c: Conn)
    requires Reaches(h, v, schedule, c)
    ensures RepliesAmong(c.accepted) <= RepliesTo(c.seen) && |RepliesTo(c.seen)| <= |RepliesAmong(c.accepted)| + 1
    ensures Events(RepliesAmong(c.accepted)) <= [VerackArrived]
    ensures AnswersAll(RepliesAmong(c.accepted), Asking(c.seen))
  {
    hide Inv, Asking, Answers;
    RepliesAnswer(c.seen);
    ReachesInv(h, v, schedule, c);
    InvParts(h, c);
  }

  /** A closed queue stays closed and takes nothing more. */
  lemma ClosedStep(h: Hasher, c: Conn, a: Action)
    requires Enabled(c, a) && !c.slot.queue.open
    ensures !Act(h, c, a).slot.queue.open && Act(h, c, a).accepted == c.accepted
  {
    hide TryParse, Frame;
    match ThreadOf(a) {
      case WriterThread => WriterFrame(h, c, a);
      case ReaderThread => ReaderFrame(h, c, a);
      case Outside => OutsideFrame(h, c, a);
    }
  }

  lemma {:induction false} NothingEntersAClosedQueue(h: Hasher, c: Conn, schedule: seq<Action>)
    requires !c.slot.queue.open && Exec(h, c, schedule).Some?
    ensures var d := Exec(h, c, schedule).value; !d.slot.queue.open && d.accepted == c.accepted
    decreases |schedule|
  {
    hide Act, Enabled;
    if schedule != [] {
      ClosedStep(h, c, schedule[0]);
      NothingEntersAClosedQueue(h, Act(h, c, schedule[0]), schedule[1..]);
    }
  }

  /** Broadcast frames of pings and pongs are plain, and no other frames are. */
  lemma WhatIsPlain(h: Hasher, m: Message)
    ensures IsPlain(h, Relayed(Frame(h, m))) <==> m.PingMsg? || m.PongMsg?
  {
    hide TryParse, Frame;
    FrameRoundTrip(h, m, []);
    assert Frame(h, m) + [] == Frame(h, m);
  }

  /** What one read may move: anything that has arrived, up to 4096 bytes. */
  lemma WhatARead(c: Conn, n: nat)
    ensures Enabled(c, Read(n)) <==> c.reader.Reading? && 0 < n <= 4096 && n <= |c.inbound|
  {
  }
}
