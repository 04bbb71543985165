/** src/protocol.rs: replies do not breed. Between the ticks of a timer and anything broadcast, two
    nodes exchange only so many messages, and take only so many steps. */
module Breeding {
  import opened Wrappers
  import opened Bytes
  import opened Versions
  import opened Messages
  import opened Framing
  import opened Node
  import opened Protocol
  import opened Connection
  import opened Invariants
  import opened TwoNodes

  /** A message weighs one more than the reply it asks for. */
  function Weight(m: Message): nat {
    match m
    case VersionMsg(_) => 2
    case PingMsg(_) => 2
    case VerackMsg => 1
    case PongMsg(_) => 1
  }

  function WeightOf(ms: seq<Message>): nat {
    if ms == [] then 0 else Weight(ms[0]) + WeightOf(ms[1..])
  }

  lemma {:induction false} WeightConcat(x: seq<Message>, y: seq<Message>)
    ensures WeightOf(x + y) == WeightOf(x) + WeightOf(y)
  {
    if x == [] {
      assert x + y == y;
    } else {
      assert (x + y)[1..] == x[1..] + y;
      WeightConcat(x[1..], y);
    }
  }

  lemma WeightOfOne(m: Message)
    ensures Weight(m) == if m.VersionMsg? || m.PingMsg? then 2 else 1
    ensures WeightOf([m]) == Weight(m) && WeightOf(OneReply(m)) + 1 == Weight(m)
  {
    assert WeightOf([]) == 0;
    if ReplyTo(m).Some? {
      assert [ReplyTo(m).value][1..] == [];
    }
    assert [m][1..] == [];
  }

  /** The reply the reader is on its way to queue. */
  function Pending(r: Reader): seq<Message> {
    match r
    case Handling(m) => OneReply(m)
    case Logging(m) => OneReply(m)
    case Delivering(reply) => [reply]
    case _ => []
  }

  /** Everything from `src` that `dst` has yet to parse: on the wire or being written, queued, owed. */
  function Ahead(h: Hasher, src: Conn, dst: Conn): nat
    requires |dst.seen| <= |src.sent|
  {
    WeightOf(MessagesOf(h, src.sent)[|dst.seen|..])
    + WeightOf(QueuedMessages(h, src.slot.queue.items))
    + WeightOf(Pending(src.reader))
  }

  lemma SeenAtMostSent(h: Hasher, src: Conn, dst: Conn)
    requires Inv(h, src) && Inv(h, dst) && Wire(src, dst) && Plain(h, src.accepted)
    ensures |dst.seen| <= |src.sent|
  {
    hide Inv, Wire, TryParse, MessagesOf, FrameAll, ReceivedAll;
    SeenWasSent(h, src, dst);
  }

  /** Parsing a message takes its weight off the wire and puts back at most one less. */
  lemma ParseSheds(h: Hasher, src: Conn, dst: Conn)
    requires Inv(h, src) && Inv(h, dst) && Wire(src, dst) && Plain(h, src.accepted)
    requires dst.reader.Draining? && TryParse(h, dst.buffer).Accept?
    ensures var d := ActParse(h, dst);
            && |dst.seen| < |d.seen| <= |src.sent|
            && WeightOf(MessagesOf(h, src.sent)[|d.seen|..]) + WeightOf(Pending(d.reader)) <
               WeightOf(MessagesOf(h, src.sent)[|dst.seen|..])
  {
    hide Inv, Wire, TryParse, MessagesOf, FrameAll, ReceivedAll, WeightOf, OneReply, Weight;
    var d, ms, n := ActParse(h, dst), MessagesOf(h, src.sent), |dst.seen|;
    Step(h, dst, Parse);
    WireAfterParse(h, src, dst);
    SeenWasSent(h, src, d);
    var m := TryParse(h, dst.buffer).message;
    assert d.seen == dst.seen + [m] && d.seen[n] == m == Received(ms[n]);
    assert ms[n..] == [ms[n]] + ms[n + 1..];
    WeightConcat([ms[n]], ms[n + 1..]);
    WeightOfOne(ms[n]);
    WeightOfOne(m);
    WeightReceived(ms[n]);
  }

  lemma WeightReceived(m: Message)
    ensures Weight(Received(m)) == Weight(m)
  {
  }

  lemma WireAfterParse(h: Hasher, src: Conn, dst: Conn)
    requires Wire(src, dst) && dst.reader.Draining?
    ensures Wire(src, ActParse(h, dst))
  {
    hide TryParse;
  }

  /** What one connection has still to move, message by message and byte by byte. */
  function Pipeline(h: Hasher, c: Conn): nat {
    ReaderLoad(c) + WriterLoad(h, c)
  }

  function ReaderLoad(c: Conn): nat {
    2000 * |Pending(c.reader)| + 5 * |c.inbound|
    + match c.reader
      case Handling(_) => 8
      case Logging(_) => 7
      case Delivering(_) => 6
      case Draining => 5
      case Checking => 4
      case Reading => 3
      case Ended(_) => 2
      case Joining(_) => 1
      case Finished(_, _) => 0
  }

  function WriterLoad(h: Hasher, c: Conn): nat {
    400 * |c.slot.queue.items| + 10 * BytesQueued(h, c.slot.queue.items)
    + match c.writer
      case Writing(rest, _) => 10 * |rest| + 8
      case Top => 7
      case Receiving => 6
      case Returned(_) => 3
      case Closing(_) => 2
      case Done(_) => 0
  }

  /** The queued and owed weight, which only parsing, pings and broadcasts can raise. */
  function Held(h: Hasher, c: Conn): nat {
    WeightOf(QueuedMessages(h, c.slot.queue.items)) + WeightOf(Pending(c.reader))
  }

  lemma ReceiveHands(h: Hasher, c: Conn, k: nat)
    requires Enabled(c, Receive) && k <= |c.sent|
    ensures var d := ActReceive(h, c);
            && k <= |d.sent|
            && WeightOf(MessagesOf(h, d.sent)[k..]) + Held(h, d) == WeightOf(MessagesOf(h, c.sent)[k..]) + Held(h, c)
            && Pipeline(h, d) < Pipeline(h, c)
  {
    hide WeightOf, Frame, Pending;
    var d, items := ActReceive(h, c), c.slot.queue.items;
    assert MessagesOf(h, d.sent)[k..] == MessagesOf(h, c.sent)[k..] + [Carried(h, items[0])];
    assert QueuedMessages(h, items) == [Carried(h, items[0])] + QueuedMessages(h, items[1..]);
    WeightConcat(MessagesOf(h, c.sent)[k..], [Carried(h, items[0])]);
    WeightConcat([Carried(h, items[0])], QueuedMessages(h, items[1..]));
  }

  lemma Enqueued(h: Hasher, items: seq<Queued>, m: Message)
    ensures WeightOf(QueuedMessages(h, items + [Reply(m)])) == WeightOf(QueuedMessages(h, items)) + WeightOf([m])
    ensures BytesQueued(h, items + [Reply(m)]) <= BytesQueued(h, items) + HEADER_LENGTH + VERSION_PAYLOAD_LENGTH
  {
    hide WeightOf, QueuedMessages, Frame;
    QueuedSnoc(h, items, Reply(m));
    BytesQueuedSnoc(h, items, Reply(m));
    WeightConcat(QueuedMessages(h, items), [m]);
  }

  lemma DeliverHands(h: Hasher, c: Conn)
    requires c.reader.Delivering?
    ensures Held(h, ActDeliver(c)) <= Held(h, c) && Pipeline(h, ActDeliver(c)) < Pipeline(h, c)
    ensures ActDeliver(c).sent == c.sent
  {
    hide WeightOf, QueuedMessages, BytesQueued;
    Enqueued(h, c.slot.queue.items, c.reader.reply);
    Weightless();
  }

  lemma QueuedSnoc(h: Hasher, qs: seq<Queued>, q: Queued)
    ensures QueuedMessages(h, qs + [q]) == QueuedMessages(h, qs) + [Carried(h, q)]
  {
    hide Carried;
  }

  lemma Weightless()
    ensures WeightOf([]) == 0
  {
  }

  /** Any working step of one node other than accepting a message: no weight gained, work done. The
      bytes it writes are work for the other end, but less than they were here. */
  lemma OtherWork(h: Hasher, me: Conn, a: Action)
    requires Enabled(me, a) && Working(a) && !a.Receive? && !a.DeliverReply?
    requires !(a.Parse? && TryParse(h, me.buffer).Accept?)
    ensures var d := Act(h, me, a);
            d.sent == me.sent && d.seen == me.seen && Held(h, d) <= Held(h, me)
            && Pipeline(h, d) + (if a.Write? then 5 * a.n else 0) < Pipeline(h, me)
  {
    hide WeightOf, QueuedMessages, ReaderLoad, WriterLoad;
    match ThreadOf(a) {
      case WriterThread => WriterFrame(h, me, a); WritingWork(h, me, a); hide Act;
      case ReaderThread => ReaderFrame(h, me, a); ReadingWork(h, me, a); hide Act;
      case Outside =>
    }
  }

  lemma WritingWork(h: Hasher, me: Conn, a: Action)
    requires Enabled(me, a) && Working(a) && ThreadOf(a) == WriterThread && !a.Receive?
    ensures var d := Act(h, me, a);
            && d.sent == me.sent && d.slot.queue.items == me.slot.queue.items && ReaderLoad(d) == ReaderLoad(me)
            && WriterLoad(h, d) + (if a.Write? then 5 * a.n else 0) < WriterLoad(h, me)
  {
    WriterFrame(h, me, a);
    hide Frame, Pending;
  }

  lemma ReadingWork(h: Hasher, me: Conn, a: Action)
    requires Enabled(me, a) && Working(a) && ThreadOf(a) == ReaderThread
    requires !a.DeliverReply? && !(a.Parse? && TryParse(h, me.buffer).Accept?)
    ensures var d := Act(h, me, a);
            && d.seen == me.seen && WeightOf(Pending(d.reader)) <= WeightOf(Pending(me.reader))
            && ReaderLoad(d) < ReaderLoad(me) && WriterLoad(h, d) == WriterLoad(h, me)
  {
    ReaderFrame(h, me, a);
    PendingKept(h, me, a);
    Weightless();
    hide TryParse, WeightOf, Pending, SlotAdvance, ReplyTo;
  }

  lemma PendingKept(h: Hasher, c: Conn, a: Action)
    requires Enabled(c, a) && ThreadOf(a) == ReaderThread && !(a.Parse? && TryParse(h, c.buffer).Accept?)
    ensures var after := Pending(Act(h, c, a).reader); after == Pending(c.reader) || after == []
  {
    hide TryParse, SlotSend, SlotAdvance;
  }

  /** A bound on the steps two nodes can take before the next ping, retry or broadcast. */
  function Budget(h: Hasher, p: Pair): nat
    requires |p.b.seen| <= |p.a.sent| && |p.a.seen| <= |p.b.sent|
  {
    3000 * (Ahead(h, p.a, p.b) + Ahead(h, p.b, p.a)) + Pipeline(h, p.a) + Pipeline(h, p.b)
  }

  lemma NoticePipeline(h: Hasher, me: Conn, you: Conn, a: Action)
    requires Enabled(me, a)
    ensures var d := Notice(h, me, you, a);
            d.sent == you.sent && d.seen == you.seen && Held(h, d) == Held(h, you)
            && Pipeline(h, d) <= Pipeline(h, you) + (if a.Write? then 5 * a.n else 0)
  {
    hide TryParse, Frame, WeightOf, QueuedMessages;
  }

  lemma ParsePipeline(h: Hasher, c: Conn)
    requires c.reader.Draining? && TryParse(h, c.buffer).Accept?
    ensures var d := ActParse(h, c);
            d.sent == c.sent && d.slot == c.slot && Pipeline(h, d) <= Pipeline(h, c) + 2003
  {
    hide TryParse;
  }

  lemma BudgetByA(h: Hasher, p: Pair, a: Action)
    requires PairInv(h, p) && Possible(h, p, Move(A, a)) && Working(a)
    requires |p.b.seen| <= |p.a.sent| && |p.a.seen| <= |p.b.sent|
    ensures var q := ByA(h, p, a);
            && |q.b.seen| <= |q.a.sent| && |q.a.seen| <= |q.b.sent|
            && Budget(h, q) < Budget(h, p)
            && Ahead(h, q.a, q.b) + Ahead(h, q.b, q.a) <= Ahead(h, p.a, p.b) + Ahead(h, p.b, p.a)
            && (a.Parse? && TryParse(h, p.a.buffer).Accept? ==>
                  Ahead(h, q.a, q.b) + Ahead(h, q.b, q.a) < Ahead(h, p.a, p.b) + Ahead(h, p.b, p.a))
  {
    hide Inv, Wire, WeightOf, MessagesOf, QueuedMessages, Pending, Pipeline, Notice, TryParse, Frame, Enabled, Act;
    NoticePipeline(h, p.a, p.b, a);
    if a.Parse? && TryParse(h, p.a.buffer).Accept? {
      ParseIs(h, p.a);
      ParseSheds(h, p.b, p.a);
      ParsePipeline(h, p.a);
      Weightless();
      HeldIdle(p.a);
    } else if a.Receive? {
      ReceiveIs(h, p.a);
      ReceiveHands(h, p.a, |p.b.seen|);
    } else if a.DeliverReply? {
      DeliverIs(h, p.a);
      DeliverHands(h, p.a);
    } else {
      OtherWork(h, p.a, a);
    }
  }

  lemma ParseIs(h: Hasher, c: Conn)
    requires Enabled(c, Parse)
    ensures c.reader.Draining? && Act(h, c, Parse) == ActParse(h, c)
  {
  }

  lemma ReceiveIs(h: Hasher, c: Conn)
    requires Enabled(c, Receive)
    ensures c.slot.queue.items != [] && Act(h, c, Receive) == ActReceive(h, c) && ActReceive(h, c).seen == c.seen
  {
  }

  lemma DeliverIs(h: Hasher, c: Conn)
    requires Enabled(c, DeliverReply)
    ensures c.reader.Delivering? && Act(h, c, DeliverReply) == ActDeliver(c) && ActDeliver(c).seen == c.seen
  {
  }

  lemma HeldIdle(c: Conn)
    requires c.reader.Draining?
    ensures Pending(c.reader) == []
  {
  }

  lemma BothBounded(h: Hasher, p: Pair)
    requires PairInv(h, p)
    ensures |p.b.seen| <= |p.a.sent| && |p.a.seen| <= |p.b.sent|
  {
    hide Inv, Wire;
    SeenAtMostSent(h, p.a, p.b);
    SeenAtMostSent(h, p.b, p.a);
  }

  /** Every working step costs; and a step that takes a message off the wire strictly lowers the
      total weight of what is still under way. */
  lemma WorkCosts(h: Hasher, p: Pair, m: Move)
    requires PairInv(h, p) && Possible(h, p, m) && Working(m.action)
    ensures var q := Next(h, p, m);
            PairInv(h, q)
            && |p.b.seen| <= |p.a.sent| && |p.a.seen| <= |p.b.sent|
            && |q.b.seen| <= |q.a.sent| && |q.a.seen| <= |q.b.sent|
            && Budget(h, q) < Budget(h, p)
            && (|q.a.seen| + |q.b.seen| > |p.a.seen| + |p.b.seen| ==>
                  Ahead(h, q.a, q.b) + Ahead(h, q.b, q.a) < Ahead(h, p.a, p.b) + Ahead(h, p.b, p.a))
  {
    hide PairInv, ByA, Working, Enabled, Ahead;
    BothBounded(h, p);
    MoveKeeps(h, p, m);
    BothBounded(h, Next(h, p, m));
    if m.side.A? {
      BudgetByA(h, p, m.action);
      SeenGrowsByParse(h, p, m.action);
    } else {
      SwapInv(h, p);
      BudgetByA(h, Swap(p), m.action);
      SeenGrowsByParse(h, Swap(p), m.action);
    }
  }

  lemma SeenGrowsByParse(h: Hasher, p: Pair, a: Action)
    requires Enabled(p.a, a)
    ensures var q := ByA(h, p, a);
            |q.a.seen| + |q.b.seen| > |p.a.seen| + |p.b.seen| ==> a.Parse? && TryParse(h, p.a.buffer).Accept?
  {
    NoticePipeline(h, p.a, p.b, a);
    SeenByParse(h, p.a, a);
    hide Act, Notice, Pipeline, Held;
  }

  lemma SeenByParse(h: Hasher, c: Conn, a: Action)
    requires Enabled(c, a)
    ensures |Act(h, c, a).seen| > |c.seen| ==> a.Parse? && TryParse(h, c.buffer).Accept?
  {
    hide TryParse, ActReceive, ActRelay, ActDeliver, ActAdvance;
    match ThreadOf(a) {
      case WriterThread => WriterFrame(h, c, a);
      case ReaderThread => ReaderFrame(h, c, a);
      case Outside => OutsideFrame(h, c, a);
    }
  }

  predicate AllWorking(moves: seq<Move>) {
    forall i :: 0 <= i < |moves| ==> Working(moves[i].action)
  }

  /** Left to themselves, two nodes stop: a run without timer pings, timeouts, read retries,
      broadcasts or evictions is no longer than the budget it starts with. */
  lemma {:induction false} OnlySoManySteps(h: Hasher, p: Pair, moves: seq<Move>)
    requires PairInv(h, p) && AllWorking(moves) && ExecPair(h, p, moves).Some?
    ensures |p.b.seen| <= |p.a.sent| && |p.a.seen| <= |p.b.sent| && |moves| <= Budget(h, p)
    decreases |moves|
  {
    hide PairInv, Possible, Next, Budget, Working;
    BothBounded(h, p);
    if moves != [] {
      WorkCosts(h, p, moves[0]);
      OnlySoManySteps(h, Next(h, p, moves[0]), moves[1..]);
    }
  }

  /** From any state two nodes can reach, whatever happened before. */
  lemma TheyFallSilent(h: Hasher, va: Version, vb: Version, before: seq<Move>, p: Pair, moves: seq<Move>)
    requires ExecPair(h, StartPair(h, va, vb), before) == Some(p)
    requires AllWorking(moves) && ExecPair(h, p, moves).Some?
    ensures |p.b.seen| <= |p.a.sent| && |p.a.seen| <= |p.b.sent| && |moves| <= Budget(h, p)
  {
    hide PairInv, Budget, AllWorking, ExecPair;
    StartPairInv(h, va, vb);
    PairRun(h, StartPair(h, va, vb), before);
    OnlySoManySteps(h, p, moves);
  }
}
