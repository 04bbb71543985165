/** src/protocol.rs: in every endless run of two nodes that is fair to their four threads and free of
    faults, the handshake completes on both sides, whatever pings and plain broadcasts go with it.

    Assumed of the system besides fairness: a read does not time out while bytes are waiting. */
module Handshakes {
  import opened Wrappers
  import opened Bytes
  import opened Versions
  import opened Messages
  import opened Framing
  import opened Node
  import opened Connection
  import opened Invariants
  import opened Runs
  import opened Teardown
  import opened TwoNodes
  import opened Rest

  type Story = nat -> Pair
  type Moves = nat -> Move

  function Of(p: Pair, s: Side): Conn {
    if s.A? then p.a else p.b
  }

  function Other(s: Side): Side {
    if s.A? then B else A
  }

  /** One move of the story: possible, no fault, and no read that times out over waiting bytes. */
  predicate MovesAt(h: Hasher, run: Story, moves: Moves, i: nat) {
    var m := moves(i);
    && Possible(h, run(i), m) && !Fault(Of(run(i), m.side), m.action)
    && !(m.action.ReadRetry? && Of(run(i), m.side).inbound != [])
    && run(i + 1) == TwoNodes.Next(h, run(i), m)
  }

  predicate By(moves: Moves, s: Side, t: Thread, i: nat) {
    moves(i).side == s && ThreadOf(moves(i).action) == t
  }

  ghost predicate TurnOf(run: Story, moves: Moves, s: Side, t: Thread, j: nat) {
    By(moves, s, t, j) || !CanMove(Of(run(j), s), t)
  }

  ghost predicate TurnComes(run: Story, moves: Moves, s: Side, t: Thread, i: nat) {
    exists j: nat :: i <= j && TurnOf(run, moves, s, t, j)
  }

  /** An endless faultless run, fair to each side's reader and writer, from two live ends. */
  ghost predicate Told(h: Hasher, run: Story, moves: Moves) {
    && PairInv(h, run(0)) && Live(run(0).a) && Live(run(0).b)
    && (forall i: nat :: MovesAt(h, run, moves, i))
    && (forall s: Side, t: Thread, i: nat :: t != Outside ==> TurnComes(run, moves, s, t, i))
  }

  // ----- what holds at every point of it

  lemma {:induction false} StaysSound(h: Hasher, run: Story, moves: Moves, i: nat)
    requires Told(h, run, moves)
    ensures PairInv(h, run(i)) && Live(run(i).a) && Live(run(i).b)
  {
    hide PairInv, Live, Fault, Possible, TwoNodes.Next;
    if i > 0 {
      StaysSound(h, run, moves, i - 1);
      assert MovesAt(h, run, moves, i - 1);
      LiveMove(h, run(i - 1), moves(i - 1));
      MoveKeeps(h, run(i - 1), moves(i - 1));
    }
  }

  /** One end's part of the pair's invariant. */
  lemma EndsHold(h: Hasher, run: Story, moves: Moves, s: Side, i: nat)
    requires Told(h, run, moves)
    ensures var c, d := Of(run(i), s), Of(run(i), Other(s));
            && Inv(h, c) && Inv(h, d) && Live(c) && Live(d) && Wire(c, d) && Wire(d, c)
            && Plain(h, c.accepted) && Plain(h, d.accepted)
  {
    hide Told, Inv, Live, Wire, Plain;
    StaysSound(h, run, moves, i);
  }

  /** What happens to one end in one move: its own action, an arrival, or nothing. */
  ghost predicate Becomes(h: Hasher, c: Conn, d: Conn, own: Option<Action>) {
    match own
    case Some(a) => Enabled(c, a) && d == Act(h, c, a)
    case None => d == c || exists bytes :: Enabled(c, Arrive(bytes)) && d == Act(h, c, Arrive(bytes))
  }

  function Own(m: Move, s: Side): Option<Action> {
    if m.side == s then Some(m.action) else None
  }

  lemma NoticeIsArrival(h: Hasher, me: Conn, you: Conn, a: Action)
    requires Enabled(me, a) && Live(me)
    ensures Becomes(h, you, Notice(h, me, you, a), None)
  {
    hide Frame, TryParse;
  }

  lemma MoveHolds(h: Hasher, run: Story, moves: Moves, i: nat)
    requires Told(h, run, moves)
    ensures MovesAt(h, run, moves, i)
  {
    hide MovesAt, PairInv, Live, TurnComes;
  }

  lemma OneMove(h: Hasher, run: Story, moves: Moves, s: Side, i: nat)
    requires Told(h, run, moves)
    ensures Becomes(h, Of(run(i), s), Of(run(i + 1), s), Own(moves(i), s))
  {
    hide Told, Inv, Live, Wire, Plain, Enabled, Act, Notice, IsPlain, Fault, Becomes;
    EndsHold(h, run, moves, s, i);
    MoveHolds(h, run, moves, i);
    OwnMove(h, run, moves, i);
    var m := moves(i);
    if m.side != s {
      NoticeIsArrival(h, Of(run(i), Other(s)), Of(run(i), s), m.action);
    }
  }

  /** The mover's end, and what the move finds there. */
  lemma OwnMove(h: Hasher, run: Story, moves: Moves, i: nat)
    requires Told(h, run, moves)
    ensures var m := moves(i);
            var c, d := Of(run(i), m.side), Of(run(i + 1), m.side);
            && Enabled(c, m.action) && d == Act(h, c, m.action) && !Fault(c, m.action)
            && !(m.action.ReadRetry? && c.inbound != [])
            && Becomes(h, c, d, Some(m.action))
  {
    hide Told, Enabled, Act, Notice, IsPlain, Fault;
    MoveHolds(h, run, moves, i);
  }

  // ----- a thread's share of a connection changes only by its own steps

  lemma WriterWaits(h: Hasher, c: Conn, d: Conn, own: Option<Action>)
    requires Becomes(h, c, d, own) && (own.Some? ==> ThreadOf(own.value) != WriterThread)
    ensures d.writer == c.writer && d.sent == c.sent && d.out == c.out
  {
    hide Frame, TryParse;
    if own.Some? {
      if ThreadOf(own.value) == ReaderThread {
        ReaderFrame(h, c, own.value);
      } else {
        OutsideFrame(h, c, own.value);
      }
      hide Act, Enabled;
    }
  }

  lemma ReaderWaits(h: Hasher, c: Conn, d: Conn, own: Option<Action>)
    requires Becomes(h, c, d, own) && (own.Some? ==> ThreadOf(own.value) != ReaderThread)
    ensures d.reader == c.reader && d.buffer == c.buffer && d.taken == c.taken && d.seen == c.seen
  {
    hide Frame, TryParse;
    if own.Some? {
      if ThreadOf(own.value) == WriterThread {
        WriterFrame(h, c, own.value);
      } else {
        OutsideFrame(h, c, own.value);
      }
      hide Act, Enabled;
    }
  }

  lemma BecomesExtends(h: Hasher, c: Conn, d: Conn, own: Option<Action>)
    requires Becomes(h, c, d, own)
    ensures Extends(c, d)
  {
    hide Act, Enabled;
    match own {
      case Some(a) => StepExtends(h, c, a);
      case None =>
        if d != c {
          var bytes :| Enabled(c, Arrive(bytes)) && d == Act(h, c, Arrive(bytes));
          StepExtends(h, c, Arrive(bytes));
        }
    }
  }

  lemma {:induction false} Grows(h: Hasher, run: Story, moves: Moves, s: Side, i: nat, j: nat)
    requires Told(h, run, moves) && i <= j
    ensures Extends(Of(run(i), s), Of(run(j), s))
    decreases j
  {
    hide Told, Becomes;
    if i < j {
      Grows(h, run, moves, s, i, j - 1);
      OneMove(h, run, moves, s, j - 1);
      BecomesExtends(h, Of(run(j - 1), s), Of(run(j), s), Own(moves(j - 1), s));
    }
  }

  lemma LiveCanMove(h: Hasher, c: Conn, t: Thread)
    requires Inv(h, c) && Live(c) && t != Outside
    ensures CanMove(c, t)
  {
    hide Inv;
    Shape(h, c);
    if t == WriterThread {
      var a := match c.writer
        case Writing(_, _) => WriteFail
        case Top => Turn
        case _ => if c.slot.queue.items != [] then Receive else Timeout;
      assert Enabled(c, a) && ThreadOf(a) == WriterThread;
    } else {
      var a := match c.reader
        case Reading => ReadFail
        case Draining => Parse
        case Handling(_) => AdvanceState
        case Logging(_) => Log
        case Delivering(_) => DeliverReply
        case _ => Check(false);
      assert Enabled(c, a) && ThreadOf(a) == ReaderThread;
    }
  }

  lemma SomeTurn(h: Hasher, run: Story, moves: Moves, s: Side, t: Thread, i: nat) returns (j: nat)
    requires Told(h, run, moves) && t != Outside
    ensures i <= j && By(moves, s, t, j)
  {
    assert TurnComes(run, moves, s, t, i) by {
      hide MovesAt, PairInv, Live, TurnComes;
    }
    hide Told, CanMove, By, Inv, Live, Wire, Plain;
    j :| i <= j && TurnOf(run, moves, s, t, j);
    EndsHold(h, run, moves, s, j);
    LiveCanMove(h, Of(run(j), s), t);
  }

  /** The next move of a thread: there always is one. */
  lemma NextTurn(h: Hasher, run: Story, moves: Moves, s: Side, t: Thread, i: nat) returns (j: nat)
    requires Told(h, run, moves) && t != Outside
    ensures i <= j && By(moves, s, t, j) && forall k :: i <= k < j ==> !By(moves, s, t, k)
    ensures moves(j).side == s && ThreadOf(moves(j).action) == t
  {
    hide Told, ThreadOf;
    var last := SomeTurn(h, run, moves, s, t, i);
    j := i;
    while !By(moves, s, t, j)
      invariant i <= j <= last && forall k :: i <= k < j ==> !By(moves, s, t, k)
      invariant By(moves, s, t, last)
      decreases last - j
    {
      j := j + 1;
    }
  }

  lemma {:induction false} WriterIdle(h: Hasher, run: Story, moves: Moves, s: Side, i: nat, j: nat)
    requires Told(h, run, moves) && i <= j && forall k :: i <= k < j ==> !By(moves, s, WriterThread, k)
    ensures var c, d := Of(run(i), s), Of(run(j), s); d.writer == c.writer && d.sent == c.sent && d.out == c.out
    decreases j
  {
    hide Told, Becomes, ThreadOf;
    if i < j {
      WriterIdle(h, run, moves, s, i, j - 1);
      OneMove(h, run, moves, s, j - 1);
      assert !By(moves, s, WriterThread, j - 1);
      WriterWaits(h, Of(run(j - 1), s), Of(run(j), s), Own(moves(j - 1), s));
    }
  }

  lemma {:induction false} ReaderIdle(h: Hasher, run: Story, moves: Moves, s: Side, i: nat, j: nat)
    requires Told(h, run, moves) && i <= j && forall k :: i <= k < j ==> !By(moves, s, ReaderThread, k)
    ensures var c, d := Of(run(i), s), Of(run(j), s);
            d.reader == c.reader && d.buffer == c.buffer && d.taken == c.taken && d.seen == c.seen
    decreases j
  {
    hide Told, Becomes, ThreadOf;
    if i < j {
      ReaderIdle(h, run, moves, s, i, j - 1);
      OneMove(h, run, moves, s, j - 1);
      assert !By(moves, s, ReaderThread, j - 1);
      ReaderWaits(h, Of(run(j - 1), s), Of(run(j), s), Own(moves(j - 1), s));
    }
  }

  // ----- what is queued is begun, what is begun is written, what is written is parsed

  function WriterRank(w: Writer): nat {
    match w
    case Writing(rest, pinged) => |rest| + if pinged then 0 else 101
    case Top => 100
    case _ => 0
  }

  /** While messages wait in the queue, a step of the writer either takes one or comes nearer to it. */
  lemma QueueShrinks(h: Hasher, c: Conn, a: Action)
    requires Inv(h, c) && Live(c) && Enabled(c, a) && ThreadOf(a) == WriterThread && !Fault(c, a)
    requires c.slot.queue.items != []
    ensures var d := Act(h, c, a);
            || |Dequeued(d.sent)| > |Dequeued(c.sent)|
            || (Dequeued(d.sent) == Dequeued(c.sent) && WriterRank(d.writer) < WriterRank(c.writer))
  {
    hide Inv, Frame, Dequeued, QueuedBytes;
    Shape(h, c);
    match a {
      case Receive => DequeuedSnoc(c.sent, FromQueue(c.slot.queue.items[0]));
      case PingDue(nonce) =>
        DequeuedSnoc(c.sent, TimerPing(nonce));
        assert Dequeued(c.sent) + [] == Dequeued(c.sent);
      case _ =>
    }
  }

  lemma StillQueued(h: Hasher, c: Conn, n: nat)
    requires Inv(h, c) && |Dequeued(c.sent)| < n <= |c.accepted|
    ensures c.slot.queue.items != []
  {
    hide Dequeued, WriterInv, BufferInv, HandshakeInv, ReplyInv, VerackInv;
  }

  lemma {:induction false} Dequeues(h: Hasher, run: Story, moves: Moves, s: Side, i: nat, n: nat) returns (j: nat)
    requires Told(h, run, moves) && n <= |Of(run(i), s).accepted|
    ensures i <= j && n <= |Dequeued(Of(run(j), s).sent)|
    decreases n - |Dequeued(Of(run(i), s).sent)|, WriterRank(Of(run(i), s).writer)
  {
    hide Told, Inv, Live, Dequeued, Act, Enabled, Fault, WriterRank, ThreadOf, Wire, Plain, By;
    if n <= |Dequeued(Of(run(i), s).sent)| {
      return i;
    }
    var k := NextTurn(h, run, moves, s, WriterThread, i);
    WriterIdle(h, run, moves, s, i, k);
    Grows(h, run, moves, s, i, k);
    Grows(h, run, moves, s, k, k + 1);
    EndsHold(h, run, moves, s, k);
    OwnMove(h, run, moves, k);
    StillQueued(h, Of(run(k), s), n);
    QueueShrinks(h, Of(run(k), s), moves(k).action);
    j := Dequeues(h, run, moves, s, k + 1, n);
  }

  lemma WriteShrinks(h: Hasher, c: Conn, a: Action, goal: nat)
    requires Inv(h, c) && Live(c) && Enabled(c, a) && ThreadOf(a) == WriterThread && !Fault(c, a)
    requires |c.out| < goal <= |Written(h, c.sent)|
    ensures |Act(h, c, a).out| > |c.out|
  {
    hide Frame, Written, QueuedBytes, Dequeued, QueueInv, BufferInv, HandshakeInv, ReplyInv, VerackInv;
  }

  lemma {:induction false} WrittenGrows(h: Hasher, sent: seq<Sent>, later: seq<Sent>)
    requires sent <= later
    ensures Written(h, sent) <= Written(h, later)
    decreases |later|
  {
    hide SentBytes;
    if sent != later {
      WrittenGrows(h, sent, later[..|later| - 1]);
    }
  }

  lemma {:induction false} Writes(h: Hasher, run: Story, moves: Moves, s: Side, i: nat, goal: nat) returns (j: nat)
    requires Told(h, run, moves) && goal <= |Written(h, Of(run(i), s).sent)|
    ensures i <= j && goal <= |Of(run(j), s).out|
    decreases goal - |Of(run(i), s).out|
  {
    hide Told, Inv, Live, Written, Act, Enabled, Fault, ThreadOf, Wire, Plain, By;
    if goal <= |Of(run(i), s).out| {
      return i;
    }
    var k := NextTurn(h, run, moves, s, WriterThread, i);
    WriterIdle(h, run, moves, s, i, k);
    Grows(h, run, moves, s, k, k + 1);
    EndsHold(h, run, moves, s, k);
    OwnMove(h, run, moves, k);
    WriteShrinks(h, Of(run(k), s), moves(k).action, goal);
    WrittenGrows(h, Of(run(k), s).sent, Of(run(k + 1), s).sent);
    j := Writes(h, run, moves, s, k + 1, goal);
  }

  function ReaderRank(r: Reader): nat {
    match r
    case Handling(_) => 8
    case Logging(_) => 7
    case Delivering(_) => 6
    case Draining => 5
    case Checking => 4
    case _ => 3
  }

  function Lag(c: Conn, goal: nat): nat {
    if |c.taken| < goal then goal - |c.taken| else 0
  }

  /** Until the reader has taken what it is to take and drained its buffer, each of its steps helps. */
  lemma ReadShrinks(h: Hasher, c: Conn, a: Action, goal: nat)
    requires Live(c) && Enabled(c, a) && ThreadOf(a) == ReaderThread && !Fault(c, a)
    requires !(a.ReadRetry? && c.inbound != []) && goal <= |c.taken| + |c.inbound|
    requires !(c.reader.Reading? && goal <= |c.taken|) && Live(Act(h, c, a))
    ensures var d := Act(h, c, a);
            || Lag(d, goal) < Lag(c, goal)
            || (Lag(d, goal) == Lag(c, goal) && |d.buffer| < |c.buffer|)
            || (Lag(d, goal) == Lag(c, goal) && |d.buffer| == |c.buffer| && ReaderRank(d.reader) < ReaderRank(c.reader))
  {
    hide TryParse, SlotSend, SlotAdvance;
    if a.DeliverReply? {
      DeliverFrame(c);
    }
  }

  lemma WireHolds(src: Conn, dst: Conn)
    requires Wire(src, dst) && Live(dst)
    ensures |dst.taken| + |dst.inbound| == |src.out| && dst.taken <= src.out
  {
    assert dst.taken <= dst.taken + dst.inbound;
  }

  lemma {:induction false} Reads(h: Hasher, run: Story, moves: Moves, s: Side, i: nat, goal: nat) returns (j: nat)
    requires Told(h, run, moves) && goal <= |Of(run(i), Other(s)).out|
    ensures i <= j && goal <= |Of(run(j), s).taken| && Of(run(j), s).reader.Reading?
    decreases Lag(Of(run(i), s), goal), |Of(run(i), s).buffer|, ReaderRank(Of(run(i), s).reader)
  {
    hide Told, Inv, Live, Act, Enabled, Fault, ThreadOf, Wire, Plain, ReaderRank, By;
    if goal <= |Of(run(i), s).taken| && Of(run(i), s).reader.Reading? {
      return i;
    }
    var k := NextTurn(h, run, moves, s, ReaderThread, i);
    ReaderIdle(h, run, moves, s, i, k);
    Grows(h, run, moves, Other(s), i, k);
    Grows(h, run, moves, Other(s), k, k + 1);
    EndsHold(h, run, moves, s, k);
    EndsHold(h, run, moves, s, k + 1);
    OwnMove(h, run, moves, k);
    WireHolds(Of(run(k), Other(s)), Of(run(k), s));
    ReadShrinks(h, Of(run(k), s), moves(k).action, goal);
    j := Reads(h, run, moves, s, k + 1, goal);
  }

  // ----- so the handshake gets through

  /** A reader that has taken the frames of some messages, and drained its buffer, has seen them. */
  lemma TakenIsSeen(h: Hasher, c: Conn, ms: seq<Message>)
    requires Inv(h, c) && Live(c) && c.reader.Reading? && FrameAll(h, ms) <= c.taken
    ensures Events(ms) <= Events(c.seen)
  {
    hide Inv, Events, TryParse, FrameAll, ReceivedAll;
    InvParts(h, c);
    hide QueueInv, WriterInv, HandshakeInv, ReplyInv, VerackInv;
    var frames, more := FrameAll(h, ms), c.taken[|FrameAll(h, ms)|..];
    assert c.taken == frames + more;
    OneCut(h, Collect, [], frames, more);
    FramesParse(h, [], ms, frames);
    assert [] + ReceivedAll(ms) == ReceivedAll(ms) && [] + more == more;
    EachMessageTakesAHeader(h, ReceivedAll(ms), more);
    EventsSurvive(ms);
    EventsOfPrefix(ReceivedAll(ms), c.seen);
  }

  lemma BegunSays(h: Hasher, c: Conn, earlier: seq<Queued>)
    requires Inv(h, c) && Plain(h, c.accepted) && earlier <= Dequeued(c.sent)
    ensures Written(h, c.sent) == FrameAll(h, MessagesOf(h, c.sent))
    ensures [VersionArrived] + Events(QueuedMessages(h, earlier)) <= Events(MessagesOf(h, c.sent))
  {
    hide Inv, Events, Plain, Written, FrameAll, MessagesOf, Dequeued, Carried;
    CommitParts(h, c);
    PlainWritten(h, c.sent);
    EventsSent(h, c.sent);
    assert QueuedMessages(h, earlier) <= QueuedMessages(h, Dequeued(c.sent));
    EventsOfPrefix(QueuedMessages(h, earlier), QueuedMessages(h, Dequeued(c.sent)));
  }

  lemma PrefixByLength<T>(a: seq<T>, b: seq<T>, c: seq<T>)
    requires a <= c && b <= c && |a| <= |b|
    ensures a <= b
  {
    assert a == c[..|a|] && b == c[..|b|];
  }

  lemma QueueOrder(h: Hasher, c: Conn, earlier: seq<Queued>)
    requires Inv(h, c) && earlier <= c.accepted && |earlier| <= |Dequeued(c.sent)|
    ensures earlier <= Dequeued(c.sent)
  {
    hide Dequeued, WriterInv, BufferInv, HandshakeInv, ReplyInv, VerackInv;
    PrefixByLength(earlier, Dequeued(c.sent), c.accepted);
  }

  lemma OutIsWritten(h: Hasher, c: Conn)
    requires Inv(h, c)
    ensures c.out <= Written(h, c.sent)
  {
    hide Written, QueueInv, BufferInv, HandshakeInv, ReplyInv, VerackInv;
  }

  /** Whatever one end has committed to of the handshake at some point, the other will have seen. */
  lemma Delivered(h: Hasher, run: Story, moves: Moves, s: Side, i: nat) returns (j: nat)
    requires Told(h, run, moves)
    ensures i <= j && Of(run(j), s).reader.Reading?
    ensures [VersionArrived] + Events(QueuedMessages(h, Of(run(i), Other(s)).accepted)) <= Events(Of(run(j), s).seen)
  {
    hide Told, Inv, Live, Plain, Wire, Events, QueuedMessages, Dequeued, Written, FrameAll, MessagesOf;
    var src, early := Other(s), Of(run(i), Other(s)).accepted;
    var begun := Dequeues(h, run, moves, src, i, |early|);
    Grows(h, run, moves, src, i, begun);
    EndsHold(h, run, moves, src, begun);
    var c := Of(run(begun), src);
    QueueOrder(h, c, early);
    BegunSays(h, c, early);
    var bytes := Written(h, c.sent);
    var written := Writes(h, run, moves, src, begun, |bytes|);
    j := Reads(h, run, moves, s, written, |bytes|);
    Grows(h, run, moves, src, begun, j);
    EndsHold(h, run, moves, s, j);
    var from, to := Of(run(j), src), Of(run(j), s);
    WireHolds(from, to);
    OutIsWritten(h, from);
    WrittenGrows(h, c.sent, from.sent);
    PrefixByLength(bytes, to.taken, Written(h, from.sent));
    TakenIsSeen(h, to, MessagesOf(h, c.sent));
  }

  lemma ReadyByEvents(h: Hasher, c: Conn)
    requires Inv(h, c) && Live(c) && c.reader.Reading? && WHOLE_HANDSHAKE <= Events(c.seen)
    ensures c.slot.entry == Some(Ready)
  {
    hide Inv, Events, Live;
    StateOfIdle(h, c);
    HandshakeAcceptsPrefixes(Events(c.seen));
    LiveEntry(c);
  }

  lemma LiveEntry(c: Conn)
    requires Live(c)
    ensures c.slot.entry.Some?
  {
  }

  /** A reader at rest that has seen a version has queued a verack. */
  lemma HasAnswered(h: Hasher, c: Conn)
    requires Inv(h, c) && Live(c) && Plain(h, c.accepted) && c.reader.Reading? && [VersionArrived] <= Events(c.seen)
    ensures [VersionArrived] + Events(QueuedMessages(h, c.accepted)) == WHOLE_HANDSHAKE
  {
    hide Inv, Events, Plain, QueuedMessages, RepliesAmong, Live;
    StateOfIdle(h, c);
    HandshakeAcceptsPrefixes(Events(c.seen));
    PlainEvents(h, c.accepted);
  }

  lemma ReadyStays(h: Hasher, c: Conn, d: Conn, own: Option<Action>)
    requires Becomes(h, c, d, own) && Live(d) && c.slot.entry == Some(Ready)
    ensures d.slot.entry == Some(Ready)
  {
    hide TryParse, Frame;
    if own.Some? {
      match ThreadOf(own.value) {
        case WriterThread => WriterFrame(h, c, own.value);
        case Outside => OutsideFrame(h, c, own.value);
        case ReaderThread =>
      }
    }
  }

  lemma {:induction false} ReadyForGood(h: Hasher, run: Story, moves: Moves, s: Side, i: nat, j: nat)
    requires Told(h, run, moves) && i <= j && Of(run(i), s).slot.entry == Some(Ready)
    ensures Of(run(j), s).slot.entry == Some(Ready)
    decreases j
  {
    hide Told, Becomes, Live, Inv, Wire, Plain;
    if i < j {
      ReadyForGood(h, run, moves, s, i, j - 1);
      OneMove(h, run, moves, s, j - 1);
      EndsHold(h, run, moves, s, j);
      ReadyStays(h, Of(run(j - 1), s), Of(run(j), s), Own(moves(j - 1), s));
    }
  }

  /** Both handshakes complete, and stay complete. */
  lemma BothGetReady(h: Hasher, run: Story, moves: Moves) returns (k: nat)
    requires Told(h, run, moves)
    ensures forall j :: k <= j ==> run(j).a.slot.entry == Some(Ready) && run(j).b.slot.entry == Some(Ready)
  {
    hide Told, Inv, Live, Plain, Wire, Events, QueuedMessages;
    var heard := Delivered(h, run, moves, B, 0);
    EndsHold(h, run, moves, B, heard);
    HasAnswered(h, run(heard).b);
    var first := Delivered(h, run, moves, A, heard);
    EndsHold(h, run, moves, A, first);
    ReadyByEvents(h, run(first).a);
    HasAnswered(h, run(first).a);
    k := Delivered(h, run, moves, B, first);
    EndsHold(h, run, moves, B, k);
    ReadyByEvents(h, run(k).b);
    forall j | k <= j ensures run(j).a.slot.entry == Some(Ready) && run(j).b.slot.entry == Some(Ready) {
      ReadyForGood(h, run, moves, A, first, j);
      ReadyForGood(h, run, moves, B, k, j);
    }
  }

  /** So do those of any two nodes that set out to speak to each other. */
  lemma TheyAlwaysShakeHands(h: Hasher, va: Version, vb: Version, run: Story, moves: Moves) returns (k: nat)
    requires run(0) == StartPair(h, va, vb)
    requires forall i: nat :: MovesAt(h, run, moves, i)
    requires forall s: Side, t: Thread, i: nat :: t != Outside ==> TurnComes(run, moves, s, t, i)
    ensures forall j :: k <= j ==> run(j).a.slot.entry == Some(Ready) && run(j).b.slot.entry == Some(Ready)
  {
    hide PairInv, MovesAt, TurnComes, Frame;
    StartPairInv(h, va, vb);
    k := BothGetReady(h, run, moves);
  }
}
