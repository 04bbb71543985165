/** src/protocol.rs: between two nodes that broadcast nothing, a pong is the echo of one's own ping. */
module Echoes {
  import opened Wrappers
  import opened Bytes
  import opened Versions
  import opened Messages
  import opened Framing
  import opened Connection
  import opened Invariants
  import opened Runs
  import opened TwoNodes

  predicate NoBroadcasts(qs: seq<Queued>) {
    forall i :: 0 <= i < |qs| ==> qs[i].Reply?
  }

  lemma {:induction false} DequeuedFrom(sent: seq<Sent>, i: nat)
    requires i < |sent| && sent[i].FromQueue?
    ensures sent[i].q in Dequeued(sent)
    decreases |sent|
  {
    var before := sent[..|sent| - 1];
    if i < |before| {
      DequeuedFrom(before, i);
    }
  }

  lemma {:induction false} ReplyAmong(qs: seq<Queued>, q: Queued)
    requires q in qs && q.Reply?
    ensures q.m in RepliesAmong(qs)
  {
    var before, last := qs[..|qs| - 1], qs[|qs| - 1];
    assert qs == before + [last];
    if q in before {
      ReplyAmong(before, q);
    }
  }

  lemma {:induction false} AskingAreSeen(ms: seq<Message>, m: Message)
    requires m in Asking(ms)
    ensures m in ms
  {
    var before, last := ms[..|ms| - 1], ms[|ms| - 1];
    if m in Asking(before) {
      AskingAreSeen(before, m);
    }
  }

  /** What the writer begins, when nothing is broadcast: our version, our pings, and replies. */
  lemma BegunBy(h: Hasher, c: Conn, i: nat)
    requires Inv(h, c) && NoBroadcasts(c.accepted) && i < |c.sent|
    ensures match c.sent[i]
            case Opening(_) => true
            case TimerPing(_) => true
            case FromQueue(q) => q.Reply? && q in c.accepted && (q.m.VerackMsg? || q.m.PongMsg?)
  {
    hide Dequeued, WriterInv, BufferInv, HandshakeInv, ReplyInv, VerackInv;
    if c.sent[i].FromQueue? {
      DequeuedFrom(c.sent, i);
      var q := c.sent[i].q;
      assert q in Dequeued(c.sent) + c.slot.queue.items;
    }
  }

  lemma RepliesAnswered(h: Hasher, c: Conn, reply: Message)
    requires Inv(h, c) && Reply(reply) in c.accepted
    ensures exists m :: m in c.seen && Answers(reply, m)
  {
    hide QueueInv, WriterInv, BufferInv, HandshakeInv, VerackInv, RepliesAmong, RepliesTo, Asking, Answers;
    ReplyAmong(c.accepted, Reply(reply));
    RepliesAnswer(c.seen);
    var i :| 0 <= i < |RepliesAmong(c.accepted)| && RepliesAmong(c.accepted)[i] == reply;
    assert RepliesTo(c.seen)[i] == reply;
    AskingAreSeen(c.seen, Asking(c.seen)[i]);
  }

  /** A message parsed here was begun there; of a ping or a pong nothing changes on the way. */
  lemma ParsedWasBegun(h: Hasher, src: Conn, dst: Conn, m: Message)
    requires Inv(h, src) && Inv(h, dst) && Wire(src, dst) && Plain(h, src.accepted)
    requires m in dst.seen && (m.PingMsg? || m.PongMsg?)
    ensures exists i :: 0 <= i < |src.sent| && MessageOf(h, src.sent[i]) == m
  {
    hide Inv, Wire, Plain, FrameAll, TryParse, Carried;
    SeenWasSent(h, src, dst);
    var i :| 0 <= i < |dst.seen| && dst.seen[i] == m;
    assert Received(MessagesOf(h, src.sent)[i]) == m;
    assert MessageOf(h, src.sent[i]) == m;
  }

  lemma PongEchoes(h: Hasher, src: Conn, dst: Conn, n: u64)
    requires Inv(h, src) && Inv(h, dst) && Wire(src, dst) && Wire(dst, src)
    requires NoBroadcasts(src.accepted) && NoBroadcasts(dst.accepted) && PongMsg(n) in dst.seen
    ensures TimerPing(n) in dst.sent
  {
    hide Inv, Wire;
    NothingIsPlain(h, src.accepted);
    NothingIsPlain(h, dst.accepted);
    hide Plain;
    ParsedWasBegun(h, src, dst, PongMsg(n));
    var i :| 0 <= i < |src.sent| && MessageOf(h, src.sent[i]) == PongMsg(n);
    BegunBy(h, src, i);
    RepliesAnswered(h, src, PongMsg(n));
    ParsedWasBegun(h, dst, src, PingMsg(n));
    var k :| 0 <= k < |dst.sent| && MessageOf(h, dst.sent[k]) == PingMsg(n);
    BegunBy(h, dst, k);
  }

  lemma NothingIsPlain(h: Hasher, qs: seq<Queued>)
    requires NoBroadcasts(qs)
    ensures Plain(h, qs)
  {
  }

  /** In every interleaving of two nodes that broadcast nothing, every pong that either has parsed
      carries the nonce of a ping of its own. */
  lemma PongsEchoPings(h: Hasher, va: Version, vb: Version, moves: seq<Move>, p: Pair)
    requires ExecPair(h, StartPair(h, va, vb), moves) == Some(p)
    requires NoBroadcasts(p.a.accepted) && NoBroadcasts(p.b.accepted)
    ensures forall n :: PongMsg(n) in p.a.seen ==> TimerPing(n) in p.a.sent
    ensures forall n :: PongMsg(n) in p.b.seen ==> TimerPing(n) in p.b.sent
  {
    hide Inv, ExecPair, StartPair, Wire, NoBroadcasts, Plain;
    StartPairInv(h, va, vb);
    PairRun(h, StartPair(h, va, vb), moves);
    forall n | PongMsg(n) in p.a.seen ensures TimerPing(n) in p.a.sent {
      PongEchoes(h, p.b, p.a, n);
    }
    forall n | PongMsg(n) in p.b.seen ensures TimerPing(n) in p.b.sent {
      PongEchoes(h, p.a, p.b, n);
    }
  }
}
