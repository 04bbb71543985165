/** src/protocol.rs: what a connection returns, and how its writer takes turns between clock and queue. */
module Outcomes {
  import opened Wrappers
  import opened Bytes
  import opened Versions
  import opened Messages
  import opened Connection
  import opened Invariants
  import opened Runs
  import opened Teardown

  // ----- the two results

  /** What the reader's and the writer's ends say of the steps taken so far. */
  predicate Tells(c: Conn, eof: bool, readFailed: bool, writeFailed: bool) {
    && (Why(c.reader) == Some(PeerClosed) <==> eof)
    && (Why(c.reader) == Some(ReadFailed) <==> readFailed)
    && (Running(c.writer) ==> !writeFailed)
    && (!Running(c.writer) ==> (c.writer.ok <==> !writeFailed))
    && (c.reader.Finished? ==> c.writer.Done? && c.reader.wrote == c.writer.ok)
    && (Why(c.reader) == Some(PeerClosed) ==> c.shut || (c.peerClosed && c.inbound == []))
  }

  lemma TellsStep(h: Hasher, c: Conn, a: Action, eof: bool, readFailed: bool, writeFailed: bool)
    requires Enabled(c, a) && Tells(c, eof, readFailed, writeFailed)
    ensures Tells(Act(h, c, a), eof || a.ReadEof?, readFailed || a.ReadFail?, writeFailed || a.WriteFail?)
  {
    hide TryParse, Frame, QueuedBytes;
    match ThreadOf(a) {
      case WriterThread => WriterFrame(h, c, a);
      case ReaderThread => ReaderFrame(h, c, a);
      case Outside => OutsideFrame(h, c, a);
    }
  }

  lemma {:induction false} TellsAlong(
      h: Hasher, c: Conn, schedule: seq<Action>, eof: bool, readFailed: bool, writeFailed: bool)
    requires Exec(h, c, schedule).Some? && Tells(c, eof, readFailed, writeFailed)
    ensures Tells(Exec(h, c, schedule).value,
                  eof || ReadEof in schedule, readFailed || ReadFail in schedule, writeFailed || WriteFail in schedule)
    decreases |schedule|
  {
    hide Act, Enabled, Tells;
    if schedule != [] {
      var a, rest := schedule[0], schedule[1..];
      assert schedule == [a] + rest;
      TellsStep(h, c, a, eof, readFailed, writeFailed);
      TellsAlong(h, Act(h, c, a), rest, eof || a.ReadEof?, readFailed || a.ReadFail?, writeFailed || a.WriteFail?);
    }
  }

  /** What a finished connection returns: Ok when both threads did. */
  predicate ReturnsOk(c: Conn)
    requires c.reader.Finished?
  {
    c.reader.why == PeerClosed && c.reader.wrote
  }

  /** Over every run: the connection returns Ok exactly when its reader came to the end of the stream
      and none of its writes failed. Unless its own writer had shut the socket by then, it has read
      everything its peer had sent. A reader ended by a failed read is the one that had one. */
  lemma WhatItReturns(h: Hasher, v: Version, schedule: seq<Action>, c: Conn)
    requires Reaches(h, v, schedule, c)
    ensures c.reader.Finished? ==> (ReturnsOk(c) <==> ReadEof in schedule && WriteFail !in schedule)
    ensures Why(c.reader) == Some(PeerClosed) <==> ReadEof in schedule
    ensures Why(c.reader) == Some(ReadFailed) <==> ReadFail in schedule
    ensures Why(c.reader) == Some(PeerClosed) ==> c.shut || (c.peerClosed && c.inbound == [])
  {
    hide Exec, Frame;
    TellsAlong(h, Start(h, v), schedule, false, false, false);
  }

  // ----- the writer's loop

  /** How often the writer has come back from the queue: with a message, or by a timeout. */
  function Waits(schedule: seq<Action>): nat {
    if schedule == [] then 0
    else (if schedule[0].Receive? || schedule[0].Timeout? then 1 else 0) + Waits(schedule[1..])
  }

  /** Past the head of the loop and not yet back from the queue. */
  function PastTop(w: Writer): nat {
    if w.Receiving? || (w.Writing? && w.pinged) then 1 else 0
  }

  lemma TurnByTurn(h: Hasher, c: Conn, a: Action)
    requires Enabled(c, a) && Running(Act(h, c, a).writer)
    ensures Running(c.writer)
    ensures PastTop(c.writer) + (if PassesTop(a) then 1 else 0) ==
            PastTop(Act(h, c, a).writer) + if a.Receive? || a.Timeout? then 1 else 0
  {
    hide TryParse, Frame, QueuedBytes;
    match ThreadOf(a) {
      case WriterThread =>
      case ReaderThread => ReaderFrame(h, c, a);
      case Outside => OutsideFrame(h, c, a);
    }
  }

  lemma {:induction false} TurnsAlong(h: Hasher, c: Conn, schedule: seq<Action>)
    requires Exec(h, c, schedule).Some? && Running(Exec(h, c, schedule).value.writer)
    ensures Running(c.writer)
    ensures PastTop(c.writer) + TopsPassed(schedule) ==
            PastTop(Exec(h, c, schedule).value.writer) + Waits(schedule)
    decreases |schedule|
  {
    hide Act, Enabled, Running, PastTop, PassesTop;
    if schedule != [] {
      TurnsAlong(h, Act(h, c, schedule[0]), schedule[1..]);
      TurnByTurn(h, c, schedule[0]);
    }
  }

  /** The writer looks at its ping clock before each wait on the queue and only then: once more than
      it has come back from the queue while it is past that point, and otherwise as often. */
  lemma ClockBeforeQueue(h: Hasher, v: Version, schedule: seq<Action>, c: Conn)
    requires Reaches(h, v, schedule, c) && Running(c.writer)
    ensures TopsPassed(schedule) ==
            Waits(schedule) + if c.writer.Receiving? || (c.writer.Writing? && c.writer.pinged) then 1 else 0
  {
    hide Exec, Frame, TopsPassed, Waits;
    TurnsAlong(h, Start(h, v), schedule);
  }
}
