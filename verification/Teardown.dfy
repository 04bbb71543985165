/** src/protocol.rs: once anything ends a connection, both its threads end.

    Assumed of the system: a read returns once the socket is shut (`ReadEof` is then possible and
    `ReadRetry` is not), and a write returns (`Write` or `WriteFail` is always possible). */
module Teardown {
  import opened Wrappers
  import opened Bytes
  import opened Versions
  import opened Messages
  import opened Framing
  import opened Node
  import opened Connection
  import opened Invariants
  import opened Runs

  /** The entry is gone, or the reader has left its loop, or the writer has left its own. */
  predicate Doomed(c: Conn) {
    c.slot.entry.None? || Why(c.reader).Some? || !Running(c.writer)
  }

  /** The writer cannot end while the table holds its sender: the reader must let go of it first. */
  predicate HoldsSender(c: Conn) {
    c.slot.entry.Some? && Running(c.writer)
  }

  /** The thread whose turn it is to bring the end nearer. */
  function Helpful(c: Conn): Thread {
    if HoldsSender(c) then ReaderThread else if !c.writer.Done? then WriterThread else ReaderThread
  }

  function WriterWork(h: Hasher, c: Conn): nat {
    var queued := 200 * |c.slot.queue.items| + BytesQueued(h, c.slot.queue.items);
    match c.writer
    case Writing(rest, pinged) => queued + |rest| + if pinged then 9 else 100
    case Top => queued + 99
    case Receiving => queued + 8
    case Returned(_) => 3
    case Closing(_) => 2
    case Done(_) => 0
  }

  function ReaderWork(c: Conn): nat {
    4 * |c.inbound| + |c.buffer|
    + match c.reader
      case Handling(_) => 8
      case Logging(_) => 7
      case Delivering(_) => 6
      case Draining => 5
      case Checking => 4
      case Reading => 3
      case Ended(_) => 2
      case Joining(_) => 1
      case Finished(_, _) => 0
  }

  /** What is left: release the sender, then end the writer, then end the reader. */
  function Stage(c: Conn): nat {
    if HoldsSender(c) then 2 else if !c.writer.Done? then 1 else 0
  }

  function Work(h: Hasher, c: Conn): nat {
    if HoldsSender(c) then 0 else if !c.writer.Done? then WriterWork(h, c) else ReaderWork(c)
  }

  predicate Nearer(h: Hasher, after: Conn, before: Conn) {
    Stage(after) < Stage(before) || (Stage(after) == Stage(before) && Work(h, after) < Work(h, before))
  }

  lemma Shape(h: Hasher, c: Conn)
    requires Inv(h, c)
    ensures c.writer.Writing? ==> c.writer.rest != []
    ensures c.shut <==> c.writer.Done?
    ensures c.slot.queue.open <==> Running(c.writer) || c.writer.Returned?
    ensures c.reader.Joining? || c.reader.Finished? ==> c.slot.entry.None?
    ensures c.reader.Finished? ==> c.writer.Done?
  {
    hide Process, Collect, Dequeued, Written, Follow, Events, RepliesTo, RepliesAmong;
  }

  lemma DoomIsFinal(h: Hasher, c: Conn, a: Action)
    requires Doomed(c) && Enabled(c, a)
    ensures Doomed(Act(h, c, a))
  {
    hide TryParse, Frame;
  }

  lemma WriterWorks(h: Hasher, c: Conn, a: Action)
    requires Enabled(c, a) && ThreadOf(a) == WriterThread
    ensures WriterWork(h, Act(h, c, a)) < WriterWork(h, c) || a.Timeout?
  {
    hide TryParse, Frame;
  }

  lemma ReaderWorks(h: Hasher, c: Conn, a: Action)
    requires Enabled(c, a) && ThreadOf(a) == ReaderThread
    ensures ReaderWork(Act(h, c, a)) < ReaderWork(c) || a.ReadRetry?
  {
    hide TryParse, Frame;
  }

  /** A step of the helpful thread always brings the end nearer. */
  lemma HelpfulStep(h: Hasher, c: Conn, a: Action)
    requires Inv(h, c) && Doomed(c) && Enabled(c, a) && ThreadOf(a) == Helpful(c)
    ensures Nearer(h, Act(h, c, a), c)
  {
    hide TryParse, Frame, WriterWork, ReaderWork, Inv;
    Shape(h, c);
    if Helpful(c) == WriterThread {
      WriterWorks(h, c, a);
    } else {
      ReaderWorks(h, c, a);
    }
  }

  lemma OthersStep(h: Hasher, c: Conn, a: Action)
    requires Doomed(c) && Enabled(c, a) && ThreadOf(a) != Helpful(c)
    requires c.shut <==> c.writer.Done?
    ensures Stage(Act(h, c, a)) < Stage(c) || (Stage(Act(h, c, a)) == Stage(c) && Work(h, Act(h, c, a)) == Work(h, c))
  {
    hide TryParse, Frame;
  }

  /** No step of anyone puts it off. */
  lemma AnyStep(h: Hasher, c: Conn, a: Action)
    requires Inv(h, c) && Doomed(c) && Enabled(c, a)
    ensures Nearer(h, Act(h, c, a), c) || (Stage(Act(h, c, a)) == Stage(c) && Work(h, Act(h, c, a)) == Work(h, c))
  {
    hide Inv, Act, Enabled, Doomed, Stage, Work, Helpful;
    Shape(h, c);
    if ThreadOf(a) == Helpful(c) {
      HelpfulStep(h, c, a);
    } else {
      OthersStep(h, c, a);
    }
  }

  /** Something the helpful thread can do. */
  function NextMove(c: Conn): Action
    requires !c.reader.Finished?
  {
    if Helpful(c) == WriterThread then
      match c.writer
      case Writing(_, _) => WriteFail
      case Top => Turn
      case Receiving => if c.slot.queue.items != [] then Receive else Disconnected
      case Returned(_) => HangUp
      case _ => Shutdown
    else
      match c.reader
      case Reading => ReadEof
      case Draining => Parse
      case Handling(_) => AdvanceState
      case Logging(_) => Log
      case Delivering(_) => DeliverReply
      case Checking => Check(false)
      case Ended(_) => Unregister
      case _ => Join
  }

  /** No doomed connection is stuck: until it has finished, the helpful thread can move. */
  lemma NeverStuck(h: Hasher, c: Conn)
    requires Inv(h, c) && Doomed(c) && !c.reader.Finished?
    ensures Enabled(c, NextMove(c)) && ThreadOf(NextMove(c)) == Helpful(c)
  {
    hide Inv;
    Shape(h, c);
  }

  /** So there is a run of the helpful threads alone that brings a doomed connection to its end:
      writer gone, socket shut, reader finished, registration released. */
  lemma {:induction false} CanEnd(h: Hasher, c: Conn) returns (schedule: seq<Action>, end: Conn)
    requires Inv(h, c) && Doomed(c)
    ensures Exec(h, c, schedule) == Some(end) && Inv(h, end)
    ensures end.reader.Finished? && end.writer.Done? && end.shut && end.slot.entry.None?
    decreases Stage(c), Work(h, c)
  {
    hide Inv, Act, Doomed, Helpful, NextMove;
    Shape(h, c);
    if c.reader.Finished? {
      return [], c;
    }
    NeverStuck(h, c);
    var a := NextMove(c);
    HelpfulStep(h, c, a);
    DoomIsFinal(h, c, a);
    Step(h, c, a);
    var rest;
    rest, end := CanEnd(h, Act(h, c, a));
    schedule := [a] + rest;
    assert schedule[1..] == rest;
  }

  // ----- every fair run ends

  predicate StepAt(h: Hasher, run: nat -> Conn, acts: nat -> Action, i: nat) {
    Enabled(run(i), acts(i)) && run(i + 1) == Act(h, run(i), acts(i))
  }

  /** An endless run: the peer, the other lock holders and the two threads, in any order. */
  ghost predicate Endless(h: Hasher, run: nat -> Conn, acts: nat -> Action) {
    forall i: nat :: StepAt(h, run, acts, i)
  }

  ghost predicate CanMove(c: Conn, t: Thread) {
    exists a :: Enabled(c, a) && ThreadOf(a) == t
  }

  ghost predicate Served(run: nat -> Conn, acts: nat -> Action, t: Thread, j: nat) {
    ThreadOf(acts(j)) == t || !CanMove(run(j), t)
  }

  ghost predicate ServedFrom(run: nat -> Conn, acts: nat -> Action, t: Thread, i: nat) {
    exists j: nat :: i <= j && Served(run, acts, t, j)
  }

  /** Neither thread, from any point on, can move for ever without moving. */
  ghost predicate Fair(run: nat -> Conn, acts: nat -> Action) {
    forall t: Thread, i: nat :: t != Outside ==> ServedFrom(run, acts, t, i)
  }

  ghost predicate SameDistance(h: Hasher, c: Conn, d: Conn) {
    Stage(c) == Stage(d) && Work(h, c) == Work(h, d)
  }

  lemma {:induction false} NeverFarther(h: Hasher, run: nat -> Conn, acts: nat -> Action, i: nat, j: nat)
    requires Endless(h, run, acts) && Inv(h, run(i)) && Doomed(run(i)) && i <= j
    ensures Inv(h, run(j)) && Doomed(run(j))
    ensures Nearer(h, run(j), run(i)) || SameDistance(h, run(j), run(i))
    decreases j - i
  {
    hide Inv, Doomed, Act, Enabled, Stage, Work;
    if i < j {
      NeverFarther(h, run, acts, i, j - 1);
      assert StepAt(h, run, acts, j - 1);
      AnyStep(h, run(j - 1), acts(j - 1));
      Step(h, run(j - 1), acts(j - 1));
      DoomIsFinal(h, run(j - 1), acts(j - 1));
    }
  }

  lemma HelpfulByStage(c: Conn, d: Conn)
    requires Stage(c) == Stage(d)
    ensures Helpful(c) == Helpful(d)
  {
  }

  lemma MustMove(h: Hasher, run: nat -> Conn, acts: nat -> Action, j: nat)
    requires Served(run, acts, Helpful(run(j)), j) && Inv(h, run(j)) && Doomed(run(j)) && !run(j).reader.Finished?
    ensures ThreadOf(acts(j)) == Helpful(run(j))
  {
    hide Inv, Enabled, Doomed, Helpful, ThreadOf, NextMove;
    NeverStuck(h, run(j));
  }

  /** Sooner or later the helpful thread moves, and the end is nearer. */
  lemma Sooner(h: Hasher, run: nat -> Conn, acts: nat -> Action, i: nat) returns (k: nat)
    requires Endless(h, run, acts) && Fair(run, acts) && Inv(h, run(i)) && Doomed(run(i))
    ensures i <= k && Inv(h, run(k)) && Doomed(run(k))
    ensures run(k).reader.Finished? || Nearer(h, run(k), run(i))
  {
    hide Inv, Doomed, Act, Enabled, Stage, Work, Helpful, ThreadOf, Served;
    HelpfulIsAThread(run(i));
    assert ServedFrom(run, acts, Helpful(run(i)), i);
    var j: nat :| i <= j && Served(run, acts, Helpful(run(i)), j);
    NeverFarther(h, run, acts, i, j);
    if run(j).reader.Finished? || Nearer(h, run(j), run(i)) {
      return j;
    }
    HelpfulByStage(run(i), run(j));
    MustMove(h, run, acts, j);
    assert StepAt(h, run, acts, j);
    HelpfulStep(h, run(j), acts(j));
    Step(h, run(j), acts(j));
    DoomIsFinal(h, run(j), acts(j));
    return j + 1;
  }

  lemma HelpfulIsAThread(c: Conn)
    ensures Helpful(c) != Outside
  {
  }

  /** Whatever the peer sends and whoever else holds the lock: in every fair run a doomed connection
      ends, its writer gone, its socket shut, its reader joined and its registration released. */
  lemma {:induction false} AlwaysEnds(h: Hasher, run: nat -> Conn, acts: nat -> Action, i: nat) returns (k: nat)
    requires Endless(h, run, acts) && Fair(run, acts) && Inv(h, run(i)) && Doomed(run(i))
    ensures i <= k && run(k).reader.Finished? && run(k).writer.Done? && run(k).shut && run(k).slot.entry.None?
    decreases Stage(run(i)), Work(h, run(i))
  {
    hide Inv, Doomed, Endless, Fair, Stage, Work;
    k := Sooner(h, run, acts, i);
    if run(k).reader.Finished? {
      Shape(h, run(k));
    } else {
      k := AlwaysEnds(h, run, acts, k);
    }
  }

  /** From the start of a connection, then: as soon as anything dooms it, it will end. */
  lemma EveryDoomEnds(h: Hasher, v: Version, run: nat -> Conn, acts: nat -> Action, i: nat) returns (k: nat)
    requires Endless(h, run, acts) && Fair(run, acts) && run(0) == Start(h, v) && Doomed(run(i))
    ensures i <= k && run(k).reader.Finished? && run(k).writer.Done? && run(k).shut && run(k).slot.entry.None?
  {
    hide Inv, Doomed, Endless, Fair, Frame;
    StartInv(h, v);
    InvAlong(h, run, acts, i);
    k := AlwaysEnds(h, run, acts, i);
  }

  lemma {:induction false} InvAlong(h: Hasher, run: nat -> Conn, acts: nat -> Action, i: nat)
    requires Endless(h, run, acts) && Inv(h, run(0))
    ensures Inv(h, run(i))
  {
    hide Inv, Act, Enabled;
    if i > 0 {
      InvAlong(h, run, acts, i - 1);
      assert StepAt(h, run, acts, i - 1);
      Step(h, run(i - 1), acts(i - 1));
    }
  }

  // ----- how soon

  predicate PassesTop(a: Action) {
    a.Turn? || a.PingDue?
  }

  /** Just the steps by which the writer leaves the head of its loop. */
  lemma WhatPassesTop(h: Hasher, c: Conn, a: Action)
    requires Enabled(c, a)
    ensures PassesTop(a) <==> c.writer.Top? && !Act(h, c, a).writer.Top?
  {
    hide TryParse, Frame;
    match ThreadOf(a) {
      case WriterThread =>
      case ReaderThread => ReaderFrame(h, c, a);
      case Outside => OutsideFrame(h, c, a);
    }
  }

  function TopsPassed(schedule: seq<Action>): nat {
    if schedule == [] then 0 else (if PassesTop(schedule[0]) then 1 else 0) + TopsPassed(schedule[1..])
  }

  function TurnsLeft(c: Conn): nat {
    match c.writer
    case Writing(_, pinged) => |c.slot.queue.items| + if pinged then 0 else 1
    case Top => |c.slot.queue.items| + 1
    case Receiving => |c.slot.queue.items|
    case _ => 0
  }

  lemma TurnStep(h: Hasher, c: Conn, a: Action)
    requires Enabled(c, a) && c.slot.entry.None?
    ensures Act(h, c, a).slot.entry.None?
    ensures TurnsLeft(Act(h, c, a)) + (if PassesTop(a) then 1 else 0) <= TurnsLeft(c)
  {
    match ThreadOf(a) {
      case WriterThread => WriterTurns(h, c, a);
      case ReaderThread => ReaderFrame(h, c, a); hide Act;
      case Outside => OutsideFrame(h, c, a); hide Act;
    }
  }

  lemma WriterTurns(h: Hasher, c: Conn, a: Action)
    requires Enabled(c, a) && c.slot.entry.None? && ThreadOf(a) == WriterThread
    ensures Act(h, c, a).slot.entry.None?
    ensures TurnsLeft(Act(h, c, a)) + (if PassesTop(a) then 1 else 0) <= TurnsLeft(c)
  {
    hide Frame;
  }

  /** Once the entry is gone nothing more enters the queue, and the writer takes at most one more
      turn of its loop for each message in it, and one besides, whatever else is scheduled. */
  lemma {:induction false} FewTurnsLeft(h: Hasher, c: Conn, schedule: seq<Action>)
    requires c.slot.entry.None? && Exec(h, c, schedule).Some?
    ensures TopsPassed(schedule) <= TurnsLeft(c) <= |c.slot.queue.items| + 1
    ensures Exec(h, c, schedule).value.accepted == c.accepted
    decreases |schedule|
  {
    HistoriesGrow(h, c, schedule);
    if schedule != [] {
      hide Act, Enabled;
      TurnStep(h, c, schedule[0]);
      FewTurnsLeft(h, Act(h, c, schedule[0]), schedule[1..]);
    }
  }

  /** A reader waiting in join has already given up the only sender. */
  lemma JoinFollowsRelease(h: Hasher, v: Version, schedule: seq<Action>, c: Conn)
    requires Reaches(h, v, schedule, c)
    ensures c.reader.Joining? || c.reader.Finished? ==> c.slot.entry.None?
    ensures c.reader.Finished? ==> c.writer.Done? && c.shut
  {
    hide Inv;
    ReachesInv(h, v, schedule, c);
    Shape(h, c);
  }

  // ----- who outlives the table entry

  /** An eviction, or a broadcast that finds the queue full or closed. */
  predicate Removes(c: Conn, a: Action) {
    a.Evict? || (a.Relay? && TrySend(c.slot.queue, Relayed(a.bytes)).None?)
  }

  predicate RemovedByOthers(h: Hasher, c: Conn, schedule: seq<Action>)
    requires Exec(h, c, schedule).Some?
    decreases |schedule|
  {
    schedule != [] && (Removes(c, schedule[0]) || RemovedByOthers(h, Act(h, c, schedule[0]), schedule[1..]))
  }

  lemma OneRemoval(h: Hasher, c: Conn, a: Action)
    requires Enabled(c, a) && InLoop(Act(h, c, a).reader)
    ensures InLoop(c.reader)
    ensures Act(h, c, a).slot.entry.None? <==> c.slot.entry.None? || Removes(c, a)
  {
    hide TryParse, Frame;
    match ThreadOf(a) {
      case WriterThread => WriterFrame(h, c, a);
      case ReaderThread =>
      case Outside => OutsideFrame(h, c, a);
    }
  }

  lemma {:induction false} RemovalsAlong(h: Hasher, c: Conn, schedule: seq<Action>)
    requires Exec(h, c, schedule).Some? && InLoop(Exec(h, c, schedule).value.reader)
    ensures InLoop(c.reader)
    ensures Exec(h, c, schedule).value.slot.entry.None? <==> c.slot.entry.None? || RemovedByOthers(h, c, schedule)
    decreases |schedule|
  {
    hide Act, Enabled, Removes, InLoop;
    if schedule != [] {
      RemovalsAlong(h, Act(h, c, schedule[0]), schedule[1..]);
      OneRemoval(h, c, schedule[0]);
    }
  }

  /** A reader is in its loop without an entry exactly when somebody else has removed the entry. */
  lemma ReaderOutlivesIff(h: Hasher, v: Version, schedule: seq<Action>, c: Conn)
    requires Reaches(h, v, schedule, c) && InLoop(c.reader)
    ensures c.slot.entry.None? <==> RemovedByOthers(h, Start(h, v), schedule)
  {
    hide Frame, Exec, InLoop;
    RemovalsAlong(h, Start(h, v), schedule);
  }

  predicate WriterAlone(c: Conn) {
    c.slot.entry.None? && Running(c.writer)
  }

  /** At some point of the run the writer is in its loop and the entry is gone. */
  predicate WriterOutlived(h: Hasher, c: Conn, schedule: seq<Action>)
    requires Exec(h, c, schedule).Some?
    decreases |schedule|
  {
    WriterAlone(c) || (schedule != [] && WriterOutlived(h, Act(h, c, schedule[0]), schedule[1..]))
  }

  lemma ReturnsAlone(h: Hasher, c: Conn, a: Action)
    requires Enabled(c, a) && ReturnedOk(Act(h, c, a).writer)
    ensures ReturnedOk(c.writer) || WriterAlone(c)
  {
    hide TryParse, Frame, QueuedBytes;
    match ThreadOf(a) {
      case WriterThread =>
      case ReaderThread => ReaderFrame(h, c, a);
      case Outside => OutsideFrame(h, c, a);
    }
  }

  lemma {:induction false} AloneAlong(h: Hasher, c: Conn, schedule: seq<Action>)
    requires Exec(h, c, schedule).Some? && ReturnedOk(Exec(h, c, schedule).value.writer)
    ensures ReturnedOk(c.writer) || WriterOutlived(h, c, schedule)
    decreases |schedule|
  {
    hide Act, Enabled, ReturnedOk, WriterAlone;
    if schedule != [] {
      AloneAlong(h, Act(h, c, schedule[0]), schedule[1..]);
      if ReturnedOk(Act(h, c, schedule[0]).writer) {
        ReturnsAlone(h, c, schedule[0]);
      }
    }
  }

  /** A writer that returns without an error has always outlived its entry; and it does already when a
      first read fails. */
  lemma WriterOutlives(h: Hasher, v: Version, schedule: seq<Action>, c: Conn)
    requires Reaches(h, v, schedule, c)
    ensures ReturnedOk(c.writer) ==> WriterOutlived(h, Start(h, v), schedule)
    ensures var failed := Exec(h, Start(h, v), [ReadFail, Unregister]); failed.Some? && WriterAlone(failed.value)
  {
    if ReturnedOk(c.writer) {
      AloneAlong(h, Start(h, v), schedule);
    }
    FirstReadFails(h, v);
  }

  lemma FirstReadFails(h: Hasher, v: Version)
    ensures var failed := Exec(h, Start(h, v), [ReadFail, Unregister]); failed.Some? && WriterAlone(failed.value)
  {
    hide Frame;
    var c := Act(h, Start(h, v), ReadFail);
    assert [ReadFail, Unregister][1..] == [Unregister];
    assert Exec(h, c, [Unregister]) == Exec(h, Act(h, c, Unregister), [Unregister][1..]);
  }
}
