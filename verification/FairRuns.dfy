/** src/protocol.rs: the endless fair runs that `Teardown` and `Handshakes` speak of do exist, from
    every doomed connection and from every pair of live ends. */
module FairRuns {
  import opened Bytes
  import opened Messages
  import opened Connection
  import opened Invariants
  import opened Teardown
  import opened TwoNodes
  import opened Breeding
  import opened Rest
  import opened Handshakes

  // ----- one connection: to its end, and then the peer closes for ever

  function ActionAt(schedule: seq<Action>, i: nat): Action {
    if i < |schedule| then schedule[i] else PeerCloses
  }

  function Along(h: Hasher, c: Conn, schedule: seq<Action>, i: nat): Conn
    requires Exec(h, c, schedule).Some?
    decreases |schedule|
  {
    if i == 0 then c
    else if schedule == [] then c.(peerClosed := true)
    else Along(h, Act(h, c, schedule[0]), schedule[1..], i - 1)
  }

  lemma {:induction false} AlongSteps(h: Hasher, c: Conn, schedule: seq<Action>, i: nat)
    requires Exec(h, c, schedule).Some?
    ensures var d, a := Along(h, c, schedule, i), ActionAt(schedule, i);
            Enabled(d, a) && Along(h, c, schedule, i + 1) == Act(h, d, a)
    decreases |schedule|
  {
    if schedule != [] {
      hide Act, Enabled;
      if i > 0 {
        AlongSteps(h, Act(h, c, schedule[0]), schedule[1..], i - 1);
        assert ActionAt(schedule, i) == ActionAt(schedule[1..], i - 1);
      }
    }
  }

  lemma {:induction false} AlongEnds(h: Hasher, c: Conn, schedule: seq<Action>, i: nat)
    requires Exec(h, c, schedule).Some? && i >= |schedule|
    ensures var d, end := Along(h, c, schedule, i), Exec(h, c, schedule).value;
            d.reader == end.reader && d.writer == end.writer
    decreases |schedule|
  {
    hide Act, Enabled;
    if schedule != [] {
      AlongEnds(h, Act(h, c, schedule[0]), schedule[1..], i - 1);
    }
  }

  lemma NothingLeftToDo(c: Conn, t: Thread)
    requires c.reader.Finished? && c.writer.Done? && t != Outside
    ensures !CanMove(c, t)
  {
  }

  /** Every doomed connection has an endless fair run. */
  lemma FairRunOf(h: Hasher, c: Conn) returns (run: nat -> Conn, acts: nat -> Action)
    requires Inv(h, c) && Doomed(c)
    ensures run(0) == c && Endless(h, run, acts) && Fair(run, acts)
  {
    hide Inv, Doomed, Act, Enabled, CanMove, Exec;
    var schedule, end := CanEnd(h, c);
    run := (i: nat) => Along(h, c, schedule, i);
    acts := (i: nat) => ActionAt(schedule, i);
    forall i: nat ensures StepAt(h, run, acts, i) {
      AlongSteps(h, c, schedule, i);
    }
    forall t: Thread, i: nat | t != Outside ensures ServedFrom(run, acts, t, i) {
      var j := if i < |schedule| then |schedule| else i;
      AlongEnds(h, c, schedule, j);
      NothingLeftToDo(run(j), t);
      assert Served(run, acts, t, j);
    }
  }

  // ----- two nodes: to rest, and then the four threads time out in turn

  function IdleMove(k: nat): Move {
    var side := if k % 8 < 4 then A else B;
    match k % 4
    case 0 => Move(side, ReadRetry)
    case 1 => Move(side, Check(false))
    case 2 => Move(side, Timeout)
    case _ => Move(side, Turn)
  }

  /** One end with nothing to do, `k` moves into its four. */
  predicate IdleEnd(c: Conn, k: nat) {
    && Live(c) && c.inbound == [] && c.slot.queue.items == []
    && (if k == 1 then c.reader.Checking? else c.reader.Reading?)
    && (if k == 3 then c.writer.Top? else c.writer.Receiving?)
  }

  predicate IdleAt(p: Pair, k: nat) {
    IdleEnd(p.a, if k % 8 < 4 then k % 4 else 0) && IdleEnd(p.b, if k % 8 < 4 then 0 else k % 4)
  }

  lemma EndIdles(h: Hasher, c: Conn, k: nat)
    requires k < 4 && IdleEnd(c, k)
    ensures var a := IdleMove(k).action;
            && Enabled(c, a) && !Fault(c, a) && !a.Arrive? && !a.PeerCloses? && !a.Relay? && !a.Write? && !a.Shutdown?
            && IdleEnd(Act(h, c, a), (k + 1) % 4)
  {
    hide TryParse, Frame;
  }

  lemma PairIdles(h: Hasher, p: Pair, k: nat)
    requires IdleAt(p, k)
    ensures var m := IdleMove(k);
            && Possible(h, p, m) && !Fault(Of(p, m.side), m.action) && Of(p, m.side).inbound == []
            && IdleAt(TwoNodes.Next(h, p, m), k + 1)
  {
    hide IdleEnd, Act, Enabled, Fault;
    Phases(k);
    if k % 8 < 4 {
      EndIdles(h, p.a, k % 4);
      NothingArrived(p.a, k % 4);
    } else {
      EndIdles(h, p.b, k % 4);
      NothingArrived(p.b, k % 4);
    }
  }

  lemma NothingArrived(c: Conn, k: nat)
    requires IdleEnd(c, k)
    ensures c.inbound == []
  {
  }

  lemma Phases(k: nat)
    ensures (k + 1) % 4 == (k % 4 + 1) % 4 && IdleMove(k).action == IdleMove(k % 4).action
    ensures k % 8 < 4 ==> if k % 4 == 3 then (k + 1) % 8 == 4 else (k + 1) % 8 < 4
    ensures k % 8 >= 4 ==> if k % 4 == 3 then (k + 1) % 8 == 0 else (k + 1) % 8 >= 4
  {
    var eighths, quarter := k / 8, k % 8;
    assert k == 8 * eighths + quarter;
  }

  function Idling(h: Hasher, p: Pair, k: nat): (q: Pair)
    requires IdleAt(p, 0)
    ensures IdleAt(q, k)
  {
    if k == 0 then p
    else
      var before := Idling(h, p, k - 1);
      PairIdles(h, before, k - 1);
      TwoNodes.Next(h, before, IdleMove(k - 1))
  }

  function MoveAt(moves: seq<Move>, i: nat): Move {
    if i < |moves| then moves[i] else IdleMove(i - |moves|)
  }

  function Onward(h: Hasher, p: Pair, moves: seq<Move>, i: nat): Pair
    requires ExecPair(h, p, moves).Some? && IdleAt(ExecPair(h, p, moves).value, 0)
    decreases |moves|
  {
    if moves == [] then Idling(h, p, i)
    else if i == 0 then p
    else Onward(h, TwoNodes.Next(h, p, moves[0]), moves[1..], i - 1)
  }

  /** No read of the run times out over waiting bytes. */
  predicate NoRetries(moves: seq<Move>) {
    forall i :: 0 <= i < |moves| ==> !moves[i].action.ReadRetry?
  }

  lemma WorkingIsNoRetry(moves: seq<Move>)
    requires AllWorking(moves)
    ensures NoRetries(moves)
  {
  }

  lemma {:induction false} OnwardMoves(h: Hasher, p: Pair, moves: seq<Move>, i: nat)
    requires ExecPair(h, p, moves).Some? && IdleAt(ExecPair(h, p, moves).value, 0)
    requires Faultless(h, p, moves) && NoRetries(moves)
    ensures var q, m := Onward(h, p, moves, i), MoveAt(moves, i);
            && Possible(h, q, m) && !Fault(Of(q, m.side), m.action)
            && !(m.action.ReadRetry? && Of(q, m.side).inbound != [])
            && Onward(h, p, moves, i + 1) == TwoNodes.Next(h, q, m)
    decreases |moves|
  {
    hide Possible, Fault, IdleAt, IdleMove, TwoNodes.Next;
    if moves == [] {
      PairIdles(h, Idling(h, p, i), i);
    } else if i == 0 {
      StartsAt(h, TwoNodes.Next(h, p, moves[0]), moves[1..]);
    } else {
      OnwardMoves(h, TwoNodes.Next(h, p, moves[0]), moves[1..], i - 1);
      assert MoveAt(moves, i) == MoveAt(moves[1..], i - 1);
    }
  }

  lemma StartsAt(h: Hasher, p: Pair, moves: seq<Move>)
    requires ExecPair(h, p, moves).Some? && IdleAt(ExecPair(h, p, moves).value, 0)
    ensures Onward(h, p, moves, 0) == p
  {
    hide IdleAt;
  }

  lemma QuietIsIdle(h: Hasher, p: Pair)
    requires PairInv(h, p) && Live(p.a) && Live(p.b) && Quiet(p.a) && Quiet(p.b)
    ensures IdleAt(p, 0)
  {
    hide Inv, Quiet, Wire, Plain;
    RestIsSomething(h, p.a);
    RestIsSomething(h, p.b);
    QuietShape(h, p.a);
    QuietShape(h, p.b);
  }

  /** The next move of a thread once the pair idles. */
  function NextOf(s: Side, t: Thread, k: nat): (j: nat)
    requires t != Outside
    ensures j >= k && IdleMove(j).side == s && ThreadOf(IdleMove(j).action) == t
  {
    var phase := (if s.A? then 0 else 4) + if t.ReaderThread? then 0 else 2;
    var j := 8 * k + phase;
    assert j % 8 == phase && j % 4 == phase % 4;
    j
  }

  /** Every pair of live ends has an endless faultless run that is fair to all four threads. */
  lemma FairRunOfPair(h: Hasher, p: Pair) returns (run: Story, moves: Moves)
    requires PairInv(h, p) && Live(p.a) && Live(p.b)
    ensures run(0) == p && Told(h, run, moves)
  {
    hide PairInv, Live, Quiet, Possible, Fault, IdleAt, Faultless, ExecPair;
    hide TwoNodes.Next, Budget, IdleMove, AllWorking;
    BothBounded(h, p);
    var first, q := ComesToRest(h, p);
    WorkingIsNoRetry(first);
    LiveRun(h, p, first);
    QuietIsIdle(h, q);
    run := (i: nat) => Onward(h, p, first, i);
    moves := (i: nat) => MoveAt(first, i);
    StartsAt(h, p, first);
    forall i: nat ensures MovesAt(h, run, moves, i) {
      OnwardMoves(h, p, first, i);
    }
    forall s: Side, t: Thread, i: nat | t != Outside ensures TurnComes(run, moves, s, t, i) {
      var j := |first| + NextOf(s, t, i);
      assert moves(j) == IdleMove(NextOf(s, t, i));
      assert TurnOf(run, moves, s, t, j);
    }
  }
}
