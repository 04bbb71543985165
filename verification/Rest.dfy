/** src/protocol.rs: two nodes left to themselves do come to rest, and are Ready when they have. */
module Rest {
  import opened Wrappers
  import opened Bytes
  import opened Versions
  import opened Messages
  import opened Node
  import opened Connection
  import opened Invariants
  import opened TwoNodes
  import opened Breeding

  /** Something a live connection can do that is no fault: empty the queue first, then read. */
  function NextWork(c: Conn): Option<Action> {
    match c.writer
    case Writing(_, _) => Some(Write(1))
    case Top => Some(Turn)
    case _ =>
      if c.slot.queue.items != [] then Some(Receive)
      else match c.reader
        case Reading => if c.inbound != [] then Some(Read(1)) else None
        case Draining => Some(Parse)
        case Handling(_) => Some(AdvanceState)
        case Logging(_) => Some(Log)
        case Delivering(_) => Some(DeliverReply)
        case Checking => Some(Check(false))
        case _ => None
  }

  lemma NextWorks(c: Conn)
    requires Live(c) && (c.writer.Writing? ==> c.writer.rest != [])
    ensures NextWork(c).None? <==> Quiet(c)
    ensures NextWork(c).Some? ==>
              var a := NextWork(c).value;
              Enabled(c, a) && Working(a) && !Fault(c, a) && !a.Arrive? && !a.PeerCloses? && !a.Relay?
  {
    if NextWork(c).None? {
      forall a | Working(a) && !a.ReadFail? && !a.WriteFail? ensures !Enabled(c, a) {
      }
    } else {
      var a := NextWork(c).value;
      assert Enabled(c, a) && Working(a) && !a.ReadFail? && !a.WriteFail?;
    }
  }

  /** No working move is left that is not a fault. */
  ghost predicate Rested(h: Hasher, p: Pair) {
    forall m: Move :: Possible(h, p, m) && Working(m.action) ==> Fault(if m.side.A? then p.a else p.b, m.action)
  }

  /** A move of the pair, if a live end has one. */
  function NextMoveOf(p: Pair): Option<Move> {
    match NextWork(p.a)
    case Some(a) => Some(Move(A, a))
    case None =>
      match NextWork(p.b)
      case Some(a) => Some(Move(B, a))
      case None => None
  }

  lemma NextMoves(h: Hasher, p: Pair)
    requires PairInv(h, p) && Live(p.a) && Live(p.b)
    ensures NextMoveOf(p).None? <==> Quiet(p.a) && Quiet(p.b)
    ensures NextMoveOf(p).Some? ==>
              var m := NextMoveOf(p).value;
              Possible(h, p, m) && Working(m.action) && !Fault(if m.side.A? then p.a else p.b, m.action)
  {
    hide Inv, Wire, Quiet, Enabled, Working, Fault, Live, NextWork, Plain, IsPlain;
    RestIsSomething(h, p.a);
    RestIsSomething(h, p.b);
    NextWorks(p.a);
    NextWorks(p.b);
  }

  /** Whenever nothing is left to do but fail, both nodes are Ready. */
  lemma RestedMeansReady(h: Hasher, p: Pair)
    requires PairInv(h, p) && Live(p.a) && Live(p.b) && Rested(h, p)
    ensures p.a.slot.entry == Some(Ready) && p.b.slot.entry == Some(Ready)
  {
    hide PairInv, Quiet, Enabled, Working, Fault, Live, Possible, NextMoveOf;
    NextMoves(h, p);
    QuietMeansReady(h, p);
  }

  /** From every reachable pair with both ends live: no faultless run of working moves goes on for
      longer than the budget, and one that cannot go on has left both nodes Ready. */
  lemma EveryRestIsReady(h: Hasher, p: Pair, moves: seq<Move>)
    requires PairInv(h, p) && Live(p.a) && Live(p.b)
    requires AllWorking(moves) && ExecPair(h, p, moves).Some? && Faultless(h, p, moves)
    ensures |p.b.seen| <= |p.a.sent| && |p.a.seen| <= |p.b.sent| && |moves| <= Budget(h, p)
    ensures var q := ExecPair(h, p, moves).value;
            Live(q.a) && Live(q.b) && (Rested(h, q) ==> q.a.slot.entry == Some(Ready) && q.b.slot.entry == Some(Ready))
  {
    hide PairInv, Live, Rested, Faultless, Budget, ExecPair, AllWorking;
    OnlySoManySteps(h, p, moves);
    LiveRun(h, p, moves);
    var q := ExecPair(h, p, moves).value;
    if Rested(h, q) {
      RestedMeansReady(h, q);
    }
  }

  lemma LiveMove(h: Hasher, p: Pair, m: Move)
    requires PairInv(h, p) && Live(p.a) && Live(p.b) && Possible(h, p, m)
    requires !Fault(if m.side.A? then p.a else p.b, m.action)
    ensures Live(Next(h, p, m).a) && Live(Next(h, p, m).b)
  {
    hide PairInv, Live, Fault, ByA, Enabled, IsPlain;
    if m.side.A? {
      LiveByA(h, p, m.action);
    } else {
      SwapInv(h, p);
      LiveByA(h, Swap(p), m.action);
    }
  }

  /** And from every such pair there is a run that comes to rest, both nodes Ready. */
  lemma {:induction false} ComesToRest(h: Hasher, p: Pair) returns (moves: seq<Move>, q: Pair)
    requires PairInv(h, p) && Live(p.a) && Live(p.b)
    requires |p.b.seen| <= |p.a.sent| && |p.a.seen| <= |p.b.sent|
    ensures ExecPair(h, p, moves) == Some(q) && AllWorking(moves) && Faultless(h, p, moves)
    ensures Quiet(q.a) && Quiet(q.b) && q.a.slot.entry == Some(Ready) && q.b.slot.entry == Some(Ready)
    decreases Budget(h, p)
  {
    hide PairInv, Live, Quiet, Possible, Working, Fault, Next, NextMoveOf, Budget;
    NextMoves(h, p);
    if NextMoveOf(p).None? {
      QuietMeansReady(h, p);
      return [], p;
    }
    var m := NextMoveOf(p).value;
    WorkCosts(h, p, m);
    LiveMove(h, p, m);
    var rest;
    rest, q := ComesToRest(h, Next(h, p, m));
    moves := [m] + rest;
    assert moves[1..] == rest;
  }

  /** So wherever a faultless run has taken two fresh nodes, there is a way on to both being Ready. */
  lemma TheyCanShakeHands(h: Hasher, va: Version, vb: Version, moves: seq<Move>, p: Pair)
      returns (more: seq<Move>, q: Pair)
    requires ExecPair(h, StartPair(h, va, vb), moves) == Some(p) && Faultless(h, StartPair(h, va, vb), moves)
    ensures ExecPair(h, p, more) == Some(q) && AllWorking(more) && Faultless(h, p, more)
    ensures q.a.slot.entry == Some(Ready) && q.b.slot.entry == Some(Ready)
  {
    hide PairInv, Quiet, ExecPair, Faultless, Frame, AllWorking;
    StartPairInv(h, va, vb);
    LiveRun(h, StartPair(h, va, vb), moves);
    BothBounded(h, p);
    more, q := ComesToRest(h, p);
  }
}
