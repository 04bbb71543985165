/** src/protocol.rs, `read_loop`: the handshake deadline, over runs that carry a clock.

    Assumed of the system: the clock does not go back, a read returns within its timeout, and the
    reader takes no time between reads. What arrives, and when, is up to the peer. */
module Deadline {
  import opened Wrappers
  import opened Bytes
  import opened Versions
  import opened Messages
  import opened Node
  import opened Connection
  import opened Invariants

  /** A connection, the time, and when the reader last entered `read`. */
  datatype Timed = Timed(c: Conn, now: nat, since: nat)

  datatype Event = Tick(elapsed: nat) | Do(a: Action)

  /** When the reader started, and the timeout it was given. */
  datatype Terms = Terms(start: nat, timeout: nat)

  predicate Possible(t: Timed, e: Event, terms: Terms) {
    match e
    case Tick(elapsed) =>
      if t.c.reader.Reading? then t.now + elapsed <= t.since + terms.timeout
      else InLoop(t.c.reader) ==> elapsed == 0
    case Do(a) =>
      Enabled(t.c, a) && (a.Check? ==> (a.expired <==> t.now >= terms.start + terms.timeout))
  }

  function Next(h: Hasher, t: Timed, e: Event): Timed
    requires e.Do? ==> Enabled(t.c, e.a)
  {
    match e
    case Tick(elapsed) => t.(now := t.now + elapsed)
    case Do(a) =>
      var c := Act(h, t.c, a);
      Timed(c, t.now, if c.reader.Reading? && !t.c.reader.Reading? then t.now else t.since)
  }

  function ExecTimed(h: Hasher, t: Timed, events: seq<Event>, terms: Terms): Option<Timed>
    decreases |events|
  {
    if events == [] then Some(t)
    else if Possible(t, events[0], terms) then ExecTimed(h, Next(h, t, events[0]), events[1..], terms)
    else None
  }

  ghost predicate TimedInv(t: Timed, terms: Terms) {
    && (InLoop(t.c.reader) && !t.c.ready ==> t.since < terms.start + terms.timeout && t.now <= t.since + terms.timeout)
    && (Why(t.c.reader) == Some(TooLate) ==> !t.c.ready && t.now >= terms.start + terms.timeout)
    && (t.c.ready ==> WHOLE_HANDSHAKE <= Events(t.c.seen))
  }

  lemma ReadyMeansHandshaken(c: Conn)
    requires HandshakeInv(c) && c.reader.Checking? && c.slot.entry == Some(Ready)
    ensures WHOLE_HANDSHAKE <= Events(c.seen)
  {
    HandshakeAcceptsPrefixes(Events(c.seen));
  }

  lemma EventsGrow(h: Hasher, c: Conn, a: Action)
    requires Enabled(c, a)
    ensures Events(c.seen) <= Events(Act(h, c, a).seen)
  {
    if a.Parse? && TryParse(h, c.buffer).Accept? {
      EventsSnoc(c.seen, TryParse(h, c.buffer).message);
    }
  }

  lemma TimedStep(h: Hasher, t: Timed, e: Event, terms: Terms)
    requires TimedInv(t, terms) && HandshakeInv(t.c) && Possible(t, e, terms)
    ensures TimedInv(Next(h, t, e), terms)
  {
    hide TryParse, Frame, Events, HandshakeInv;
    if e.Do? {
      EventsGrow(h, t.c, e.a);
      if e.a.Check? && t.c.slot.entry == Some(Ready) {
        ReadyMeansHandshaken(t.c);
      }
    }
  }

  lemma {:induction false} TimedRun(h: Hasher, t: Timed, events: seq<Event>, terms: Terms)
    requires TimedInv(t, terms) && HandshakeInv(t.c) && ExecTimed(h, t, events, terms).Some?
    ensures TimedInv(ExecTimed(h, t, events, terms).value, terms)
    decreases |events|
  {
    hide TimedInv, HandshakeInv, Act;
    if events != [] {
      var e := events[0];
      TimedStep(h, t, e, terms);
      if e.Do? {
        HandshakeStep(h, t.c, e.a);
      }
      TimedRun(h, Next(h, t, e), events[1..], terms);
    }
  }

  /** Whatever traffic arrives, a reader whose peer has not completed the handshake is out of its
      loop by start + 2 * timeout; and the deadline only ever ends one that was not latched ready. */
  lemma DeadlineHolds(h: Hasher, v: Version, events: seq<Event>, terms: Terms, t: Timed)
    requires terms.timeout > 0
    requires ExecTimed(h, Timed(Start(h, v), terms.start, terms.start), events, terms) == Some(t)
    ensures InLoop(t.c.reader) && t.now >= terms.start + 2 * terms.timeout ==> t.c.ready
    ensures t.c.ready ==> WHOLE_HANDSHAKE <= Events(t.c.seen)
    ensures Why(t.c.reader) == Some(TooLate) ==> !t.c.ready && t.now >= terms.start + terms.timeout
  {
    hide Frame, ExecTimed;
    TimedRun(h, Timed(Start(h, v), terms.start, terms.start), events, terms);
  }

  /** The bound is the best possible: a read begun just inside the deadline may take its full timeout. */
  lemma DeadlineIsTight(h: Hasher, v: Version, terms: Terms)
    requires terms.timeout > 0
    ensures var events := [Tick(terms.timeout - 1), Do(ReadRetry), Do(Check(false)), Tick(terms.timeout)];
            var t := ExecTimed(h, Timed(Start(h, v), terms.start, terms.start), events, terms);
            && t.Some? && InLoop(t.value.c.reader) && !t.value.c.ready
            && t.value.now == terms.start + 2 * terms.timeout - 1
  {
    hide Frame;
    var t0 := Timed(Start(h, v), terms.start, terms.start);
    var events := [Tick(terms.timeout - 1), Do(ReadRetry), Do(Check(false)), Tick(terms.timeout)];
    var t1 := Next(h, t0, events[0]);
    var t2 := Next(h, t1, events[1]);
    var t3 := Next(h, t2, events[2]);
    assert ExecTimed(h, t3, events[1..][1..][1..], terms) == Some(Next(h, t3, events[3]));
    assert ExecTimed(h, t2, events[1..][1..], terms) == ExecTimed(h, t3, events[1..][1..][1..], terms);
    assert ExecTimed(h, t1, events[1..], terms) == ExecTimed(h, t2, events[1..][1..], terms);
  }
}
