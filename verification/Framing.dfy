/** src/protocol.rs, `process_incoming_bytes`: draining whole frames off a growing buffer.

    The handler is a parameter here. `Node` supplies the one the program runs; `Collect` only
    remembers what was dispatched. */
module Framing {
  import opened Wrappers
  import opened Bytes
  import opened Messages

  datatype Failure<+E> = BadFrame(frame: FrameError) | Rejected(why: E)

  /** `state` after every message dispatched, the bytes left in the buffer, and how it ended. */
  datatype Drained<+S, +E> = Drained(state: S, leftover: seq<byte>, failure: Option<Failure<E>>)

  type Handler<!S, E> = (S, Message) -> (S, Option<E>)

  function Process<S, E>(h: Hasher, handle: Handler<S, E>, state: S, buffer: seq<byte>): Drained<S, E>
    decreases |buffer|
  {
    match TryParse(h, buffer)
    case Refuse(e) => Drained(state, buffer, Some(BadFrame(e)))
    case Wait => Drained(state, buffer, None)
    case Accept(m, used) =>
      var (next, error) := handle(state, m);
      if error.Some? then
        Drained(next, buffer[used..], Some(Rejected(error.value)))
      else
        Process(h, handle, next, buffer[used..])
  }

  /** One more read. A failure ends the connection, so nothing after it is processed. */
  function Feed<S, E>(h: Hasher, handle: Handler<S, E>, d: Drained<S, E>, chunk: seq<byte>): Drained<S, E> {
    if d.failure.Some? then d.(leftover := d.leftover + chunk)
    else Process(h, handle, d.state, d.leftover + chunk)
  }

  /** Where one call on `a + b` gets to is where a call on `a` and then one on `b` get to. */
  lemma {:induction false} OneCut<S, E>(h: Hasher, handle: Handler<S, E>, state: S, a: seq<byte>, b: seq<byte>)
    ensures Process(h, handle, state, a + b) == Feed(h, handle, Process(h, handle, state, a), b)
    decreases |a|
  {
    hide TryParse;
    if !TryParse(h, a).Wait? {
      VerdictIsStable(h, a, b);
      match TryParse(h, a) {
        case Refuse(_) =>
        case Accept(m, used) =>
          assert (a + b)[used..] == a[used..] + b;
          OneCut(h, handle, handle(state, m).0, a[used..], b);
      }
    }
  }

  function FeedAll<S, E>(h: Hasher, handle: Handler<S, E>, d: Drained<S, E>, chunks: seq<seq<byte>>): Drained<S, E>
    decreases |chunks|
  {
    if chunks == [] then d else FeedAll(h, handle, Feed(h, handle, d, chunks[0]), chunks[1..])
  }

  function Concat(chunks: seq<seq<byte>>): seq<byte> {
    if chunks == [] then [] else chunks[0] + Concat(chunks[1..])
  }

  lemma {:induction false} CutsFrom<S, E>(
      h: Hasher, handle: Handler<S, E>, state: S, sofar: seq<byte>, chunks: seq<seq<byte>>)
    ensures FeedAll(h, handle, Process(h, handle, state, sofar), chunks) ==
            Process(h, handle, state, sofar + Concat(chunks))
    decreases |chunks|
  {
    hide Process, Feed;
    if chunks == [] {
      assert sofar + [] == sofar;
    } else {
      OneCut(h, handle, state, sofar, chunks[0]);
      CutsFrom(h, handle, state, sofar + chunks[0], chunks[1..]);
      Assoc(sofar, chunks[0], Concat(chunks[1..]));
    }
  }

  /** However a byte stream is cut into reads, the messages dispatched, the point and cause of the
      first failure, and the bytes left over are those of one read of the whole stream. */
  lemma CutsDoNotMatter<S, E>(h: Hasher, handle: Handler<S, E>, state: S, chunks: seq<seq<byte>>)
    ensures FeedAll(h, handle, Drained(state, [], None), chunks) == Process(h, handle, state, Concat(chunks))
  {
    CutsFrom(h, handle, state, [], chunks);
    assert [] + Concat(chunks) == Concat(chunks);
  }

  /** What is left after a successful call is an incomplete frame, so it is bounded; and every
      message dispatched took at least a header's worth of bytes. */
  lemma {:induction false} LeftoverIsIncomplete<S, E>(h: Hasher, handle: Handler<S, E>, state: S, buffer: seq<byte>)
    ensures var d := Process(h, handle, state, buffer);
            && |d.leftover| <= |buffer| && d.leftover == buffer[|buffer| - |d.leftover|..]
            && (d.failure.None? ==> TryParse(h, d.leftover).Wait? && |d.leftover| < HEADER_LENGTH + MAX_PAYLOAD_SIZE)
    decreases |buffer|
  {
    hide TryParse;
    match TryParse(h, buffer) {
      case Refuse(_) =>
      case Wait =>
      case Accept(m, used) =>
        LeftoverIsIncomplete(h, handle, handle(state, m).0, buffer[used..]);
    }
  }

  // ----- the messages themselves

  function Collect(seen: seq<Message>, m: Message): (seq<Message>, Option<()>) {
    (seen + [m], None)
  }

  lemma {:induction false} EachMessageTakesAHeader(h: Hasher, seen: seq<Message>, buffer: seq<byte>)
    ensures var d := Process(h, Collect, seen, buffer);
            seen <= d.state && HEADER_LENGTH * (|d.state| - |seen|) + |d.leftover| <= |buffer|
    decreases |buffer|
  {
    hide TryParse;
    match TryParse(h, buffer) {
      case Refuse(_) =>
      case Wait =>
      case Accept(m, used) =>
        EachMessageTakesAHeader(h, seen + [m], buffer[used..]);
    }
  }

  function FrameAll(h: Hasher, ms: seq<Message>): seq<byte> {
    if ms == [] then [] else Frame(h, ms[0]) + FrameAll(h, ms[1..])
  }

  function ReceivedAll(ms: seq<Message>): (r: seq<Message>)
    ensures |r| == |ms| && forall i :: 0 <= i < |ms| ==> r[i] == Received(ms[i])
  {
    if ms == [] then [] else [Received(ms[0])] + ReceivedAll(ms[1..])
  }

  lemma {:induction false} FrameAllSnoc(h: Hasher, ms: seq<Message>, m: Message)
    ensures FrameAll(h, ms + [m]) == FrameAll(h, ms) + Frame(h, m)
  {
    hide Frame;
    if ms == [] {
      assert [m][1..] == [];
    } else {
      assert (ms + [m])[1..] == ms[1..] + [m];
      FrameAllSnoc(h, ms[1..], m);
    }
  }

  lemma FirstFrame(h: Hasher, m: Message, rest: seq<byte>, bytes: seq<byte>)
    requires bytes <= Frame(h, m) + rest
    ensures TryParse(h, bytes) == Wait || TryParse(h, bytes) == Accept(Received(m), |Frame(h, m)|)
    ensures TryParse(h, bytes).Accept? ==> bytes[|Frame(h, m)|..] <= rest
    ensures bytes == Frame(h, m) + rest ==> TryParse(h, bytes).Accept? && bytes[|Frame(h, m)|..] == rest
  {
    hide TryParse, Frame, Received;
    var all := Frame(h, m) + rest;
    var more := all[|bytes|..];
    FrameRoundTrip(h, m, rest);
    assert bytes + more == all;
    if !TryParse(h, bytes).Wait? {
      VerdictIsStable(h, bytes, more);
    }
  }

  lemma ReceivedStep(seen: seq<Message>, ms: seq<Message>)
    requires ms != []
    ensures seen + [Received(ms[0])] + ReceivedAll(ms[1..]) == seen + ReceivedAll(ms)
  {
  }

  /** The start of a stream of frames parses to the start of the messages that were framed, with
      never an error; the whole of it parses to all of them, with nothing left. */
  lemma {:induction false} FramesParse(h: Hasher, seen: seq<Message>, ms: seq<Message>, bytes: seq<byte>)
    requires bytes <= FrameAll(h, ms)
    ensures var d := Process(h, Collect, seen, bytes);
            && d.failure.None? && d.state <= seen + ReceivedAll(ms)
            && (bytes == FrameAll(h, ms) ==> d.state == seen + ReceivedAll(ms) && d.leftover == [])
    decreases |ms|
  {
    if ms == [] {
      assert seen + [] == seen;
    } else {
      hide TryParse, Frame, Received, ReceivedAll;
      var rest := FrameAll(h, ms[1..]);
      FirstFrame(h, ms[0], rest, bytes);
      if TryParse(h, bytes).Accept? {
        FramesParse(h, seen + [Received(ms[0])], ms[1..], bytes[|Frame(h, ms[0])|..]);
        ReceivedStep(seen, ms);
      }
    }
  }

  // ----- what a handler's refusal does

  /** One message at the front: refused, it ends the call with the rest of the buffer untouched;
      taken, the call goes on with the rest from the state it led to. */
  lemma OneMessage<S, E>(h: Hasher, handle: Handler<S, E>, state: S, m: Message, rest: seq<byte>)
    ensures var (next, refused) := handle(state, Received(m));
            Process(h, handle, state, Frame(h, m) + rest) ==
            match refused
            case Some(e) => Drained(next, rest, Some(Rejected(e)))
            case None => Process(h, handle, next, rest)
  {
    hide TryParse, Frame;
    FrameRoundTrip(h, m, rest);
    var (next, refused) := handle(state, Received(m));
    assert (Frame(h, m) + rest)[|Frame(h, m)|..] == rest;
  }

  /** Messages handed over one by one, up to and with the first refused: the state they lead to, how
      many they were, and the refusal. */
  datatype Handed<+S, +E> = Handed(state: S, count: nat, refused: Option<E>)

  function HandOver<S, E>(handle: Handler<S, E>, state: S, ms: seq<Message>): Handed<S, E>
    decreases |ms|
  {
    if ms == [] then
      Handed(state, 0, None)
    else
      var (next, refused) := handle(state, ms[0]);
      if refused.Some? then
        Handed(next, 1, refused)
      else
        var later := HandOver(handle, next, ms[1..]);
        later.(count := later.count + 1)
  }

  /** The buffer without its first `n` frames. */
  function WithoutFrames(h: Hasher, buffer: seq<byte>, n: nat): seq<byte> {
    match TryParse(h, buffer)
    case Accept(_, used) => if n == 0 then buffer else WithoutFrames(h, buffer[used..], n - 1)
    case _ => buffer
  }

  lemma {:induction false} CollectFrom(h: Hasher, seen: seq<Message>, buffer: seq<byte>)
    ensures var d := Process(h, Collect, [], buffer);
            && Process(h, Collect, seen, buffer) == d.(state := seen + d.state)
            && (d.failure.Some? ==> d.failure.value.BadFrame?)
    decreases |buffer|
  {
    hide TryParse;
    match TryParse(h, buffer) {
      case Refuse(_) => assert seen + [] == seen;
      case Wait => assert seen + [] == seen;
      case Accept(m, used) =>
        CollectFrom(h, seen + [m], buffer[used..]);
        CollectFrom(h, [m], buffer[used..]);
        assert [] + [m] == [m];
        Assoc3(seen, [m], Process(h, Collect, [], buffer[used..]).state);
    }
  }

  lemma Assoc3<T>(a: seq<T>, b: seq<T>, c: seq<T>)
    ensures a + b + c == a + (b + c)
  {
  }

  /** Under any handler the loop hands over, in order, the messages the buffer holds, up to the first
      refused. A refusal ends it there, with what follows that frame left over; without one it ends
      as the buffer does, waiting for more or at a frame in error. */
  lemma {:induction false} ProcessHandsOver<S, E>(h: Hasher, handle: Handler<S, E>, state: S, buffer: seq<byte>)
    ensures var d, c := Process(h, handle, state, buffer), Process(h, Collect, [], buffer);
            var handed := HandOver(handle, state, c.state);
            && d.state == handed.state
            && (handed.refused.Some? ==>
                  && d.failure == Some(Rejected(handed.refused.value))
                  && d.leftover == WithoutFrames(h, buffer, handed.count))
            && (handed.refused.None? ==>
                  && d.leftover == c.leftover
                  && (c.failure.None? ==> d.failure.None?)
                  && (c.failure.Some? ==>
                        c.failure.value.BadFrame? && d.failure == Some(BadFrame(c.failure.value.frame))))
    decreases |buffer|
  {
    hide TryParse;
    match TryParse(h, buffer) {
      case Refuse(_) =>
      case Wait =>
      case Accept(m, used) =>
        var (next, refused) := handle(state, m);
        CollectFrom(h, [m], buffer[used..]);
        assert [] + [m] == [m];
        var later := Process(h, Collect, [], buffer[used..]).state;
        assert ([m] + later)[0] == m && ([m] + later)[1..] == later;
        NoFrames(h, buffer[used..]);
        if refused.None? {
          ProcessHandsOver(h, handle, next, buffer[used..]);
        }
    }
  }

  lemma NoFrames(h: Hasher, buffer: seq<byte>)
    ensures WithoutFrames(h, buffer, 0) == buffer
  {
    hide TryParse;
  }
}
