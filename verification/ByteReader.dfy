/** src/byte_reader.rs: the one bounds-checked cursor every parser reads through.

    Each read is specified by a grammar function from the unread bytes to a `Parsed`
    value, which says what is returned and where the cursor stops, on failure too. */
module Reading {
  import opened Wrappers
  import opened Bytes

  datatype ReadError = Eof | InvalidUtf8

  datatype Parsed<+T> = Got(value: T, rest: seq<byte>) | Fail(error: ReadError, rest: seq<byte>) {
    predicate IsFailure() {
      Fail?
    }

    function PropagateFailure<U>(): Parsed<U>
      requires Fail?
    {
      Fail(error, rest)
    }

    function Extract(): (T, seq<byte>)
      requires Got?
    {
      (value, rest)
    }

    function Outcome(): Result<T, ReadError> {
      if Got? then Ok(value) else Err(error)
    }
  }

  // ----- the grammar of the primitive reads

  function ReadBytes(s: seq<byte>, count: nat): Parsed<seq<byte>> {
    if count <= |s| then Got(s[..count], s[count..]) else Fail(Eof, s)
  }

  function ReadByte(s: seq<byte>): Parsed<byte> {
    if s == [] then Fail(Eof, s) else Got(s[0], s[1..])
  }

  function ReadU16(s: seq<byte>): Parsed<u16> {
    Widths();
    if |s| < 2 then Fail(Eof, s) else Got(FromLE(s[..2]), s[2..])
  }

  function ReadU32(s: seq<byte>): Parsed<u32> {
    Widths();
    if |s| < 4 then Fail(Eof, s) else Got(FromLE(s[..4]), s[4..])
  }

  function ReadU64(s: seq<byte>): Parsed<u64> {
    Widths();
    if |s| < 8 then Fail(Eof, s) else Got(FromLE(s[..8]), s[8..])
  }

  function ReadI32(s: seq<byte>): Parsed<i32> {
    var (n, rest) :- ReadU32(s);
    Got(Signed(n), rest)
  }

  function ReadDigest(s: seq<byte>): Parsed<Digest> {
    if |s| < 32 then Fail(Eof, s) else Got(s[..32], s[32..])
  }

  /** The prefix byte is spent even when the integer it announces is cut short. */
  function ReadCompact(s: seq<byte>): Parsed<u64> {
    var (prefix, s1) :- ReadByte(s);
    if prefix == 0xfd then
      var (n, rest) :- ReadU16(s1); Got(n, rest)
    else if prefix == 0xfe then
      var (n, rest) :- ReadU32(s1); Got(n, rest)
    else if prefix == 0xff then
      ReadU64(s1)
    else
      Got(prefix, s1)
  }

  /** A run of single-byte reads: a short input is consumed to its end before it fails. */
  function ReadBytewise(s: seq<byte>, count: nat): Parsed<seq<byte>> {
    if count <= |s| then Got(s[..count], s[count..]) else Fail(Eof, [])
  }

  /** `count` items in a row, each read by `item`. */
  function Repeat<T>(item: seq<byte> -> Parsed<T>, count: nat, s: seq<byte>): (p: Parsed<seq<T>>)
    ensures p.Got? ==> |p.value| == count
  {
    if count == 0 then
      Got([], s)
    else
      var (x, s1) :- item(s);
      var (xs, rest) :- Repeat(item, count - 1, s1);
      Got([x] + xs, rest)
  }

  /** Reading `count` items in a row, having already read `done`: what a loop computes. */
  function Continue<T>(item: seq<byte> -> Parsed<T>, done: seq<T>, count: nat, s: seq<byte>): Parsed<seq<T>>
    decreases count
  {
    if count == 0 then
      Got(done, s)
    else
      var (x, s1) :- item(s);
      Continue(item, done + [x], count - 1, s1)
  }

  lemma {:induction false} ContinueIsRepeat<T>(item: seq<byte> -> Parsed<T>, done: seq<T>, count: nat, s: seq<byte>)
    ensures var p := Repeat(item, count, s);
            Continue(item, done, count, s) == if p.Got? then Got(done + p.value, p.rest) else p
    decreases count
  {
    var p := item(s);
    if count == 0 {
      assert done + [] == done;
    } else if p.Got? {
      ContinueIsRepeat(item, done + [p.value], count - 1, p.rest);
      var q := Repeat(item, count - 1, p.rest);
      if q.Got? {
        assert done + ([p.value] + q.value) == done + [p.value] + q.value;
      }
    }
  }

  // ----- printing, item by item

  function PrintAll<T>(printer: T -> seq<byte>, xs: seq<T>): seq<byte> {
    if xs == [] then [] else printer(xs[0]) + PrintAll(printer, xs[1..])
  }

  lemma {:induction false} PrintAllSnoc<T>(printer: T -> seq<byte>, xs: seq<T>, x: T)
    ensures PrintAll(printer, xs + [x]) == PrintAll(printer, xs) + printer(x)
  {
    if xs == [] {
      assert [x][1..] == [];
    } else {
      assert (xs + [x])[1..] == xs[1..] + [x];
      PrintAllSnoc(printer, xs[1..], x);
    }
  }

  /** If reading one printed item gives it back, so does reading a run of them. */
  lemma {:induction false} RepeatRoundTrip<T(!new)>(
      printer: T -> seq<byte>, item: seq<byte> -> Parsed<T>, xs: seq<T>, rest: seq<byte>)
    requires forall x: T, tail: seq<byte> :: item(printer(x) + tail) == Got(x, tail)
    ensures Repeat(item, |xs|, PrintAll(printer, xs) + rest) == Got(xs, rest)
  {
    if xs == [] {
      assert PrintAll(printer, xs) + rest == rest;
    } else {
      var tail := PrintAll(printer, xs[1..]) + rest;
      assert PrintAll(printer, xs) + rest == printer(xs[0]) + tail;
      RepeatRoundTrip(printer, item, xs[1..], rest);
      assert item(printer(xs[0]) + tail) == Got(xs[0], tail);
      assert [xs[0]] + xs[1..] == xs;
    }
  }

  lemma U16RoundTrip(n: u16, rest: seq<byte>)
    ensures ReadU16(ToLE(n, 2) + rest) == Got(n, rest)
  {
    Widths();
    FromToLE(n, 2);
    assert (ToLE(n, 2) + rest)[..2] == ToLE(n, 2) && (ToLE(n, 2) + rest)[2..] == rest;
  }

  lemma U32RoundTrip(n: u32, rest: seq<byte>)
    ensures ReadU32(ToLE(n, 4) + rest) == Got(n, rest)
  {
    Widths();
    FromToLE(n, 4);
    assert (ToLE(n, 4) + rest)[..4] == ToLE(n, 4) && (ToLE(n, 4) + rest)[4..] == rest;
  }

  lemma U64RoundTrip(n: u64, rest: seq<byte>)
    ensures ReadU64(ToLE(n, 8) + rest) == Got(n, rest)
  {
    Widths();
    FromToLE(n, 8);
    assert (ToLE(n, 8) + rest)[..8] == ToLE(n, 8) && (ToLE(n, 8) + rest)[8..] == rest;
  }

  /** When each read fails, and where it leaves the cursor: a short fixed-width read where it was, a
      compact integer after its prefix, a run of single bytes at the end. */
  lemma ReadsThatFail(s: seq<byte>, count: nat)
    ensures var p := ReadBytes(s, count); (p.Fail? <==> |s| < count) && (p.Fail? ==> p == Fail(Eof, s))
    ensures ReadByte(s).Fail? <==> |s| < 1
    ensures ReadU16(s).Fail? <==> |s| < 2
    ensures ReadU32(s).Fail? <==> |s| < 4
    ensures ReadU64(s).Fail? <==> |s| < 8
    ensures ReadDigest(s).Fail? <==> |s| < 32
    ensures ReadByte(s).Fail? ==> ReadByte(s) == Fail(Eof, s)
    ensures ReadU16(s).Fail? ==> ReadU16(s) == Fail(Eof, s)
    ensures ReadU32(s).Fail? ==> ReadU32(s) == Fail(Eof, s) && ReadI32(s) == Fail(Eof, s)
    ensures ReadU64(s).Fail? ==> ReadU64(s) == Fail(Eof, s)
    ensures ReadDigest(s).Fail? ==> ReadDigest(s) == Fail(Eof, s)
    ensures ReadCompact(s).Fail? <==>
              s == [] || (s[0] == 0xfd && |s| < 3) || (s[0] == 0xfe && |s| < 5) || (s[0] == 0xff && |s| < 9)
    ensures ReadCompact(s).Fail? ==> ReadCompact(s) == Fail(Eof, if s == [] then s else s[1..])
    ensures var p := ReadBytewise(s, count); (p.Fail? <==> |s| < count) && (p.Fail? ==> p == Fail(Eof, []))
  {
  }

  // ----- the cursor itself

  class ByteReader {
    const bytes: Vec<byte>
    var position: nat

    ghost predicate Valid()
      reads this
    {
      position <= |bytes|
    }

    /** The unread bytes. As `bytes` never changes, they determine the position. */
    ghost function Rest(): seq<byte>
      reads this
      requires Valid()
    {
      bytes[position..]
    }

    constructor (bytes: Vec<byte>)
      ensures Valid() && this.bytes == bytes && Rest() == bytes
    {
      this.bytes := bytes;
      position := 0;
    }

    /** `checked_add` refuses a count that would wrap the cursor. */
    method Take(count: u64) returns (taken: Option<seq<byte>>)
      requires Valid()
      modifies this
      ensures Valid()
      ensures taken == if count <= |old(Rest())| then Some(old(Rest())[..count]) else None
      ensures Rest() == if count <= |old(Rest())| then old(Rest())[count..] else old(Rest())
    {
      var end := position + count;
      if end >= 0x1_0000_0000_0000_0000 {
        return None;
      }
      if end > |bytes| {
        return None;
      }
      assert bytes[position..][..count] == bytes[position..end] && bytes[position..][count..] == bytes[end..];
      taken := Some(bytes[position..end]);
      position := end;
    }

    method Bytes(count: u64) returns (r: Result<seq<byte>, ReadError>)
      requires Valid()
      modifies this
      ensures Valid()
      ensures var p := ReadBytes(old(Rest()), count); r == p.Outcome() && Rest() == p.rest
    {
      var taken := Take(count);
      r := if taken.Some? then Ok(taken.value) else Err(Eof);
    }

    method Byte() returns (r: Result<byte, ReadError>)
      requires Valid()
      modifies this
      ensures Valid()
      ensures var p := ReadByte(old(Rest())); r == p.Outcome() && Rest() == p.rest
    {
      var taken := Take(1);
      r := if taken.Some? then Ok(taken.value[0]) else Err(Eof);
    }

    method U16() returns (r: Result<u16, ReadError>)
      requires Valid()
      modifies this
      ensures Valid()
      ensures var p := ReadU16(old(Rest())); r == p.Outcome() && Rest() == p.rest
    {
      Widths();
      var taken := Take(2);
      r := if taken.Some? then Ok(FromLE(taken.value)) else Err(Eof);
    }

    method U32() returns (r: Result<u32, ReadError>)
      requires Valid()
      modifies this
      ensures Valid()
      ensures var p := ReadU32(old(Rest())); r == p.Outcome() && Rest() == p.rest
    {
      Widths();
      var taken := Take(4);
      r := if taken.Some? then Ok(FromLE(taken.value)) else Err(Eof);
    }

    method I32() returns (r: Result<i32, ReadError>)
      requires Valid()
      modifies this
      ensures Valid()
      ensures var p := ReadI32(old(Rest())); r == p.Outcome() && Rest() == p.rest
    {
      var n := U32();
      r := if n.Ok? then Ok(Signed(n.value)) else Err(n.error);
    }

    method U64() returns (r: Result<u64, ReadError>)
      requires Valid()
      modifies this
      ensures Valid()
      ensures var p := ReadU64(old(Rest())); r == p.Outcome() && Rest() == p.rest
    {
      Widths();
      var taken := Take(8);
      r := if taken.Some? then Ok(FromLE(taken.value)) else Err(Eof);
    }

    method Digest32() returns (r: Result<Digest, ReadError>)
      requires Valid()
      modifies this
      ensures Valid()
      ensures var p := ReadDigest(old(Rest())); r == p.Outcome() && Rest() == p.rest
    {
      var taken := Take(32);
      r := if taken.Some? then Ok(taken.value) else Err(Eof);
    }

    method Compact() returns (r: Result<u64, ReadError>)
      requires Valid()
      modifies this
      ensures Valid()
      ensures var p := ReadCompact(old(Rest())); r == p.Outcome() && Rest() == p.rest
    {
      var prefix :- Byte();
      if prefix == 0xfd {
        var n :- U16();
        r := Ok(n);
      } else if prefix == 0xfe {
        var n :- U32();
        r := Ok(n);
      } else if prefix == 0xff {
        r := U64();
      } else {
        r := Ok(prefix);
      }
    }

    /** The byte-at-a-time loop that collects a string. */
    method Bytewise(count: u64) returns (r: Result<seq<byte>, ReadError>)
      requires Valid()
      modifies this
      ensures Valid()
      ensures var p := ReadBytewise(old(Rest()), count); r == p.Outcome() && Rest() == p.rest
    {
      ghost var start := Rest();
      var collected: seq<byte> := [];
      for i := 0 to count
        invariant Valid()
        invariant i <= |start| && collected == start[..i] && Rest() == start[i..]
      {
        var b :- Byte();
        collected := collected + [b];
      }
      r := Ok(collected);
    }
  }
}
