/** src/util.rs: compact-size integers and the fixed-width command field. */
module Util {
  import opened Wrappers
  import opened Bytes
  import opened Reading

  function CompactInt(number: u64): (s: seq<byte>)
    ensures 1 <= |s| <= 9
  {
    if number <= 252 then [number]
    else if number <= 0xffff then [0xfd] + ToLE(number, 2)
    else if number <= 0xffff_ffff then [0xfe] + ToLE(number, 4)
    else [0xff] + ToLE(number, 8)
  }

  lemma CompactRoundTrip(n: u64, rest: seq<byte>)
    ensures ReadCompact(CompactInt(n) + rest) == Got(n, rest)
  {
    hide ToLE, FromLE;
    var s := CompactInt(n) + rest;
    if n <= 252 {
      assert s[1..] == rest;
    } else if n <= 0xffff {
      assert s[1..] == ToLE(n, 2) + rest;
      U16RoundTrip(n, rest);
    } else if n <= 0xffff_ffff {
      assert s[1..] == ToLE(n, 4) + rest;
      U32RoundTrip(n, rest);
    } else {
      assert s[1..] == ToLE(n, 8) + rest;
      U64RoundTrip(n, rest);
    }
  }

  /** The reader also takes encodings that the printer never makes: what it reads is only
      determined by the bytes when the encoding is the shortest one. */
  lemma CompactReprints(s: seq<byte>)
    requires ReadCompact(s).Got?
    ensures var n, rest := ReadCompact(s).value, ReadCompact(s).rest;
            CompactInt(n) + rest == s <==>
            (s[0] == 0xfd ==> n > 252) && (s[0] == 0xfe ==> n > 0xffff) && (s[0] == 0xff ==> n > 0xffff_ffff)
  {
    hide ToLE, FromLE;
    var n, rest := ReadCompact(s).value, ReadCompact(s).rest;
    var w := if s[0] == 0xfd then 2 else if s[0] == 0xfe then 4 else if s[0] == 0xff then 8 else 0;
    assert s == [s[0]] + s[1..1 + w] + rest;
    if w > 0 {
      ToFromLE(s[1..1 + w]);
      assert s[1..][..w] == s[1..1 + w] && rest == s[1..][w..];
      var minimal := (s[0] == 0xfd ==> n > 252) && (s[0] == 0xfe ==> n > 0xffff) && (s[0] == 0xff ==> n > 0xffff_ffff);
      if minimal {
        Widths();
        assert CompactInt(n) == [s[0]] + ToLE(n, w);
      } else {
        assert |CompactInt(n)| < 1 + w;
      }
    }
  }

  // ----- a count followed by that many items

  function PrintCounted<T>(printer: T -> seq<byte>, xs: Vec<T>): seq<byte> {
    CompactInt(|xs|) + PrintAll(printer, xs)
  }

  function ReadCounted<T>(item: seq<byte> -> Parsed<T>, s: seq<byte>): Parsed<Vec<T>> {
    var (count, s1) :- ReadCompact(s);
    var (xs, rest) :- Repeat(item, count, s1);
    Got(xs, rest)
  }

  lemma CountedRoundTrip<T(!new)>(
      printer: T -> seq<byte>, item: seq<byte> -> Parsed<T>, xs: Vec<T>, rest: seq<byte>)
    requires forall x: T, tail: seq<byte> :: item(printer(x) + tail) == Got(x, tail)
    ensures ReadCounted(item, PrintCounted(printer, xs) + rest) == Got(xs, rest)
  {
    var s1 := PrintAll(printer, xs) + rest;
    assert PrintCounted(printer, xs) + rest == CompactInt(|xs|) + s1;
    CompactRoundTrip(|xs|, s1);
    RepeatRoundTrip(printer, item, xs, rest);
  }

  /** The same items under a nine-byte count, whatever their number. */
  function PrintWide<T>(printer: T -> seq<byte>, xs: Vec<T>): seq<byte> {
    [0xff] + (ToLE(|xs|, 8) + PrintAll(printer, xs))
  }

  lemma WideRoundTrip<T(!new)>(
      printer: T -> seq<byte>, item: seq<byte> -> Parsed<T>, xs: Vec<T>, rest: seq<byte>)
    requires forall x: T, tail: seq<byte> :: item(printer(x) + tail) == Got(x, tail)
    ensures ReadCounted(item, PrintWide(printer, xs) + rest) == Got(xs, rest)
  {
    var count, body := ToLE(|xs|, 8), PrintAll(printer, xs);
    Assoc(count, body, rest);
    assert (PrintWide(printer, xs) + rest)[1..] == count + body + rest;
    U64RoundTrip(|xs|, body + rest);
    RepeatRoundTrip(printer, item, xs, rest);
  }

  // ----- the command field

  predicate IsAscii(s: seq<byte>) {
    forall i :: 0 <= i < |s| ==> s[i] < 128
  }

  function Command12(cmd: seq<byte>): (field: seq<byte>)
    requires |cmd| <= 12 && IsAscii(cmd)
    ensures |field| == 12 && field[..|cmd|] == cmd && forall k :: |cmd| <= k < 12 ==> field[k] == 0
  {
    cmd + Zeros(12 - |cmd|)
  }

  datatype CommandError = InvalidPadding

  /** The index of the first null byte, or |s|. */
  function FirstNull(s: seq<byte>): (i: nat)
    ensures i <= |s|
    ensures i < |s| ==> s[i] == 0
    ensures forall k :: 0 <= k < i ==> s[k] != 0
  {
    if s == [] || s[0] == 0 then 0 else 1 + FirstNull(s[1..])
  }

  function ParseCommand(field: seq<byte>): Result<seq<byte>, CommandError> {
    var end := FirstNull(field);
    if exists i :: end <= i < |field| && field[i] != 0 then
      Err(InvalidPadding)
    else if !IsAscii(field[..end]) then
      Err(InvalidPadding)
    else
      Ok(field[..end])
  }

  /** A field parses to `cmd` exactly when it is the field printed for `cmd`. */
  lemma CommandCodec(field: seq<byte>, cmd: seq<byte>)
    requires |field| == 12
    ensures ParseCommand(field) == Ok(cmd) <==>
            |cmd| <= 12 && IsAscii(cmd) && 0 !in cmd && field == Command12(cmd)
  {
    var end := FirstNull(field);
    if ParseCommand(field) == Ok(cmd) {
      assert field[end..] == Zeros(12 - end);
      assert field == field[..end] + field[end..];
    }
    if |cmd| <= 12 && IsAscii(cmd) && 0 !in cmd && field == Command12(cmd) {
      assert forall k :: 0 <= k < |cmd| ==> field[k] == cmd[k] && cmd[k] in cmd;
      assert |cmd| < 12 ==> field[|cmd|] == 0;
      assert end == |cmd|;
      assert field[..end] == cmd;
    }
  }

  /** The two passes over one iterator: the second resumes after the null the first stopped at. */
  method ParseCommand12(field: seq<byte>) returns (r: Result<seq<byte>, CommandError>)
    requires |field| == 12
    ensures r == ParseCommand(field)
  {
    var next := 0;
    while next < 12 && field[next] != 0
      invariant 0 <= next <= 12 && forall i :: 0 <= i < next ==> field[i] != 0
    {
      next := next + 1;
    }
    var end := next;
    assert end == FirstNull(field);
    if next < 12 {
      next := next + 1;
      while next < 12 && field[next] == 0
        invariant end < next <= 12 && forall i :: end <= i < next ==> field[i] == 0
      {
        next := next + 1;
      }
      if next < 12 {
        return Err(InvalidPadding);
      }
    }
    if !IsAscii(field[..end]) {
      return Err(InvalidPadding);
    }
    return Ok(field[..end]);
  }
}
