/** The byte strings a `String` may hold are exactly the encodings of sequences of Unicode scalar
    values, section 3 of RFC 3629; `ValidUtf8` follows the grammar of its section 4. */
module Utf8 {
  import opened Bytes
  import opened Transactions

  type Scalar = c: int | 0 <= c < 0xd800 || 0xe000 <= c <= 0x10ffff witness 0

  function Encode(c: Scalar): (s: seq<byte>)
    ensures 1 <= |s| <= 4
  {
    if c < 0x80 then [c]
    else if c < 0x800 then [0xc0 + c / 0x40, 0x80 + c % 0x40]
    else if c < 0x1_0000 then [0xe0 + c / 0x1000, 0x80 + c / 0x40 % 0x40, 0x80 + c % 0x40]
    else [0xf0 + c / 0x4_0000, 0x80 + c / 0x1000 % 0x40, 0x80 + c / 0x40 % 0x40, 0x80 + c % 0x40]
  }

  function EncodeAll(cs: seq<Scalar>): seq<byte> {
    if cs == [] then [] else Encode(cs[0]) + EncodeAll(cs[1..])
  }

  lemma EncodingIsValid(c: Scalar, rest: seq<byte>)
    ensures ValidUtf8(Encode(c) + rest) <==> ValidUtf8(rest)
  {
    var s := Encode(c) + rest;
    assert s[|Encode(c)|..] == rest;
    if c >= 0x1_0000 {
      assert c / 0x4_0000 <= 4;
    }
  }

  predicate IsTail(b: int) {
    0x80 <= b <= 0xbf
  }

  lemma OfTwo(a: int, b: int) returns (c: Scalar)
    requires 0xc2 <= a <= 0xdf && IsTail(b)
    ensures Encode(c) == [a, b]
  {
    c := (a - 0xc0) * 0x40 + (b - 0x80);
  }

  lemma OfThree(a: int, b: int, d: int) returns (c: Scalar)
    requires 0xe0 <= a <= 0xef && IsTail(b) && IsTail(d) && (a == 0xe0 ==> b >= 0xa0) && (a == 0xed ==> b <= 0x9f)
    ensures Encode(c) == [a, b, d]
  {
    c := (a - 0xe0) * 0x1000 + (b - 0x80) * 0x40 + (d - 0x80);
    assert c / 0x40 == (a - 0xe0) * 0x40 + (b - 0x80);
  }

  lemma OfFour(a: int, b: int, d: int, e: int) returns (c: Scalar)
    requires 0xf0 <= a <= 0xf4 && IsTail(b) && IsTail(d) && IsTail(e)
    requires (a == 0xf0 ==> b >= 0x90) && (a == 0xf4 ==> b <= 0x8f)
    ensures Encode(c) == [a, b, d, e]
  {
    c := (a - 0xf0) * 0x4_0000 + (b - 0x80) * 0x1000 + (d - 0x80) * 0x40 + (e - 0x80);
    assert c / 0x40 == (a - 0xf0) * 0x1000 + (b - 0x80) * 0x40 + (d - 0x80);
    assert c / 0x1000 == (a - 0xf0) * 0x40 + (b - 0x80);
  }

  /** The scalar value at the front of a valid string. */
  lemma FirstScalar(s: seq<byte>) returns (c: Scalar)
    requires s != [] && ValidUtf8(s)
    ensures |Encode(c)| <= |s| && s == Encode(c) + s[|Encode(c)|..] && ValidUtf8(s[|Encode(c)|..])
  {
    if s[0] <= 0x7f {
      c := s[0];
    } else {
      hide Encode;
      if s[0] <= 0xdf {
        c := OfTwo(s[0], s[1]);
      } else if s[0] <= 0xef {
        c := OfThree(s[0], s[1], s[2]);
      } else {
        c := OfFour(s[0], s[1], s[2], s[3]);
      }
    }
  }

  lemma {:induction false} Decoded(s: seq<byte>) returns (cs: seq<Scalar>)
    requires ValidUtf8(s)
    ensures EncodeAll(cs) == s
    decreases |s|
  {
    hide ValidUtf8, Encode;
    if s == [] {
      cs := [];
    } else {
      var c := FirstScalar(s);
      var rest := Decoded(s[|Encode(c)|..]);
      cs := [c] + rest;
      assert cs[0] == c && cs[1..] == rest;
    }
  }

  lemma {:induction false} EncodedIsValid(cs: seq<Scalar>)
    ensures ValidUtf8(EncodeAll(cs))
  {
    hide Encode;
    if cs != [] {
      EncodedIsValid(cs[1..]);
      EncodingIsValid(cs[0], EncodeAll(cs[1..]));
    }
  }

  /** A byte string is accepted exactly when it encodes some scalar values: no surrogate, nothing past
      the last code point, nothing longer than it need be, nothing cut short. */
  lemma ValidIffEncoded(s: seq<byte>)
    ensures ValidUtf8(s) <==> exists cs :: s == EncodeAll(cs)
  {
    hide ValidUtf8, EncodeAll;
    if ValidUtf8(s) {
      var cs := Decoded(s);
    }
    if cs :| s == EncodeAll(cs) {
      EncodedIsValid(cs);
    }
  }
}
