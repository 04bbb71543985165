/** src/transaction.rs: the transaction codec and the transaction id. */
module Transactions {
  import opened Wrappers
  import opened Bytes
  import opened Reading
  import opened Util

  predicate Tail(b: byte) {
    0x80 <= b <= 0xbf
  }

  /** The well-formed byte sequences of section 4 of RFC 3629. */
  predicate ValidUtf8(s: seq<byte>) {
    if s == [] then true
    else if s[0] <= 0x7f then ValidUtf8(s[1..])
    else if 0xc2 <= s[0] <= 0xdf then
      |s| >= 2 && Tail(s[1]) && ValidUtf8(s[2..])
    else if 0xe0 <= s[0] <= 0xef then
      && |s| >= 3 && Tail(s[1]) && Tail(s[2])
      && (s[0] == 0xe0 ==> s[1] >= 0xa0)
      && (s[0] == 0xed ==> s[1] <= 0x9f)
      && ValidUtf8(s[3..])
    else if 0xf0 <= s[0] <= 0xf4 then
      && |s| >= 4 && Tail(s[1]) && Tail(s[2]) && Tail(s[3])
      && (s[0] == 0xf0 ==> s[1] >= 0x90)
      && (s[0] == 0xf4 ==> s[1] <= 0x8f)
      && ValidUtf8(s[4..])
    else false
  }

  /** A `String`, as the bytes it holds. */
  type Text = s: Vec<byte> | ValidUtf8(s) witness []

  datatype Outpoint = Outpoint(txId: Digest, vOut: u32)
  datatype TxIn = TxIn(previousOutput: Outpoint, signature: Text, sequence: u32)
  datatype TxOut = TxOut(value: u64, destinyPubKey: Text)
  datatype Transaction = Transaction(version: u32, inputs: Vec<TxIn>, outputs: Vec<TxOut>, lockTime: u32)

  // ----- printing

  function PrintText(t: Text): seq<byte> {
    CompactInt(|t|) + t
  }

  function PrintTxIn(i: TxIn): seq<byte> {
    i.previousOutput.txId + (ToLE(i.previousOutput.vOut, 4) + (PrintText(i.signature) + ToLE(i.sequence, 4)))
  }

  function PrintTxOut(o: TxOut): seq<byte> {
    ToLE(o.value, 8) + PrintText(o.destinyPubKey)
  }

  function PrintTx(t: Transaction): seq<byte> {
    ToLE(t.version, 4)
    + (PrintCounted(PrintTxIn, t.inputs) + (PrintCounted(PrintTxOut, t.outputs) + ToLE(t.lockTime, 4)))
  }

  function TxId(h: Hasher, t: Transaction): Digest {
    h(PrintTx(t))
  }

  method AppendInput(before: seq<byte>, input: TxIn) returns (raw: seq<byte>)
    ensures raw == before + PrintTxIn(input)
  {
    var id, vOut := input.previousOutput.txId, ToLE(input.previousOutput.vOut, 4);
    var text, sequence := PrintText(input.signature), ToLE(input.sequence, 4);
    raw := before + id;
    raw := raw + vOut;
    raw := raw + CompactInt(|input.signature|);
    raw := raw + input.signature;
    Assoc(before + id + vOut, CompactInt(|input.signature|), input.signature);
    raw := raw + sequence;
    Assoc(before + id + vOut, text, sequence);
    Assoc(before + id, vOut, text + sequence);
    Assoc(before, id, vOut + (text + sequence));
  }

  method AppendOutput(before: seq<byte>, output: TxOut) returns (raw: seq<byte>)
    ensures raw == before + PrintTxOut(output)
  {
    raw := before + ToLE(output.value, 8);
    raw := raw + CompactInt(|output.destinyPubKey|);
    raw := raw + output.destinyPubKey;
    Assoc(before + ToLE(output.value, 8), CompactInt(|output.destinyPubKey|), output.destinyPubKey);
    Assoc(before, ToLE(output.value, 8), PrintText(output.destinyPubKey));
  }

  method AppendInputs(before: seq<byte>, inputs: Vec<TxIn>) returns (raw: seq<byte>)
    ensures raw == before + PrintCounted(PrintTxIn, inputs)
  {
    hide ToLE, CompactInt, PrintTxIn, PrintTxOut;
    var start := before + CompactInt(|inputs|);
    raw := start;
    for i := 0 to |inputs|
      invariant raw == start + PrintAll(PrintTxIn, inputs[..i])
    {
      PrintAllSnoc(PrintTxIn, inputs[..i], inputs[i]);
      assert inputs[..i] + [inputs[i]] == inputs[..i + 1];
      Assoc(start, PrintAll(PrintTxIn, inputs[..i]), PrintTxIn(inputs[i]));
      raw := AppendInput(raw, inputs[i]);
    }
    assert inputs[..|inputs|] == inputs;
    Assoc(before, CompactInt(|inputs|), PrintAll(PrintTxIn, inputs));
  }

  method AppendOutputs(before: seq<byte>, outputs: Vec<TxOut>) returns (raw: seq<byte>)
    ensures raw == before + PrintCounted(PrintTxOut, outputs)
  {
    hide ToLE, CompactInt, PrintTxIn, PrintTxOut;
    var start := before + CompactInt(|outputs|);
    raw := start;
    for i := 0 to |outputs|
      invariant raw == start + PrintAll(PrintTxOut, outputs[..i])
    {
      PrintAllSnoc(PrintTxOut, outputs[..i], outputs[i]);
      assert outputs[..i] + [outputs[i]] == outputs[..i + 1];
      Assoc(start, PrintAll(PrintTxOut, outputs[..i]), PrintTxOut(outputs[i]));
      raw := AppendOutput(raw, outputs[i]);
    }
    assert outputs[..|outputs|] == outputs;
    Assoc(before, CompactInt(|outputs|), PrintAll(PrintTxOut, outputs));
  }

  method GetRawFormat(t: Transaction) returns (raw: seq<byte>)
    ensures raw == PrintTx(t)
  {
    raw := ToLE(t.version, 4);
    raw := AppendInputs(raw, t.inputs);
    raw := AppendOutputs(raw, t.outputs);
    raw := raw + ToLE(t.lockTime, 4);
    ghost var version := ToLE(t.version, 4);
    ghost var inputs, outputs := PrintCounted(PrintTxIn, t.inputs), PrintCounted(PrintTxOut, t.outputs);
    Assoc(version + inputs, outputs, ToLE(t.lockTime, 4));
    Assoc(version, inputs, outputs + ToLE(t.lockTime, 4));
  }

  // ----- the grammar

  function ReadText(s: seq<byte>): Parsed<Text> {
    var (length, s1) :- ReadCompact(s);
    var (text, rest) :- ReadBytewise(s1, length);
    if ValidUtf8(text) then Got(text, rest) else Fail(InvalidUtf8, rest)
  }

  function ReadTxIn(s: seq<byte>): Parsed<TxIn> {
    var (txId, s1) :- ReadDigest(s);
    var (vOut, s2) :- ReadU32(s1);
    var (signature, s3) :- ReadText(s2);
    var (sequence, rest) :- ReadU32(s3);
    Got(TxIn(Outpoint(txId, vOut), signature, sequence), rest)
  }

  function ReadTxOut(s: seq<byte>): Parsed<TxOut> {
    var (value, s1) :- ReadU64(s);
    var (pubKey, rest) :- ReadText(s1);
    Got(TxOut(value, pubKey), rest)
  }

  function ReadTx(s: seq<byte>): Parsed<Transaction> {
    var (version, s1) :- ReadU32(s);
    var (inputs, s2) :- ReadCounted(ReadTxIn, s1);
    var (outputs, s3) :- ReadCounted(ReadTxOut, s2);
    var (lockTime, rest) :- ReadU32(s3);
    Got(Transaction(version, inputs, outputs, lockTime), rest)
  }

  // ----- parsing through the cursor

  method ParseText(reader: ByteReader) returns (r: Result<Text, ReadError>)
    requires reader.Valid()
    modifies reader
    ensures reader.Valid()
    ensures var p := ReadText(old(reader.Rest())); r == p.Outcome() && reader.Rest() == p.rest
  {
    var length :- reader.Compact();
    var text :- reader.Bytewise(length);
    r := if ValidUtf8(text) then Ok(text) else Err(InvalidUtf8);
  }

  method ParseTxIn(reader: ByteReader) returns (r: Result<TxIn, ReadError>)
    requires reader.Valid()
    modifies reader
    ensures reader.Valid()
    ensures var p := ReadTxIn(old(reader.Rest())); r == p.Outcome() && reader.Rest() == p.rest
  {
    var txId :- reader.Digest32();
    var vOut :- reader.U32();
    var signature :- ParseText(reader);
    var sequence :- reader.U32();
    r := Ok(TxIn(Outpoint(txId, vOut), signature, sequence));
  }

  method ParseTxOut(reader: ByteReader) returns (r: Result<TxOut, ReadError>)
    requires reader.Valid()
    modifies reader
    ensures reader.Valid()
    ensures var p := ReadTxOut(old(reader.Rest())); r == p.Outcome() && reader.Rest() == p.rest
  {
    var value :- reader.U64();
    var pubKey :- ParseText(reader);
    r := Ok(TxOut(value, pubKey));
  }

  method ParseInputs(reader: ByteReader, count: u64) returns (r: Result<Vec<TxIn>, ReadError>)
    requires reader.Valid()
    modifies reader
    ensures reader.Valid()
    ensures var p := Repeat(ReadTxIn, count, old(reader.Rest())); r == p.Outcome() && reader.Rest() == p.rest
  {
    hide ReadTxIn;
    ghost var goal := Repeat(ReadTxIn, count, reader.Rest());
    var inputs: seq<TxIn> := [];
    ContinueIsRepeat(ReadTxIn, [], count, reader.Rest());
    assert goal.Got? ==> [] + goal.value == goal.value;
    for i := 0 to count
      invariant reader.Valid() && |inputs| == i
      invariant Continue(ReadTxIn, inputs, count - i, reader.Rest()) == goal
    {
      var input :- ParseTxIn(reader);
      inputs := inputs + [input];
    }
    r := Ok(inputs);
  }

  method ParseOutputs(reader: ByteReader, count: u64) returns (r: Result<Vec<TxOut>, ReadError>)
    requires reader.Valid()
    modifies reader
    ensures reader.Valid()
    ensures var p := Repeat(ReadTxOut, count, old(reader.Rest())); r == p.Outcome() && reader.Rest() == p.rest
  {
    hide ReadTxOut;
    ghost var goal := Repeat(ReadTxOut, count, reader.Rest());
    var outputs: seq<TxOut> := [];
    ContinueIsRepeat(ReadTxOut, [], count, reader.Rest());
    assert goal.Got? ==> [] + goal.value == goal.value;
    for i := 0 to count
      invariant reader.Valid() && |outputs| == i
      invariant Continue(ReadTxOut, outputs, count - i, reader.Rest()) == goal
    {
      var output :- ParseTxOut(reader);
      outputs := outputs + [output];
    }
    r := Ok(outputs);
  }

  method ParseRaw(reader: ByteReader) returns (r: Result<Transaction, ReadError>)
    requires reader.Valid()
    modifies reader
    ensures reader.Valid()
    ensures var p := ReadTx(old(reader.Rest())); r == p.Outcome() && reader.Rest() == p.rest
  {
    var version :- reader.U32();
    var inputCount :- reader.Compact();
    var inputs :- ParseInputs(reader, inputCount);
    var outputCount :- reader.Compact();
    var outputs :- ParseOutputs(reader, outputCount);
    var lockTime :- reader.U32();
    r := Ok(Transaction(version, inputs, outputs, lockTime));
  }

  // ----- the codec

  // ----- where the fields stand

  lemma TxInLayout(i: TxIn)
    ensures var s := PrintTxIn(i);
            && |s| >= 40 && s[..32] == i.previousOutput.txId && FromLE(s[32..36]) == i.previousOutput.vOut
            && s[36..|s| - 4] == CompactInt(|i.signature|) + i.signature && FromLE(s[|s| - 4..]) == i.sequence
  {
    hide ToLE, FromLE, Pow256, CompactInt;
    var s := PrintTxIn(i);
    Widths();
    FromToLE(i.previousOutput.vOut, 4);
    FromToLE(i.sequence, 4);
    assert s[32..36] == ToLE(i.previousOutput.vOut, 4) && s[|s| - 4..] == ToLE(i.sequence, 4);
  }

  lemma TxOutLayout(o: TxOut)
    ensures var s := PrintTxOut(o);
            |s| >= 8 && FromLE(s[..8]) == o.value && s[8..] == CompactInt(|o.destinyPubKey|) + o.destinyPubKey
  {
    hide ToLE, FromLE, Pow256, CompactInt;
    Widths();
    FromToLE(o.value, 8);
    assert PrintTxOut(o)[..8] == ToLE(o.value, 8);
  }

  /** Version first, then the counted inputs in order, then the counted outputs, lock time last. */
  lemma TxLayout(t: Transaction)
    ensures var s := PrintTx(t);
            var inputs, outputs := PrintAll(PrintTxIn, t.inputs), PrintAll(PrintTxOut, t.outputs);
            && |s| >= 8 && FromLE(s[..4]) == t.version && FromLE(s[|s| - 4..]) == t.lockTime
            && s[4..|s| - 4] == CompactInt(|t.inputs|) + inputs + (CompactInt(|t.outputs|) + outputs)
  {
    hide PrintTxIn, PrintTxOut, ToLE, FromLE, Pow256, CompactInt, PrintAll;
    var s := PrintTx(t);
    Widths();
    FromToLE(t.version, 4);
    FromToLE(t.lockTime, 4);
    assert s[..4] == ToLE(t.version, 4) && s[|s| - 4..] == ToLE(t.lockTime, 4);
  }

  /** A string is refused only for being cut short, or for not being UTF-8 once all of it is read. */
  lemma TextsThatFail(s: seq<byte>)
    ensures ReadText(s).Fail? && ReadText(s).error == InvalidUtf8 <==>
              var c := ReadCompact(s); c.Got? && c.value <= |c.rest| && !ValidUtf8(c.rest[..c.value])
    ensures ReadText(s).Fail? && ReadText(s).error == InvalidUtf8 ==>
              ReadText(s).rest == ReadCompact(s).rest[ReadCompact(s).value..]
    ensures ReadText(s).Fail? && ReadText(s).error == Eof <==>
              ReadCompact(s).Fail? || |ReadCompact(s).rest| < ReadCompact(s).value
  {
    hide ReadCompact;
    ReadsThatFail(s, 0);
  }

  lemma TextRoundTrip(t: Text, rest: seq<byte>)
    ensures ReadText(PrintText(t) + rest) == Got(t, rest)
  {
    CompactRoundTrip(|t|, t + rest);
    assert PrintText(t) + rest == CompactInt(|t|) + (t + rest);
    assert (t + rest)[..|t|] == t && (t + rest)[|t|..] == rest;
  }

  lemma TxInRoundTrip(i: TxIn, rest: seq<byte>)
    ensures ReadTxIn(PrintTxIn(i) + rest) == Got(i, rest)
  {
    var s3 := ToLE(i.sequence, 4) + rest;
    var s2 := PrintText(i.signature) + s3;
    var s1 := ToLE(i.previousOutput.vOut, 4) + s2;
    assert PrintTxIn(i) + rest == i.previousOutput.txId + s1;
    assert (i.previousOutput.txId + s1)[..32] == i.previousOutput.txId;
    assert (i.previousOutput.txId + s1)[32..] == s1;
    U32RoundTrip(i.previousOutput.vOut, s2);
    TextRoundTrip(i.signature, s3);
    U32RoundTrip(i.sequence, rest);
  }

  lemma TxOutRoundTrip(o: TxOut, rest: seq<byte>)
    ensures ReadTxOut(PrintTxOut(o) + rest) == Got(o, rest)
  {
    var s1 := PrintText(o.destinyPubKey) + rest;
    assert PrintTxOut(o) + rest == ToLE(o.value, 8) + s1;
    U64RoundTrip(o.value, s1);
    TextRoundTrip(o.destinyPubKey, rest);
  }

  /** `counted` is any encoding of the inputs that reads back as them. */
  lemma TxReads(t: Transaction, counted: seq<byte>, rest: seq<byte>)
    requires forall tail: seq<byte> :: ReadCounted(ReadTxIn, counted + tail) == Got(t.inputs, tail)
    ensures ReadTx(ToLE(t.version, 4) + (counted + (PrintCounted(PrintTxOut, t.outputs) + ToLE(t.lockTime, 4))) + rest)
         == Got(t, rest)
  {
    forall o: TxOut, tail: seq<byte> ensures ReadTxOut(PrintTxOut(o) + tail) == Got(o, tail) {
      TxOutRoundTrip(o, tail);
    }
    var outputs := PrintCounted(PrintTxOut, t.outputs);
    var s3 := ToLE(t.lockTime, 4) + rest;
    var s2 := outputs + s3;
    var s1 := counted + s2;
    Assoc(outputs, ToLE(t.lockTime, 4), rest);
    Assoc(counted, outputs + ToLE(t.lockTime, 4), rest);
    Assoc(ToLE(t.version, 4), counted + (outputs + ToLE(t.lockTime, 4)), rest);
    U32RoundTrip(t.version, s1);
    assert ReadCounted(ReadTxIn, counted + s2) == Got(t.inputs, s2);
    CountedRoundTrip(PrintTxOut, ReadTxOut, t.outputs, s3);
    U32RoundTrip(t.lockTime, rest);
  }

  /** Whatever follows a printed transaction, reading gives it back and stops exactly there. */
  lemma TxRoundTrip(t: Transaction, rest: seq<byte>)
    ensures ReadTx(PrintTx(t) + rest) == Got(t, rest)
  {
    forall i: TxIn, tail: seq<byte> ensures ReadTxIn(PrintTxIn(i) + tail) == Got(i, tail) {
      TxInRoundTrip(i, tail);
    }
    var counted := PrintCounted(PrintTxIn, t.inputs);
    forall tail: seq<byte> ensures ReadCounted(ReadTxIn, counted + tail) == Got(t.inputs, tail) {
      CountedRoundTrip(PrintTxIn, ReadTxIn, t.inputs, tail);
    }
    TxReads(t, counted, rest);
  }

  /** No printed transaction is a proper prefix of another, so a run of them splits one way only. */
  lemma TxPrefixFree(a: Transaction, b: Transaction, afterA: seq<byte>, afterB: seq<byte>)
    requires PrintTx(a) + afterA == PrintTx(b) + afterB
    ensures a == b && afterA == afterB
  {
    TxRoundTrip(a, afterA);
    TxRoundTrip(b, afterB);
  }

  /** Two transactions share an id only if they are equal or exhibit a collision of the hash. */
  lemma TxIdsDistinguish(h: Hasher, a: Transaction, b: Transaction)
    ensures TxId(h, a) == TxId(h, b) <==> a == b || (PrintTx(a) != PrintTx(b) && h(PrintTx(a)) == h(PrintTx(b)))
  {
    if PrintTx(a) == PrintTx(b) {
      TxPrefixFree(a, b, [], []);
    }
  }

  /** Parsing accepts bytes that printing never makes: every transaction of fewer than 2^32
      inputs has a second encoding, so parse-then-print is not the identity. */
  lemma TxHasAnotherEncoding(t: Transaction, rest: seq<byte>)
    requires |t.inputs| <= 0xffff_ffff
    ensures var wide := ToLE(t.version, 4)
              + (PrintWide(PrintTxIn, t.inputs) + (PrintCounted(PrintTxOut, t.outputs) + ToLE(t.lockTime, 4)));
            |wide| > |PrintTx(t)| && ReadTx(wide + rest) == Got(t, rest)
  {
    forall i: TxIn, tail: seq<byte> ensures ReadTxIn(PrintTxIn(i) + tail) == Got(i, tail) {
      TxInRoundTrip(i, tail);
    }
    forall tail: seq<byte> ensures ReadCounted(ReadTxIn, PrintWide(PrintTxIn, t.inputs) + tail) == Got(t.inputs, tail) {
      WideRoundTrip(PrintTxIn, ReadTxIn, t.inputs, tail);
    }
    TxReads(t, PrintWide(PrintTxIn, t.inputs), rest);
  }
}
