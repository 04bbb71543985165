/** src/byte_reader.rs, src/transaction.rs and src/block.rs: which bytes survive being parsed and
    printed again. The reader takes any width of compact-size integer, the printer writes only the
    shortest; nothing else about these formats has two spellings. */
module Shortest {
  import opened Wrappers
  import opened Bytes
  import opened Reading
  import opened Util
  import opened Transactions
  import opened Merkle
  import opened Blocks

  /** `s` was read down to `rest`, and what was read prints as `printed`: never more bytes than were
      read, and the same bytes exactly when `shortest`; otherwise fewer. */
  predicate Reprinted(printed: seq<byte>, rest: seq<byte>, s: seq<byte>, shortest: bool) {
    if shortest then printed + rest == s else |printed| + |rest| < |s|
  }

  lemma InTurn(p: seq<byte>, q: seq<byte>, s: seq<byte>, middle: seq<byte>, rest: seq<byte>, first: bool, second: bool)
    requires Reprinted(p, middle, s, first) && Reprinted(q, rest, middle, second)
    ensures Reprinted(p + q, rest, s, first && second)
  {
    Assoc(p, q, rest);
  }

  // ----- which counts are written short, following the grammar

  predicate ShortestCompact(s: seq<byte>)
    requires ReadCompact(s).Got?
  {
    var n := ReadCompact(s).value;
    (s[0] == 0xfd ==> n > 252) && (s[0] == 0xfe ==> n > 0xffff) && (s[0] == 0xff ==> n > 0xffff_ffff)
  }

  predicate ShortestTxIn(s: seq<byte>)
    requires ReadTxIn(s).Got?
  {
    ShortestCompact(s[36..])
  }

  predicate ShortestTxOut(s: seq<byte>)
    requires ReadTxOut(s).Got?
  {
    ShortestCompact(s[8..])
  }

  /** Every one of `count` items in a row. */
  ghost predicate EachShortest<T(!new)>(
      item: seq<byte> -> Parsed<T>, short: seq<byte> -> bool, count: nat, s: seq<byte>)
    requires Repeat(item, count, s).Got?
  {
    count == 0 || (short(s) && EachShortest(item, short, count - 1, item(s).rest))
  }

  ghost predicate ShortestCounted<T(!new)>(item: seq<byte> -> Parsed<T>, short: seq<byte> -> bool, s: seq<byte>)
    requires ReadCounted(item, s).Got?
  {
    ShortestCompact(s) && EachShortest(item, short, ReadCompact(s).value, ReadCompact(s).rest)
  }

  /** Every count and every string length in the transaction at the front of `s`. */
  ghost predicate ShortestTx(s: seq<byte>)
    requires ReadTx(s).Got?
  {
    && ShortestCounted(ReadTxIn, InputIsShort, s[4..])
    && ShortestCounted(ReadTxOut, OutputIsShort, ReadCounted(ReadTxIn, s[4..]).rest)
  }

  predicate InputIsShort(s: seq<byte>) {
    ReadTxIn(s).Got? ==> ShortestTxIn(s)
  }

  predicate OutputIsShort(s: seq<byte>) {
    ReadTxOut(s).Got? ==> ShortestTxOut(s)
  }

  ghost predicate TxIsShort(s: seq<byte>) {
    ReadTx(s).Got? ==> ShortestTx(s)
  }

  // ----- and those are the encodings that print back

  lemma CompactReprinted(s: seq<byte>)
    requires ReadCompact(s).Got?
    ensures Reprinted(CompactInt(ReadCompact(s).value), ReadCompact(s).rest, s, ShortestCompact(s))
  {
    hide ToLE, FromLE;
    CompactReprints(s);
  }

  lemma U32Reprinted(s: seq<byte>)
    requires ReadU32(s).Got?
    ensures Reprinted(ToLE(ReadU32(s).value, 4), ReadU32(s).rest, s, true)
  {
    ToFromLE(s[..4]);
  }

  lemma U64Reprinted(s: seq<byte>)
    requires ReadU64(s).Got?
    ensures Reprinted(ToLE(ReadU64(s).value, 8), ReadU64(s).rest, s, true)
  {
    ToFromLE(s[..8]);
  }

  lemma TextReprinted(s: seq<byte>)
    requires ReadText(s).Got?
    ensures ReadCompact(s).Got?
    ensures Reprinted(PrintText(ReadText(s).value), ReadText(s).rest, s, ShortestCompact(s))
  {
    hide ReadCompact, CompactInt, ShortestCompact, Reprinted;
    var count := ReadCompact(s);
    var text := ReadText(s);
    CompactReprinted(s);
    assert Reprinted(text.value, text.rest, count.rest, true) by {
      Halves(count.rest, count.value);
    }
    InTurn(CompactInt(count.value), text.value, s, count.rest, text.rest, ShortestCompact(s), true);
  }

  lemma Halves(s: seq<byte>, n: nat)
    requires n <= |s|
    ensures Reprinted(s[..n], s[n..], s, true)
  {
  }

  lemma TxInReprinted(s: seq<byte>)
    requires ReadTxIn(s).Got?
    ensures Reprinted(PrintTxIn(ReadTxIn(s).value), ReadTxIn(s).rest, s, ShortestTxIn(s))
  {
    hide ReadU32, ReadText, PrintText, Reprinted, ShortestCompact;
    TxInPlaces(s);
    var i, s2 := ReadTxIn(s).value, s[36..];
    var s3, rest := ReadText(s2).rest, ReadTxIn(s).rest;
    Halves(s, 32);
    U32Reprinted(s[32..]);
    TextReprinted(s2);
    U32Reprinted(s3);
    InTurn(PrintText(i.signature), ToLE(i.sequence, 4), s2, s3, rest, ShortestCompact(s2), true);
    InTurn(ToLE(i.previousOutput.vOut, 4), PrintText(i.signature) + ToLE(i.sequence, 4), s[32..], s2, rest, true,
           ShortestCompact(s2));
    InTurn(i.previousOutput.txId, ToLE(i.previousOutput.vOut, 4) + (PrintText(i.signature) + ToLE(i.sequence, 4)),
           s, s[32..], rest, true, ShortestCompact(s2));
  }

  lemma TxInPlaces(s: seq<byte>)
    requires ReadTxIn(s).Got?
    ensures |s| >= 36 && ReadU32(s[32..]).Got? && ReadU32(s[32..]).rest == s[36..]
    ensures ReadText(s[36..]).Got? && ReadU32(ReadText(s[36..]).rest).Got?
  {
    assert s[32..][4..] == s[36..];
  }

  lemma TxOutReprinted(s: seq<byte>)
    requires ReadTxOut(s).Got?
    ensures Reprinted(PrintTxOut(ReadTxOut(s).value), ReadTxOut(s).rest, s, ShortestTxOut(s))
  {
    hide ReadText, PrintText, Reprinted, ShortestCompact;
    U64Reprinted(s);
    TextReprinted(s[8..]);
    var o := ReadTxOut(s).value;
    InTurn(ToLE(o.value, 8), PrintText(o.destinyPubKey), s, s[8..], ReadTxOut(s).rest, true, ShortestCompact(s[8..]));
  }

  lemma {:induction false} RepeatReprinted<T(!new)>(
      printer: T -> seq<byte>, item: seq<byte> -> Parsed<T>, short: seq<byte> -> bool, count: nat, s: seq<byte>)
    requires forall t :: item(t).Got? ==> Reprinted(printer(item(t).value), item(t).rest, t, short(t))
    requires Repeat(item, count, s).Got?
    ensures var p := Repeat(item, count, s);
            Reprinted(PrintAll(printer, p.value), p.rest, s, EachShortest(item, short, count, s))
    decreases count
  {
    var p := Repeat(item, count, s);
    if count > 0 {
      var x, s1 := item(s).value, item(s).rest;
      RepeatReprinted(printer, item, short, count - 1, s1);
      var q := Repeat(item, count - 1, s1);
      assert p.value[0] == x && p.value[1..] == q.value;
      hide Reprinted;
      InTurn(printer(x), PrintAll(printer, q.value), s, s1, p.rest, short(s), EachShortest(item, short, count - 1, s1));
    }
  }

  lemma CountedReprinted<T(!new)>(
      printer: T -> seq<byte>, item: seq<byte> -> Parsed<T>, short: seq<byte> -> bool, s: seq<byte>)
    requires forall t :: item(t).Got? ==> Reprinted(printer(item(t).value), item(t).rest, t, short(t))
    requires ReadCounted(item, s).Got?
    ensures var p := ReadCounted(item, s);
            Reprinted(PrintCounted(printer, p.value), p.rest, s, ShortestCounted(item, short, s))
  {
    hide ReadCompact, CompactInt, Reprinted, ShortestCompact;
    var count, p := ReadCompact(s), ReadCounted(item, s);
    CompactReprinted(s);
    RepeatReprinted(printer, item, short, count.value, count.rest);
    InTurn(CompactInt(count.value), PrintAll(printer, p.value), s, count.rest, p.rest,
           ShortestCompact(s), EachShortest(item, short, count.value, count.rest));
  }

  /** Printing gives the shortest encoding the parser takes, and a parsed transaction prints back
      as the bytes it came from exactly when every count in them is as short as it can be. */
  lemma TxReprints(s: seq<byte>)
    requires ReadTx(s).Got?
    ensures var Got(t, rest) := ReadTx(s);
            && |PrintTx(t)| + |rest| <= |s|
            && (PrintTx(t) + rest == s <==> ShortestTx(s))
            && (|PrintTx(t)| + |rest| == |s| <==> ShortestTx(s))
  {
    hide ShortestTx, ReadTx, PrintTx;
    TxReprinted(s);
  }

  lemma TxReprinted(s: seq<byte>)
    requires ReadTx(s).Got?
    ensures Reprinted(PrintTx(ReadTx(s).value), ReadTx(s).rest, s, ShortestTx(s))
  {
    hide ReadU32, PrintTxIn, PrintTxOut, ReadTxIn, ReadTxOut, Reprinted, PrintCounted, ReadCounted, ShortestCounted;
    hide ShortestTxIn, ShortestTxOut;
    forall u: seq<byte> | ReadTxIn(u).Got?
      ensures Reprinted(PrintTxIn(ReadTxIn(u).value), ReadTxIn(u).rest, u, InputIsShort(u))
    {
      TxInReprinted(u);
    }
    forall u: seq<byte> | ReadTxOut(u).Got?
      ensures Reprinted(PrintTxOut(ReadTxOut(u).value), ReadTxOut(u).rest, u, OutputIsShort(u))
    {
      TxOutReprinted(u);
    }
    U32Reprinted(s);
    var t, rest, s1 := ReadTx(s).value, ReadTx(s).rest, s[4..];
    assert ReadU32(s).rest == s1 by { U32Rest(s); }
    var ins := ReadCounted(ReadTxIn, s1);
    var outs := ReadCounted(ReadTxOut, ins.rest);
    CountedReprinted(PrintTxIn, ReadTxIn, InputIsShort, s1);
    CountedReprinted(PrintTxOut, ReadTxOut, OutputIsShort, ins.rest);
    U32Reprinted(outs.rest);
    var a, b := PrintCounted(PrintTxIn, t.inputs), PrintCounted(PrintTxOut, t.outputs);
    var shortIns := ShortestCounted(ReadTxIn, InputIsShort, s1);
    var shortOuts := ShortestCounted(ReadTxOut, OutputIsShort, ins.rest);
    InTurn(b, ToLE(t.lockTime, 4), ins.rest, outs.rest, rest, shortOuts, true);
    InTurn(a, b + ToLE(t.lockTime, 4), s1, ins.rest, rest, shortIns, shortOuts);
    InTurn(ToLE(t.version, 4), a + (b + ToLE(t.lockTime, 4)), s, s1, rest, true, shortIns && shortOuts);
  }

  lemma U32Rest(s: seq<byte>)
    requires ReadU32(s).Got?
    ensures |s| >= 4 && ReadU32(s).rest == s[4..]
  {
  }

  // ----- blocks

  lemma BlockHeaderReprints(s: seq<byte>)
    requires ReadBlockHeader(s).Got?
    ensures |s| >= 80 && PrintBlockHeader(ReadBlockHeader(s).value) == s[..80] && ReadBlockHeader(s).rest == s[80..]
  {
    hide FromLE, ToLE;
    Widths();
    HeaderPlaces(s);
    ToFromLE(s[..4]);
    ToFromLE(s[68..72]);
    ToFromLE(s[72..76]);
    ToFromLE(s[76..80]);
    var n := FromLE(s[..4]);
    assert Unsigned(Signed(n)) == n;
    assert s[..80] == s[..4] + (s[4..36] + (s[36..68] + (s[68..72] + s[72..76]))) + s[76..80];
  }

  lemma HeaderPlaces(s: seq<byte>)
    requires ReadBlockHeader(s).Got?
    ensures |s| >= 80 && Pow256(4) == 0x1_0000_0000
    ensures ReadBlockHeader(s) == Got(
              BlockHeader(Signed(FromLE(s[..4])), s[4..36], s[36..68],
                          FromLE(s[68..72]), FromLE(s[72..76]), FromLE(s[76..80])),
              s[80..])
  {
    hide FromLE, Signed;
    Widths();
    assert s[4..][..32] == s[4..36] && s[4..][32..] == s[36..];
    assert s[36..][..32] == s[36..68] && s[36..][32..] == s[68..];
    assert s[68..][..4] == s[68..72] && s[68..][4..] == s[72..];
    assert s[72..][..4] == s[72..76] && s[72..][4..] == s[76..];
    assert s[76..][..4] == s[76..80] && s[76..][4..] == s[80..];
  }

  /** The fields of a parsed block, were they printed, would print as the bytes they came from, less
      whatever followed them, exactly when the transaction count and every count inside the
      transactions are as short as can be. What a block object prints is below. */
  lemma BlockReprints(s: seq<byte>)
    requires ReadBlock(s).Got?
    ensures |s| >= 80 && ReadCounted(ReadTx, s[80..]).Got?
    ensures var Got((hd, txs), rest) := ReadBlock(s);
            var printed := PrintBlockHeader(hd) + PrintCounted(PrintTx, txs);
            && |printed| + |rest| <= |s|
            && (printed + rest == s <==> ShortestCounted(ReadTx, TxIsShort, s[80..]))
  {
    hide ReadBlockHeader, PrintBlockHeader, ReadTx, PrintTx, PrintCounted, ReadCounted, ShortestCounted;
    hide Reprinted, ShortestTx;
    BlockHeaderReprints(s);
    forall u: seq<byte> | ReadTx(u).Got? ensures Reprinted(PrintTx(ReadTx(u).value), ReadTx(u).rest, u, TxIsShort(u)) {
      TxReprinted(u);
    }
    var body := ReadCounted(ReadTx, s[80..]);
    CountedReprinted(PrintTx, ReadTx, TxIsShort, s[80..]);
    Halves(s, 80);
    var short := ShortestCounted(ReadTx, TxIsShort, s[80..]);
    InTurn(s[..80], PrintCounted(PrintTx, body.value), s, s[80..], body.rest, true, short);
    ReprintedMeans(s[..80] + PrintCounted(PrintTx, body.value), body.rest, s, short);
  }

  lemma ReprintedMeans(printed: seq<byte>, rest: seq<byte>, s: seq<byte>, shortest: bool)
    requires Reprinted(printed, rest, s, shortest)
    ensures |printed| + |rest| <= |s| && (printed + rest == s <==> shortest)
  {
  }

  // ----- what a block object prints after it has been parsed

  /** Eighty bytes in front of a block's transactions print back exactly when they are the eighty
      that were parsed and every count is as short as can be. */
  lemma ArrayReprints(s: seq<byte>, front: seq<byte>)
    requires ReadBlock(s).Got? && |front| == 80
    ensures |s| >= 80 && ReadCounted(ReadTx, s[80..]).Got?
    ensures var Got((_, txs), rest) := ReadBlock(s);
            front + PrintCounted(PrintTx, txs) + rest == s <==>
            front == s[..80] && ShortestCounted(ReadTx, TxIsShort, s[80..])
  {
    hide ReadBlockHeader, PrintBlockHeader, ReadTx, PrintTx, PrintCounted, ReadCounted, ShortestCounted;
    BlockReprints(s);
    BlockHeaderReprints(s);
    var Got((_, txs), rest) := ReadBlock(s);
    var body := PrintCounted(PrintTx, txs);
    Assoc(front, body, rest);
    Assoc(s[..80], body, rest);
    if front + body + rest == s {
      assert front == (front + (body + rest))[..80];
    }
  }

  /** A parsed block has no hash, so it does not print. */
  method ParseThenPrint(bytes: Vec<byte>) returns (r: Result<seq<byte>, BlockError>)
    ensures var p := ReadBlock(bytes); r == Err(if p.Got? then NotMined else Unreadable(p.error))
  {
    hide ReadBlock, PrintTx;
    var block :- Blocks.ParseRaw(bytes);
    r := block.GetRawFormat();
  }

  /** Given a hash, it prints its transactions after a header of zeros, and so prints back only when
      zeros are what was parsed. */
  method ParseThenAssign(bytes: Vec<byte>, hash: Digest) returns (r: Result<seq<byte>, BlockError>)
    ensures var p := ReadBlock(bytes);
            if p.Fail? then r == Err(Unreadable(p.error)) else
              && r == Ok(Zeros(80) + PrintCounted(PrintTx, p.value.1))
              && |bytes| >= 80 && ReadCounted(ReadTx, bytes[80..]).Got?
              && (r.value + p.rest == bytes <==>
                    bytes[..80] == Zeros(80) && ShortestCounted(ReadTx, TxIsShort, bytes[80..]))
  {
    hide ReadBlock, ReadCounted, ShortestCounted, PrintCounted, ReadTx, PrintTx, Zeros;
    var block :- Blocks.ParseRaw(bytes);
    block.hash := Some(hash);
    r := block.GetRawFormat();
    ArrayReprints(bytes, Zeros(80));
  }

  /** The header a search leaves is the one it started from exactly when that one already carries
      the right root and the least nonce that solves it. */
  lemma MinedIsParsed(h: Hasher, parsed: BlockHeader, mined: BlockHeader, txs: seq<Transaction>)
    requires txs != [] && mined == parsed.(merkleRoot := TreeRoot(h, TxIds(h, txs)), nonce := mined.nonce)
    requires mined.nonce < 0xffff_ffff && Solves(h, mined) && NoneBelow(h, mined, mined.nonce)
    ensures mined == parsed <==>
            Checks(h, parsed, txs) && parsed.nonce < 0xffff_ffff && NoneBelow(h, parsed, parsed.nonce)
  {
    hide Solves, TreeRoot, TxIds;
    if Checks(h, parsed, txs) && parsed.nonce < 0xffff_ffff && NoneBelow(h, parsed, parsed.nonce) {
      assert mined == parsed.(nonce := mined.nonce);
      assert parsed == mined.(nonce := parsed.nonce);
    }
  }

  /** Mined again, it prints back exactly when it was a block that checks out, carrying the least
      nonce that solves its header, with every count as short as can be. */
  method ParseThenMine(h: Hasher, bytes: Vec<byte>) returns (r: Result<Option<seq<byte>>, BlockError>)
    ensures var p := ReadBlock(bytes);
            if p.Fail? then r == Err(Unreadable(p.error)) else
              var (hd, txs) := p.value;
              if txs == [] then r == Err(NoTransactions) else
                && r.Ok? && |bytes| >= 80 && ReadCounted(ReadTx, bytes[80..]).Got?
                && (r.value.None? <==> NoneBelow(h, hd.(merkleRoot := TreeRoot(h, TxIds(h, txs))), 0xffff_ffff))
                && (r.value.Some? ==>
                      (r.value.value + p.rest == bytes <==>
                         && Checks(h, hd, txs) && hd.nonce < 0xffff_ffff && NoneBelow(h, hd, hd.nonce)
                         && ShortestCounted(ReadTx, TxIsShort, bytes[80..])))
  {
    hide ReadBlock, ReadCounted, ShortestCounted, PrintCounted, ReadTx, PrintTx, PrintBlockHeader, Zeros;
    hide TreeRoot, TxIds, Solves, NoneBelow, Checks;
    var block :- Blocks.ParseRaw(bytes);
    ghost var parsed := block.Header();
    var found :- block.Mine(h);
    ghost var mined := block.Header();
    SameSearch(h, parsed.(merkleRoot := mined.merkleRoot), mined);
    if !found {
      ArrayReprints(bytes, Zeros(80));
      return Ok(None);
    }
    var raw := block.GetRawFormat();
    ArrayReprints(bytes, PrintBlockHeader(mined));
    HeadersPrintApart(bytes, mined);
    MinedIsParsed(h, parsed, mined, block.transactions);
    return Ok(Some(raw.value));
  }

  lemma SameSearch(h: Hasher, hd: BlockHeader, mined: BlockHeader)
    requires mined == hd.(nonce := mined.nonce)
    ensures NoneBelow(h, hd, 0xffff_ffff) <==> NoneBelow(h, mined, 0xffff_ffff)
  {
    hide Solves;
    assert forall m: u32 :: mined.(nonce := m) == hd.(nonce := m);
  }

  lemma HeadersPrintApart(s: seq<byte>, hd: BlockHeader)
    requires ReadBlock(s).Got?
    ensures |s| >= 80 && (PrintBlockHeader(hd) == s[..80] <==> hd == ReadBlock(s).value.0)
  {
    hide ReadBlockHeader, PrintBlockHeader, ReadTx, ReadCounted;
    BlockHeaderReprints(s);
    BlockHeaderRoundTrip(hd, []);
    BlockHeaderRoundTrip(ReadBlock(s).value.0, []);
  }
}
