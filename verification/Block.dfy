/** src/block.rs: the 80-byte header, the nonce search over it, and the block codec. */
module Blocks {
  import opened Wrappers
  import opened Bytes
  import opened Reading
  import opened Util
  import opened Transactions
  import opened Merkle

  datatype BlockError = NoTransactions | NoMerkleRoot | NotMined | Unreadable(error: ReadError)

  datatype BlockHeader = BlockHeader(
    version: i32, previousBlockHash: Digest, merkleRoot: Digest, time: u32, nBits: u32, nonce: u32)

  // ----- the target

  const TWO_256 := 0x1_00000000_00000000_00000000_00000000_00000000_00000000_00000000_00000000

  /** Low 23 bits shifted left by eight times the top byte, in 256-bit arithmetic: bits shifted
      past the top are lost, and the shift is by the whole exponent, not by three less. */
  function Target(nBits: u32): nat {
    var exponent := nBits / 0x100_0000;
    var mantissa := nBits % 0x80_0000;
    mantissa * Pow256(exponent) % TWO_256
  }

  lemma {:induction false} Pow256Adds(a: nat, b: nat)
    ensures Pow256(a + b) == Pow256(a) * Pow256(b)
  {
    if a > 0 {
      Pow256Adds(a - 1, b);
      assert Pow256(a) * Pow256(b) == 256 * (Pow256(a - 1) * Pow256(b));
    }
  }

  lemma Remainder(x: nat, n: nat, k: nat, r: nat)
    requires r < n && x == k * n + r
    ensures x % n == r
  {
    var d := x / n - k;
    assert x == (x / n) * n + x % n;
    assert d * n == r - x % n;
    assert d >= 1 ==> d * n >= n;
    assert d <= -1 ==> d * n <= -1 * n;
  }

  /** A shift out of the top keeps the low bits. */
  lemma LowBitsStay(m: nat, p: nat, q: nat)
    requires p > 0 && q > 0
    ensures m * p % (q * p) == m % q * p
  {
    var k, r := m / q, m % q;
    calc {
      m * p;
      (k * q + r) * p;
      k * q * p + r * p;
      k * (q * p) + r * p;
    }
    assert r * p < q * p;
    Remainder(m * p, q * p, k, r * p);
  }

  /** The shift loses the bits that do not fit. It is exact for every mantissa up to exponent 29, for
      mantissas of two bytes at 30 and of one at 31; and it is zero, so that no hash can be below it
      and mining cannot succeed, when no bit of the mantissa is left. */
  lemma TargetRange(nBits: u32)
    ensures var e, m := nBits / 0x100_0000, nBits % 0x80_0000;
            && (e <= 29 ==> Target(nBits) == m * Pow256(e))
            && (e == 30 ==> Target(nBits) == m % 0x1_0000 * Pow256(30))
            && (e == 31 ==> Target(nBits) == m % 0x100 * Pow256(31))
            && (e >= 32 ==> Target(nBits) == 0)
            && (Target(nBits) == m * Pow256(e) <==>
                  m == 0 || e <= 29 || (e == 30 && m < 0x1_0000) || (e == 31 && m < 0x100))
            && (Target(nBits) == 0 <==>
                  m == 0 || e >= 32 || (e == 30 && m % 0x1_0000 == 0) || (e == 31 && m % 0x100 == 0))
  {
    hide Pow256;
    var e, m := nBits / 0x100_0000, nBits % 0x80_0000;
    Widths();
    if e < 32 {
      Shifted(m, e);
      Fits(m, e);
      Cancels(m % Pow256(32 - e), m, Pow256(e));
    } else {
      TopOfRange();
      Pow256Adds(e - 32, 32);
      MultipleVanishes(m, Pow256(e - 32));
      Cancels(0, m, Pow256(e));
    }
  }

  lemma Cancels(a: nat, b: nat, p: nat)
    requires p > 0
    ensures a * p == b * p <==> a == b
    ensures a * p == 0 <==> a == 0
  {
    if a < b {
      assert a * p < b * p;
    } else if b < a {
      assert b * p < a * p;
    }
    assert a > 0 ==> a * p >= p;
  }

  lemma Shifted(m: nat, e: nat)
    requires e <= 32
    ensures m * Pow256(e) % TWO_256 == m % Pow256(32 - e) * Pow256(e)
  {
    hide Pow256;
    TopOfRange();
    Pow256Adds(32 - e, e);
    LowBitsStay(m, Pow256(e), Pow256(32 - e));
  }

  lemma Fits(m: nat, e: nat)
    requires m < 0x80_0000
    ensures e <= 29 ==> m % Pow256(32 - e) == m
  {
    hide Pow256;
    if e <= 29 {
      ThreeBytes();
      Pow256Monotone(3, 32 - e);
    }
  }

  lemma ThreeBytes()
    ensures Pow256(3) == 0x100_0000
  {
    assert Pow256(2) == 0x1_0000;
  }

  lemma TopOfRange()
    ensures Pow256(32) == TWO_256
  {
    hide Pow256;
    Widths();
    Pow256Adds(8, 8);
    Pow256Adds(16, 16);
  }

  lemma {:induction false} Pow256Monotone(a: nat, b: nat)
    requires a <= b
    ensures Pow256(a) <= Pow256(b)
  {
    if a < b {
      Pow256Monotone(a, b - 1);
    }
  }

  lemma MultipleVanishes(m: nat, p: nat)
    ensures m * (p * TWO_256) % TWO_256 == 0
  {
    assert m * (p * TWO_256) == (m * p) * TWO_256;
  }

  // ----- the header

  function HeaderPrefix(hd: BlockHeader): (s: seq<byte>)
    ensures |s| == 76
  {
    ToLE(Unsigned(hd.version), 4)
    + (hd.previousBlockHash + (hd.merkleRoot + (ToLE(hd.time, 4) + ToLE(hd.nBits, 4))))
  }

  function PrintBlockHeader(hd: BlockHeader): (s: seq<byte>)
    ensures |s| == 80
  {
    HeaderPrefix(hd) + ToLE(hd.nonce, 4)
  }

  function ReadBlockHeader(s: seq<byte>): Parsed<BlockHeader> {
    var (version, s1) :- ReadI32(s);
    var (previousBlockHash, s2) :- ReadDigest(s1);
    var (merkleRoot, s3) :- ReadDigest(s2);
    var (time, s4) :- ReadU32(s3);
    var (nBits, s5) :- ReadU32(s4);
    var (nonce, rest) :- ReadU32(s5);
    Got(BlockHeader(version, previousBlockHash, merkleRoot, time, nBits, nonce), rest)
  }

  lemma PrefixOf(hd: BlockHeader)
    ensures PrintBlockHeader(hd)[..76] == HeaderPrefix(hd)
  {
  }

  predicate Solves(h: Hasher, hd: BlockHeader) {
    FromLE(h(PrintBlockHeader(hd))) < Target(hd.nBits)
  }

  /** The nonces the search has been through without success. */
  ghost predicate NoneBelow(h: Hasher, hd: BlockHeader, n: nat) {
    forall m: u32 :: m < n ==> !Solves(h, hd.(nonce := m))
  }

  lemma OneMoreTried(h: Hasher, hd: BlockHeader, n: u32)
    ensures NoneBelow(h, hd, 0)
    ensures n < 0xffff_ffff && NoneBelow(h, hd, n) && !Solves(h, hd.(nonce := n)) ==> NoneBelow(h, hd, n + 1)
  {
    hide Solves;
  }

  /** The search ends at its first success, and what it found out does not depend on the nonce
      field it started from. */
  lemma FirstFound(h: Hasher, hd: BlockHeader, n: u32)
    requires NoneBelow(h, hd, n) && Solves(h, hd.(nonce := n)) && n < 0xffff_ffff
    ensures var found := hd.(nonce := n); NoneBelow(h, found, n) && !NoneBelow(h, found, 0xffff_ffff)
  {
    hide Solves;
    var found := hd.(nonce := n);
    assert forall m: u32 :: found.(nonce := m) == hd.(nonce := m);
    assert Solves(h, found.(nonce := n));
  }

  lemma DigestRoundTrip(d: Digest, rest: seq<byte>)
    ensures ReadDigest(d + rest) == Got(d, rest)
  {
    assert (d + rest)[..32] == d && (d + rest)[32..] == rest;
  }

  lemma BlockHeaderRoundTrip(hd: BlockHeader, rest: seq<byte>)
    ensures ReadBlockHeader(PrintBlockHeader(hd) + rest) == Got(hd, rest)
  {
    hide ToLE, ReadU32, ReadDigest;
    var version, time := ToLE(Unsigned(hd.version), 4), ToLE(hd.time, 4);
    var nBits, nonce := ToLE(hd.nBits, 4), ToLE(hd.nonce, 4);
    var s5 := nonce + rest;
    var s4 := nBits + s5;
    var s3 := time + s4;
    var s2 := hd.merkleRoot + s3;
    var s1 := hd.previousBlockHash + s2;
    assert PrintBlockHeader(hd) + rest == version + s1;
    U32RoundTrip(Unsigned(hd.version), s1);
    DigestRoundTrip(hd.previousBlockHash, s2);
    DigestRoundTrip(hd.merkleRoot, s3);
    U32RoundTrip(hd.time, s4);
    U32RoundTrip(hd.nBits, s5);
    U32RoundTrip(hd.nonce, rest);
  }

  /** Where the fields stand in the 80 bytes. */
  lemma BlockHeaderLayout(hd: BlockHeader)
    ensures var s := PrintBlockHeader(hd);
            && FromLE(s[..4]) == hd.version % 0x1_0000_0000
            && s[4..36] == hd.previousBlockHash && s[36..68] == hd.merkleRoot
            && FromLE(s[68..72]) == hd.time && FromLE(s[72..76]) == hd.nBits && FromLE(s[76..]) == hd.nonce
  {
    hide ToLE, FromLE;
    var s := PrintBlockHeader(hd);
    Widths();
    TwosComplement(hd.version, 0);
    FromToLE(Unsigned(hd.version), 4);
    FromToLE(hd.time, 4);
    FromToLE(hd.nBits, 4);
    FromToLE(hd.nonce, 4);
    assert s[..4] == ToLE(Unsigned(hd.version), 4) && s[68..72] == ToLE(hd.time, 4);
    assert s[72..76] == ToLE(hd.nBits, 4) && s[76..] == ToLE(hd.nonce, 4);
  }

  lemma BlockHeadersThatFail(s: seq<byte>)
    ensures ReadBlockHeader(s).Fail? <==> |s| < 80
    ensures ReadBlockHeader(s).Fail? ==> ReadBlockHeader(s).error == Eof
  {
    hide FromLE;
  }

  // ----- the block

  function ReadBlock(s: seq<byte>): Parsed<(BlockHeader, Vec<Transaction>)> {
    var (hd, s1) :- ReadBlockHeader(s);
    var (txs, rest) :- ReadCounted(ReadTx, s1);
    Got((hd, txs), rest)
  }

  /** Bytes after the last transaction are never looked at. */
  lemma BlockRoundTrip(hd: BlockHeader, txs: Vec<Transaction>, rest: seq<byte>)
    ensures ReadBlock(PrintBlockHeader(hd) + PrintCounted(PrintTx, txs) + rest) == Got((hd, txs), rest)
  {
    hide ReadTx, PrintTx, PrintBlockHeader, ReadBlockHeader;
    Assoc(PrintBlockHeader(hd), PrintCounted(PrintTx, txs), rest);
    BlockHeaderRoundTrip(hd, PrintCounted(PrintTx, txs) + rest);
    forall t: Transaction, tail: seq<byte> ensures ReadTx(PrintTx(t) + tail) == Got(t, tail) {
      TxRoundTrip(t, tail);
    }
    CountedRoundTrip(PrintTx, ReadTx, txs, rest);
  }

  function TxIds(h: Hasher, txs: seq<Transaction>): (ids: seq<Digest>)
    ensures |ids| == |txs| && forall i :: 0 <= i < |txs| ==> ids[i] == TxId(h, txs[i])
  {
    seq(|txs|, i requires 0 <= i < |txs| => TxId(h, txs[i]))
  }

  /** The root is that of the hashes of the printed transactions, in their own order. */
  lemma RootInOrder(h: Hasher, txs: seq<Transaction>, leaves: seq<Digest>)
    requires |leaves| == |txs| > 0 && forall i :: 0 <= i < |txs| ==> leaves[i] == h(PrintTx(txs[i]))
    ensures TreeRoot(h, TxIds(h, txs)) == TreeRoot(h, leaves)
  {
    hide PrintTx, TreeRoot;
    assert TxIds(h, txs) == leaves;
  }

  /** A header solves when its hash, read as a little-endian number, is below its target. */
  lemma WhenSolved(h: Hasher, hd: BlockHeader)
    ensures Solves(h, hd) <==> DigitSum(h(PrintBlockHeader(hd)), 32) < Target(hd.nBits)
  {
    hide PrintBlockHeader, Target;
    var d := h(PrintBlockHeader(hd));
    FromLEIsDigitSum(d, 32);
    assert d[..32] == d;
  }

  /** What the raw form of a block lets its receiver check. */
  ghost predicate Checks(h: Hasher, hd: BlockHeader, txs: seq<Transaction>) {
    txs != [] && Solves(h, hd) && hd.merkleRoot == TreeRoot(h, TxIds(h, txs))
  }

  class Block {
    var version: i32
    var previousBlockHash: Digest
    var merkleRootHash: Option<Digest>
    var time: u32
    var nBits: u32
    var nonce: u32
    var hash: Option<Digest>
    const mineArray: array<byte>
    var transactions: Vec<Transaction>

    ghost predicate Valid()
      reads this
    {
      mineArray.Length == 80
    }

    /** The header made of the fields. */
    ghost function Header(): BlockHeader
      reads this
      requires merkleRootHash.Some?
    {
      BlockHeader(version, previousBlockHash, merkleRootHash.value, time, nBits, nonce)
    }

    constructor (version: i32, previousBlockHash: Digest, time: u32, nBits: u32, transactions: Vec<Transaction>)
      ensures Valid() && fresh(mineArray)
      ensures this.version == version && this.previousBlockHash == previousBlockHash
      ensures this.time == time && this.nBits == nBits && this.transactions == transactions
      ensures nonce == 0 && hash == None && merkleRootHash == None && mineArray[..] == Zeros(80)
    {
      this.version := version;
      this.previousBlockHash := previousBlockHash;
      merkleRootHash := None;
      this.time := time;
      this.nBits := nBits;
      nonce := 0;
      hash := None;
      mineArray := new byte[80](_ => 0);
      this.transactions := transactions;
    }

    /** A block as received: every field set but the hash, and a header array of zeros. */
    constructor Received(hd: BlockHeader, transactions: Vec<Transaction>)
      ensures Valid() && fresh(mineArray)
      ensures merkleRootHash.Some? && Header() == hd && this.transactions == transactions
      ensures hash == None && mineArray[..] == Zeros(80)
    {
      version := hd.version;
      previousBlockHash := hd.previousBlockHash;
      merkleRootHash := Some(hd.merkleRoot);
      time := hd.time;
      nBits := hd.nBits;
      nonce := hd.nonce;
      hash := None;
      mineArray := new byte[80](_ => 0);
      this.transactions := transactions;
    }

    method GetMerkleRootHash(h: Hasher) returns (r: Result<Digest, BlockError>)
      ensures r == if transactions == [] then Err(NoTransactions) else Ok(TreeRoot(h, TxIds(h, transactions)))
    {
      var root := MerkleRoot(h, TxIds(h, transactions));
      r := if root.Some? then Ok(root.value) else Err(NoTransactions);
    }

    method PrepareForMining() returns (r: Result<(), BlockError>)
      requires Valid()
      modifies mineArray
      ensures merkleRootHash.None? ==>
                && r == Err(NoMerkleRoot)
                && mineArray[..] == ToLE(Unsigned(version), 4) + previousBlockHash + old(mineArray[36..])
      ensures merkleRootHash.Some? ==>
                r == Ok(()) && mineArray[..] == PrintBlockHeader(Header())
    {
      hide ToLE, Unsigned;
      CopyInto(mineArray, 0, ToLE(Unsigned(version), 4));
      CopyInto(mineArray, 4, previousBlockHash);
      if merkleRootHash.None? {
        return Err(NoMerkleRoot);
      }
      CopyInto(mineArray, 36, merkleRootHash.value);
      CopyInto(mineArray, 68, ToLE(time, 4));
      CopyInto(mineArray, 72, ToLE(nBits, 4));
      CopyInto(mineArray, 76, ToLE(nonce, 4));
      return Ok(());
    }

    /** One turn of the search: only the last four bytes of the header array change. */
    method SetNonce(n: u32, ghost hd: BlockHeader)
      requires Valid() && mineArray[..76] == HeaderPrefix(hd)
      modifies mineArray
      ensures mineArray[..76] == HeaderPrefix(hd) && mineArray[..] == PrintBlockHeader(hd.(nonce := n))
    {
      hide ToLE;
      CopyInto(mineArray, 76, ToLE(n, 4));
      assert mineArray[76..] == ToLE(n, 4);
      assert mineArray[..] == mineArray[..76] + mineArray[76..];
    }

    /** True exactly when some nonce below 2^32 - 1 solves the assembled header; then the least
        such nonce, its hash and the header array that produced it are what is stored. */
    method Mine(h: Hasher) returns (r: Result<bool, BlockError>)
      requires Valid()
      modifies this, mineArray
      ensures Valid() && version == old(version) && previousBlockHash == old(previousBlockHash)
      ensures time == old(time) && nBits == old(nBits) && transactions == old(transactions)
      ensures transactions == [] ==> r == Err(NoTransactions) && unchanged(this) && unchanged(mineArray)
      ensures transactions != [] ==> r.Ok? && merkleRootHash == Some(TreeRoot(h, TxIds(h, transactions)))
      ensures r.Ok? ==> (r.value <==> !NoneBelow(h, Header(), 0xffff_ffff))
      ensures r == Ok(true) ==>
                && nonce < 0xffff_ffff && Solves(h, Header()) && NoneBelow(h, Header(), nonce)
                && mineArray[..] == PrintBlockHeader(Header()) && hash == Some(h(mineArray[..]))
                && DigitSum(hash.value, 32) < Target(nBits)
      ensures r == Ok(false) ==>
                && nonce == old(nonce) && hash == old(hash)
                && mineArray[..] == PrintBlockHeader(Header().(nonce := 0xffff_fffe))
    {
      hide FromLE, Target, TreeRoot, TxIds, PrintBlockHeader, HeaderPrefix, NoneBelow;
      var root :- GetMerkleRootHash(h);
      merkleRootHash := Some(root);
      var prepared := PrepareForMining();
      var target := Target(nBits);
      ghost var hd := Header();
      PrefixOf(hd);
      OneMoreTried(h, hd, 0);
      for n := 0 to 0xffff_ffff
        invariant mineArray[..76] == HeaderPrefix(hd) && NoneBelow(h, hd, n)
        invariant n > 0 ==> mineArray[..] == PrintBlockHeader(hd.(nonce := n - 1))
        invariant unchanged(`version) && unchanged(`previousBlockHash) && unchanged(`time) && unchanged(`nBits)
        invariant unchanged(`transactions) && unchanged(`nonce) && unchanged(`hash) && merkleRootHash == Some(root)
      {
        SetNonce(n, hd);
        var found := h(mineArray[..]);
        if FromLE(found) < target {
          FirstFound(h, hd, n);
          WhenSolved(h, hd.(nonce := n));
          nonce := n;
          hash := Some(found);
          assert Header() == hd.(nonce := n);
          return Ok(true);
        }
        OneMoreTried(h, hd, n);
      }
      return Ok(false);
    }

    /** Prints the header array, not the fields. */
    method GetRawFormat() returns (r: Result<seq<byte>, BlockError>)
      requires Valid()
      ensures r == if hash.None? then Err(NotMined) else Ok(mineArray[..] + PrintCounted(PrintTx, transactions))
    {
      hide PrintTx;
      if hash.None? {
        return Err(NotMined);
      }
      var start := mineArray[..] + CompactInt(|transactions|);
      var raw := start;
      for i := 0 to |transactions|
        invariant raw == start + PrintAll(PrintTx, transactions[..i])
      {
        PrintAllSnoc(PrintTx, transactions[..i], transactions[i]);
        assert transactions[..i] + [transactions[i]] == transactions[..i + 1];
        var tx := Transactions.GetRawFormat(transactions[i]);
        Assoc(start, PrintAll(PrintTx, transactions[..i]), tx);
        raw := raw + tx;
      }
      assert transactions[..|transactions|] == transactions;
      Assoc(mineArray[..], CompactInt(|transactions|), PrintAll(PrintTx, transactions));
      return Ok(raw);
    }
  }

  method ParseBlockHeader(reader: ByteReader) returns (r: Result<BlockHeader, ReadError>)
    requires reader.Valid()
    modifies reader
    ensures reader.Valid()
    ensures var p := ReadBlockHeader(old(reader.Rest())); r == p.Outcome() && reader.Rest() == p.rest
  {
    hide ReadI32, ReadDigest, ReadU32;
    var version :- reader.I32();
    var previousBlockHash :- reader.Digest32();
    var merkleRoot :- reader.Digest32();
    var time :- reader.U32();
    var nBits :- reader.U32();
    var nonce :- reader.U32();
    r := Ok(BlockHeader(version, previousBlockHash, merkleRoot, time, nBits, nonce));
  }

  method ParseTransactions(reader: ByteReader, count: u64) returns (r: Result<Vec<Transaction>, ReadError>)
    requires reader.Valid()
    modifies reader
    ensures reader.Valid()
    ensures var p := Repeat(ReadTx, count, old(reader.Rest())); r == p.Outcome() && reader.Rest() == p.rest
  {
    hide ReadTx;
    ghost var goal := Repeat(ReadTx, count, reader.Rest());
    var txs: seq<Transaction> := [];
    ContinueIsRepeat(ReadTx, [], count, reader.Rest());
    assert goal.Got? ==> [] + goal.value == goal.value;
    for i := 0 to count
      invariant reader.Valid() && |txs| == i
      invariant Continue(ReadTx, txs, count - i, reader.Rest()) == goal
    {
      var tx :- Transactions.ParseRaw(reader);
      txs := txs + [tx];
    }
    r := Ok(txs);
  }

  method ParseRaw(bytes: Vec<byte>) returns (r: Result<Block, BlockError>)
    ensures var p := ReadBlock(bytes);
            if p.Fail? then r == Err(Unreadable(p.error)) else
              r.Ok? && fresh(r.value) && fresh(r.value.mineArray) && r.value.Valid()
              && r.value.merkleRootHash.Some? && r.value.Header() == p.value.0 && r.value.transactions == p.value.1
              && r.value.hash == None && r.value.mineArray[..] == Zeros(80)
  {
    hide ReadBlockHeader, ReadTx, ReadCompact, Repeat, Zeros, Block.Header;
    var reader := new ByteReader(bytes);
    var header := ParseBlockHeader(reader);
    if header.Err? {
      return Err(Unreadable(header.error));
    }
    var count := reader.Compact();
    if count.Err? {
      return Err(Unreadable(count.error));
    }
    var txs := ParseTransactions(reader, count.value);
    if txs.Err? {
      return Err(Unreadable(txs.error));
    }
    var block := new Block.Received(header.value, txs.value);
    return Ok(block);
  }

  /** Mine, print, parse: the receiver recovers every field and transaction, and what it recovers
      re-hashes below the target and recomputes to the root it carries. */
  method MinePrintParse(h: Hasher, block: Block) returns (parsed: Option<Block>)
    requires block.Valid()
    requires |PrintCounted(PrintTx, block.transactions)| < 0x1_0000_0000_0000_0000 - 80  // the raw form fits in memory
    modifies block, block.mineArray
    ensures parsed.Some? ==>
              var b := parsed.value;
              && b.merkleRootHash.Some? && block.merkleRootHash.Some? && b.Header() == block.Header()
              && b.transactions == block.transactions == old(block.transactions)
              && Checks(h, b.Header(), b.transactions) && block.hash == Some(h(PrintBlockHeader(b.Header())))
    ensures parsed.None? <==>
              block.transactions == [] || (block.merkleRootHash.Some? && NoneBelow(h, block.Header(), 0xffff_ffff))
  {
    hide ReadBlock, PrintBlockHeader, Solves, TxIds, PrintTx;
    var mined := block.Mine(h);
    if mined.Err? || !mined.value {
      return None;
    }
    var raw := block.GetRawFormat();
    BlockRoundTrip(block.Header(), block.transactions, []);
    assert raw.value + [] == raw.value;
    var r := ParseRaw(raw.value);
    return Some(r.value);
  }

  /** Whatever has become of the fields, the print of a block parses to the header in its array and
      to its present transactions. */
  method PrintThenParse(block: Block, ghost inArray: BlockHeader) returns (parsed: Block)
    requires block.Valid() && block.hash.Some? && block.mineArray[..] == PrintBlockHeader(inArray)
    requires |PrintCounted(PrintTx, block.transactions)| < 0x1_0000_0000_0000_0000 - 80
    ensures parsed.merkleRootHash.Some? && parsed.Header() == inArray && parsed.transactions == block.transactions
    ensures fresh(parsed)
  {
    hide ReadBlock, PrintBlockHeader, PrintTx;
    var raw := block.GetRawFormat();
    BlockRoundTrip(inArray, block.transactions, []);
    assert raw.value + [] == raw.value;
    var r := ParseRaw(raw.value);
    parsed := r.value;
  }

  /** A block mined before and mined again in vain still prints, with the last nonce tried: a header
      that solves nothing. The fields come back exactly when their old nonce was that one. */
  method MineAgainThenParse(h: Hasher, block: Block) returns (mined: Result<bool, BlockError>, parsed: Option<Block>)
    requires block.Valid() && block.hash.Some?
    requires |PrintCounted(PrintTx, block.transactions)| < 0x1_0000_0000_0000_0000 - 80
    modifies block, block.mineArray
    ensures mined == Ok(false) <==> parsed.Some?
    ensures mined == Ok(false) <==> block.transactions != [] && block.merkleRootHash.Some?
                                    && NoneBelow(h, block.Header(), 0xffff_ffff)
    ensures parsed.Some? ==>
              var b := parsed.value;
              && b.merkleRootHash.Some? && block.merkleRootHash.Some? && b.transactions == block.transactions
              && b.Header() == block.Header().(nonce := 0xffff_fffe) && !Solves(h, b.Header())
              && (b.Header() == block.Header() <==> old(block.nonce) == 0xffff_fffe)
              && block.hash == old(block.hash)
  {
    hide PrintBlockHeader, Solves, TxIds, PrintTx, TreeRoot;
    mined := block.Mine(h);
    parsed := None;
    if mined == Ok(false) {
      ghost var last := block.Header().(nonce := 0xffff_fffe);
      var b := PrintThenParse(block, last);
      parsed := Some(b);
    }
  }

  /** Fields changed after a successful search do not reach the print, transactions do: what is
      parsed carries the header that was mined, and checks out exactly when the transactions
      printed have the root that was mined. */
  method MineEditThenParse(h: Hasher, block: Block, edited: BlockHeader, transactions: Vec<Transaction>)
      returns (parsed: Option<Block>, ghost mined: BlockHeader)
    requires block.Valid()
    requires |PrintCounted(PrintTx, transactions)| < 0x1_0000_0000_0000_0000 - 80
    modifies block, block.mineArray
    ensures old(block.transactions) != [] ==>
              && mined.version == old(block.version) && mined.previousBlockHash == old(block.previousBlockHash)
              && mined.time == old(block.time) && mined.nBits == old(block.nBits)
              && mined.merkleRoot == TreeRoot(h, TxIds(h, old(block.transactions)))
    ensures parsed.Some? ==>
              var b := parsed.value;
              && b.merkleRootHash.Some? && b.Header() == mined && b.transactions == transactions && Solves(h, mined)
              && block.merkleRootHash.Some? && block.Header() == edited && block.transactions == transactions
              && (b.Header() == block.Header() <==> edited == mined)
              && (Checks(h, b.Header(), b.transactions) <==>
                    transactions != [] && TreeRoot(h, TxIds(h, transactions)) == mined.merkleRoot)
    ensures parsed.None? <==> old(block.transactions) == [] || NoneBelow(h, mined, 0xffff_ffff)
  {
    hide PrintBlockHeader, Solves, TxIds, PrintTx, TreeRoot, NoneBelow;
    mined := edited;
    var outcome := block.Mine(h);
    if outcome.Err? {
      return None, mined;
    }
    mined := block.Header();
    if !outcome.value {
      return None, mined;
    }
    block.version, block.previousBlockHash := edited.version, edited.previousBlockHash;
    block.merkleRootHash, block.time := Some(edited.merkleRoot), edited.time;
    block.nBits, block.nonce, block.transactions := edited.nBits, edited.nonce, transactions;
    var b := PrintThenParse(block, mined);
    return Some(b), mined;
  }
}
