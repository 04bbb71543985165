# Avi Coin, verified

A Dafny model of the parts of Avi Coin where the reasoning is hardest, with proofs. Avi Coin is a
small peer-to-peer coin: nodes keep TCP connections to each other, introduce themselves with a
version/verack handshake, keep the connection alive with pings, and exchange blocks of transactions
committed to by a merkle root and a proof of work.

Three linked components are modelled.

**The connection and the node** (`Node`, `PeerTables`, `Protocol`, `Connection`, `Invariants`,
`Runs`, `Shared`, `Teardown`, `Deadline`, `TwoNodes`, `Breeding`, `Echoes`,
`Rest`, `Handshakes`, `FairRuns`, `Outcomes`). `PeerTables` and `Protocol` hold the peer
table and the message handlers as objects that change in place, each method proved against a table
value of `Node`. `Connection` is one connection as a state machine with one action for each lock
hold, queue operation, read, write, drop and join of its reader and writer threads; the rest of the
node and the network interfere between any two actions. The invariants are proved step by step and
then over every run, and `Shared` shows that a connection inside a table shared with any others is
such a run. `TwoNodes` joins two such machines by ordered byte streams.

**Framing and codecs** (`Bytes`, `Reading`, `Util`, `Versions`, `Messages`, `Transactions`,
`Utf8`,
`Framing`, `Shortest`). The cursor is a class; every parsing method is proved to return what a pure
grammar says and to leave the cursor where the grammar says, on failure too. Round trips, prefix
freedom, exact conditions for re-printing, and the independence of parsing from how a stream is cut
into reads are theorems about the grammar.

**Blocks** (`Merkle`, `Unfolding`, `Blocks`, and the block half of `Shortest`). The level-by-level root, an indexed tree and a top-down split are
three independent definitions proved equal; what the root commits to and where it does not; the
nonce search over the header array in place; and mining, printing and parsing end to end.

Conventions. Machine integers are bounded integers and every width, wrap and truncation is written
out. A string is its bytes, valid UTF-8 by section 4 of RFC 3629. Double SHA-256 is a parameter of
every definition that hashes, so each theorem holds for every total function from bytes to 32 bytes.
No function into 32 bytes is injective on all strings, so where injectivity is needed the premise is
that the hash does not collide on the strings actually hashed (`Merkle.InjectiveOn`), or the theorem
says that equal hashes mean equal values or a collision in hand (`Transactions.TxIdsDistinguish`).

What the proofs assume of the system is stated where it is used: a read returns once the socket is
shut, a write returns (the write timeout), no thread stays for ever able to run without running,
a read does not time out over waiting bytes (for `Handshakes` alone), the clock does not go back, and,
for the handshake deadline alone, a read returns within its timeout and processing between reads
takes no time.

Where the code falls short of what one might expect of it, the theorem says exactly when:

- Parsing accepts compact-size integers that printing never makes, so a parsed transaction prints
  back as its bytes exactly when every count in it is as short as it can be (`Shortest.TxReprints`;
  `Transactions.TxHasAnotherEncoding` gives a second encoding of every transaction of fewer than 2^32
  inputs).
- A parsed block does not print: it has no hash (`Shortest.ParseThenPrint`). Given one, it prints
  zeros for its header, and so prints back only when its header was zeros and its counts short
  (`Shortest.ParseThenAssign`). Mined again with success, it prints back exactly when it already
  checked out, under the least nonce that solves its header, with short counts
  (`Shortest.ParseThenMine`).
- A version survives the wire exactly when its address is not an IPv4-mapped IPv6 address and has no
  flow label or scope (`Versions.VersionSurvivesIff`).
- A ping or pong may carry bytes after its nonce; it then does not print back as it came
  (`Messages.FrameReprints`, `Messages.LongNonceIsAccepted`).
- Repeating the last leaves of a merkle tree can go unnoticed by the root: for the full power of two
  in the length, exactly when there are at least three such groups, or the root hashes with itself to itself
  (`Merkle.DuplicatedTail`); in general, two lists of one height share a root exactly when they unfold to the same row of leaves,
  and never when neither repeats a leaf (`Unfolding.EqualRootsIff`,
  `Unfolding.DistinctLeavesDistinctRoots`).
- The target is the mantissa shifted by eight times the whole exponent. Bits are lost from mantissas
  of 2^16 and more at exponent 30, of 2^8 and more at 31, and of every size from 32 on; where none are
  left, nothing can be mined (`Blocks.TargetRange`).
- Printing a block follows its private header array, not its fields. After a failed search on a block
  mined before, what is printed carries the last nonce tried and solves nothing, and the fields come
  back exactly when their nonce was that one (`Blocks.MineAgainThenParse`). After a successful
  search, changed fields do not reach the print and changed transactions do; the receiver's checks
  then pass exactly when the root is still the one mined (`Blocks.MineEditThenParse`).

Two statements of `docs/ARCHITECTURE.md` do not match the code, and the model follows the code.
Lines 106-107 say that neither thread can outlive its entry in the table. The writer does in every
ordinary teardown: it cannot return without an error until the entry is gone
(`Teardown.WriterOutlives`); and the reader then waits in its join without one
(`Teardown.JoinFollowsRelease`). A reader is still in its loop without an entry exactly when somebody
else has removed it, by an eviction or a broadcast that cannot be queued
(`Teardown.ReaderOutlivesIff`); nothing in the present code does, as `broadcast` has no caller outside
tests. Lines 83-86 of the same document are the
accurate account. Line 88 says every queued message is a 32-byte pong, but the reply to a version is
queued too, and it is a 24-byte verack.

## Model

| member | source | states |
|---|---|---|
| Bytes.FromToLE | src/byte_reader.rs:33-55 | a number that fits a width comes back from its little-endian bytes |
| Bytes.ToFromLE | src/byte_reader.rs:33-55 | every byte string is the little-endian form of the number it reads as |
| Bytes.FromLEIsDigitSum | src/byte_reader.rs:33-55 | byte i counts for 256 to the power i |
| Bytes.TwosComplement | src/byte_reader.rs:45-49 | a signed number and its bytes agree modulo 2^32 |
| Reading.ByteReader.Take | src/byte_reader.rs:16-25 | taking returns the next bytes and moves past them, or returns nothing and does not move, even when the count would wrap the position |
| Reading.ByteReader.Bytes | src/byte_reader.rs:62-66 | a short run of bytes is an error that leaves the cursor where it was |
| Reading.ByteReader.U32 | src/byte_reader.rs:39-43 | a fixed-width read is all or nothing |
| Reading.ByteReader.I32 | src/byte_reader.rs:45-49 | the same bytes as an unsigned read, in two's complement |
| Reading.ByteReader.Compact | src/byte_reader.rs:68-75 | accepts every width of compact integer, and spends the prefix byte even when it then fails |
| Reading.ByteReader.Bytewise | src/transaction.rs:70-73 | a string shorter than announced is consumed to its end before the error |
| Reading.ReadsThatFail | src/byte_reader.rs:16-75 | for every read, exactly which inputs it fails on and where that leaves the cursor |
| Reading.ContinueIsRepeat | src/transaction.rs:64-84 | reading items in a loop, pushing each, is reading them in sequence |
| Reading.RepeatRoundTrip | src/transaction.rs:41-47 | if one printed item reads back in front of any bytes, so does any number of them |
| Util.CompactRoundTrip | src/util.rs:8-27 | a printed compact integer reads back in front of any bytes |
| Util.CompactReprints | src/byte_reader.rs:68-75 | a read compact integer prints back exactly when it was written in its shortest width |
| Util.CountedRoundTrip | src/transaction.rs:40-54 | a counted list of items reads back, given that one item does |
| Util.WideRoundTrip | src/byte_reader.rs:68-75 | so does the same list under a nine-byte count |
| Util.CommandCodec | src/util.rs:29-60 | a command field parses to a name exactly when it is that name padded with nulls, the name being ASCII without nulls |
| Util.ParseCommand12 | src/util.rs:40-60 | the two-pass scan over one iterator refuses exactly non-null padding and non-ASCII names |
| Transactions.GetRawFormat | src/transaction.rs:37-59 | the appending loops produce the printed form that the theorems below are about |
| Transactions.ParseRaw | src/transaction.rs:61-114 | the pushing loops return what the grammar says and stop where it says, on every error too |
| Transactions.ParseTxIn | src/transaction.rs:65-83 | one input through the cursor agrees with the grammar, invalid UTF-8 included |
| Transactions.ParseTxOut | src/transaction.rs:88-103 | one output through the cursor agrees with the grammar, invalid UTF-8 included |
| Transactions.TextsThatFail | src/transaction.rs:68-76 | a string is refused exactly when it is cut short or, all read, is not UTF-8 |
| Utf8.ValidIffEncoded | src/transaction.rs:75-76 | the bytes accepted as a string are exactly the encodings of sequences of Unicode scalar values |
| Transactions.TxInLayout | src/transaction.rs:41-47 | where the fields of an input stand |
| Transactions.TxOutLayout | src/transaction.rs:50-54 | where the fields of an output stand |
| Transactions.TxLayout | src/transaction.rs:37-59 | version first, then the counted inputs in order, then the counted outputs, lock time last |
| Transactions.TxInRoundTrip | src/transaction.rs:41-47 | a printed input reads back in front of any bytes |
| Transactions.TxOutRoundTrip | src/transaction.rs:50-54 | a printed output reads back in front of any bytes |
| Transactions.TxRoundTrip | src/transaction.rs:37-114 | every transaction, followed by anything, parses back to itself and stops exactly where the rest begins |
| Transactions.TxPrefixFree | src/transaction.rs:37-59 | no printed transaction is a prefix of another, so a run of them splits one way only |
| Transactions.TxIdsDistinguish | src/transaction.rs:33-35 | two ids are equal exactly when the transactions are, or their printed forms are a collision of the hash |
| Transactions.TxHasAnotherEncoding | src/transaction.rs:61-64 | parse-then-print is not the identity: a transaction has a longer encoding that parses to it |
| Shortest.TxReprints | src/transaction.rs:61-114 | printing gives the shortest accepted encoding, and a parsed transaction prints back as its bytes exactly when every count and length in them is in its shortest width |
| Shortest.BlockReprints | src/block.rs:140-168 | the fields of a parsed block, printed in order, give back the bytes up to the end of the last transaction exactly when every count is in its shortest width |
| Shortest.ParseThenPrint | src/block.rs:121-168 | a parsed block does not print: it has no hash |
| Shortest.ParseThenAssign | src/block.rs:121-168 | given a hash it prints zeros and then its transactions, which are the bytes parsed exactly when their header was zeros and every count short |
| Shortest.ParseThenMine | src/block.rs:65-168 | mined again with success it prints back exactly when it already checked out, under the least nonce that solves its header and below 2^32 - 1, with every count short |
| Versions.WriteAddress | src/messages/version.rs:61-72 | the array filled in place holds the mapped address and the port |
| Versions.ReadAddress | src/messages/version.rs:74-84 | the address half of the payload, through the cursor |
| Versions.ParseVersion | src/messages/version.rs:27-42 | only 30-byte payloads are accepted, and each is read as the grammar says |
| Versions.VersionFields | src/messages/version.rs:27-42 | every 30-byte string is a version, its fields found at fixed places |
| Versions.VersionLayout | src/messages/version.rs:45-53 | where the fields of a printed version stand |
| Versions.AddressLayout | src/messages/version.rs:61-72 | the sixteen address bytes, ten zeros and two of ones before an IPv4 address, then the port |
| Versions.AddressByBytes | src/messages/version.rs:74-84 | an address is read as IPv4 exactly when its first twelve bytes are that prefix |
| Versions.VersionRoundTrip | src/messages/version.rs:45-53 | printing then parsing changes only the address: IPv4-mapped becomes IPv4, flow and scope are dropped |
| Versions.VersionReprints | src/messages/version.rs:27-53 | parsing then printing is the identity on every 30-byte string |
| Versions.VersionSurvivesIff | src/messages/version.rs:61-84 | exactly which versions come back unchanged |
| Versions.CanonicalIsPrintKernel | src/messages/version.rs:45-84 | the normalisation is idempotent and two versions print alike exactly when it maps them alike, so payloads and normalised versions correspond one to one |
| Messages.HeaderRawFormat | src/messages/message.rs:58-67 | the header array filled in place is the concatenation of the four fields |
| Messages.ParseHeader | src/messages/message.rs:69-91 | a slice shorter than a header is refused, one of another network is refused, and otherwise the first 24 bytes are read by position |
| Messages.DispatchPayload | src/messages/message.rs:148-168 | each command name parses its own payload, unknown names are refused, a verack must be empty |
| Messages.TryParseMessage | src/messages/message.rs:116-171 | the checks in their order: wait for a header, magic, size limit before completeness, wait for the payload, checksum, command, payload |
| Messages.HeaderByPosition | src/messages/message.rs:69-91 | reading a header through the cursor finds the fields at bytes 0, 4, 16 and 20 |
| Messages.HeaderRoundTrip | src/messages/message.rs:58-91 | a printed header reads back |
| Messages.CommandsSpell | src/messages/message.rs:148-161 | the four command names are the ASCII of ping, pong, version and verack |
| Messages.PayloadLayout | src/messages/ping.rs:31-39 | each kind of message goes under its name, with its payload: eight bytes of nonce, a version, or nothing |
| Messages.FrameLayout | src/messages/message.rs:40-67 | a frame is the magic bytes, the padded name, the payload's size and the first four bytes of its hash, then the payload |
| Messages.VerdictByHeader | src/messages/message.rs:116-130 | from the bytes alone: when more are awaited, when the network is wrong, and that a size above 32 MiB is refused on the header, before its bytes are awaited |
| Messages.VerdictByPayload | src/messages/message.rs:132-170 | for a complete frame, in order: wrong checksum, unreadable name, unknown name, wrong payload, and otherwise which message is accepted and what it says |
| Messages.FrameRoundTrip | src/messages/message.rs:105-171 | every framed message, followed by anything, is accepted with exactly its own length consumed, a version's address normalised |
| Messages.VerdictIsStable | src/messages/message.rs:116-171 | an acceptance or a refusal never changes when more bytes arrive |
| Messages.FrameReprints | src/messages/message.rs:148-171 | an accepted frame prints back as the bytes consumed exactly when it is a version, a verack, or a ping or pong of eight payload bytes |
| Messages.LongNonceIsAccepted | src/messages/ping.rs:23-28 | a ping or pong with any bytes after its nonce, up to the size limit, is accepted whole, under every hash, and does not print back |
| Framing.OneCut | src/protocol.rs:266-278 | one call on a stream does what two calls on its two halves do, stopping at the first failure |
| Framing.CutsDoNotMatter | src/protocol.rs:266-278 | however a stream is cut into calls, the messages dispatched, the state they lead to, the first failure and the leftover are those of one call on the whole |
| Framing.LeftoverIsIncomplete | src/protocol.rs:266-278 | what is left over is a suffix of the input, and after a success an incomplete frame shorter than 24 bytes and 32 MiB |
| Framing.OneMessage | src/protocol.rs:272-276 | a message its handler refuses ends the call with the rest of the buffer untouched; one it takes lets the call go on with the rest |
| Framing.ProcessHandsOver | src/protocol.rs:266-278 | under any handler the loop hands over, in order, the messages the buffer holds, up to and with the first refused, and ends accordingly |
| Framing.EachMessageTakesAHeader | src/protocol.rs:272-276 | every turn of the loop consumes at least 24 bytes |
| Framing.FramesParse | src/protocol.rs:266-278 | any start of a stream of frames parses to a start of the messages framed, never to an error, and the whole of it to all of them |
| Merkle.MerkleRoot | src/block.rs:7-29 | the loop that reassigns its level returns the root of the indexed tree, and nothing for no leaves |
| Merkle.TreeFromBelow | src/block.rs:16-26 | a tree over one level is the tree over the leaves, one level up |
| Merkle.RootIsTree | src/block.rs:7-29 | for every leaf count the level loop computes T(k+1,i) = H(T(k,2i), T(k,min(2i+1, last))) |
| Merkle.TreeRootSplits | src/block.rs:16-26 | the root splits at a power of two into a full left subtree and a right subtree lifted by self-hashing |
| Merkle.RootIsTopDown | src/block.rs:7-29 | for every leaf count the level loop equals the recursion that splits at the largest power of two below it |
| Merkle.EqualRootsEqualLeaves | src/block.rs:16-26 | equally long leaf lists with equal roots are equal, unless the hash collides on what was hashed |
| Merkle.OddTailTwice | src/block.rs:16-26 | an odd list and the same list with its last leaf repeated have one root |
| Merkle.DuplicatedTail | docs/adr/0010-merkle-construction.md:52 | for m * 2^k leaves with m odd, repeating the last 2^k is unnoticed exactly when m is at least 3, or the root hashed with itself is itself |
| Unfolding.EqualRootsIff | src/block.rs:7-29 | two leaf lists of one height have one root exactly when they unfold to the same row of leaves, unless the hash collides on what was hashed |
| Unfolding.RowStartsWithTheList | src/block.rs:16-26 | the row a list unfolds to has 2^height leaves, starts with the list and holds no others |
| Unfolding.DistinctLeavesDistinctRoots | docs/adr/0010-merkle-construction.md:53-56 | lists of one height in which no leaf is repeated, of whatever lengths, have one root only if they are equal |
| Blocks.TargetRange | src/block.rs:106-113 | what the 256-bit shift keeps of the mantissa for every exponent, exactly when it is exact, and exactly when it is zero |
| Blocks.BlockHeaderRoundTrip | src/block.rs:87-104 | the 80-byte header reads back field by field in front of any bytes |
| Blocks.BlockHeaderLayout | src/block.rs:87-104 | where the six fields stand in the 80 bytes, the version in two's complement |
| Blocks.BlockHeadersThatFail | src/block.rs:140-147 | a header is unreadable exactly when fewer than 80 bytes are there |
| Blocks.WhenSolved | src/block.rs:75-77 | a header solves when its hash, as a little-endian number, is strictly below the target |
| Blocks.RootInOrder | src/block.rs:115-119 | the root of a block is that of the hashes of its printed transactions, in their own order |
| Blocks.BlockRoundTrip | src/block.rs:121-168 | header and transactions read back, whatever follows them |
| Blocks.Block.constructor | src/block.rs:45-63 | a new block has no root, no hash and a header array of zeros |
| Blocks.Block.Received | src/block.rs:155-165 | a received block carries every header field, no hash, and a header array of zeros |
| Blocks.Block.GetMerkleRootHash | src/block.rs:115-119 | the root is that of the indexed tree over the transaction ids, an error exactly for an empty block |
| Blocks.Block.PrepareForMining | src/block.rs:87-104 | the array filled in place is the printed header; without a root only its first 36 bytes have been written |
| Blocks.Block.SetNonce | src/block.rs:73 | a turn of the search changes the last four bytes of the array and nothing else |
| Blocks.Block.Mine | src/block.rs:65-85 | true exactly when a nonce below 2^32 - 1 hashes the assembled header below the target; then the least such nonce, its hash and an agreeing header array are stored, and otherwise the old nonce and hash stay |
| Blocks.Block.GetRawFormat | src/block.rs:121-138 | prints the header array rather than the fields, only if there is a hash |
| Blocks.ParseTransactions | src/block.rs:151-154 | the loop over transactions agrees with the grammar |
| Blocks.ParseRaw | src/block.rs:140-168 | a block parses exactly when the grammar reads one, into a fresh block with the fields read |
| Blocks.MinePrintParse | src/block.rs:395-444 | a mined block, printed and parsed, gives back every field and transaction, re-hashes below the target and recomputes to the root it carries; it fails exactly when nothing can be mined |
| Blocks.PrintThenParse | src/block.rs:121-168 | whatever has become of the fields, a printed block parses to the header in its array and to its present transactions |
| Blocks.MineAgainThenParse | src/block.rs:65-85 | a block mined before and now mined in vain prints a header with nonce 2^32 - 2 that solves nothing, beside the old hash; its fields come back exactly when the nonce before the call was that one |
| Blocks.MineEditThenParse | src/block.rs:121-138 | fields changed after a successful search come back exactly when they equal those mined; changed transactions are printed, and the receiver's checks pass exactly when their root is the one mined |
| Node.HandshakeAcceptsPrefixes | src/node.rs:34-45 | the handshake accepts exactly the prefixes of version, verack, and its state is how far along it is |
| Node.WhenOutOfOrder | src/node.rs:35-45 | which error each event out of order is |
| Node.WhenTaken | src/node.rs:149-150 | a queue takes a message at its end, exactly when its receiver is there and fewer than 128 wait |
| Node.WhenRegistered | src/node.rs:73-106 | exactly when a second dial, and when the 33rd peer, is refused, so that an accepted connection from a dialled address is let in; and what a registration changes |
| Node.WhenSent | src/node.rs:144-156 | true exactly when the message was queued; otherwise the peer is gone; nobody else is touched |
| Node.WhenAdvanced | src/node.rs:122-134 | an unknown peer or an event out of order changes nothing, any other only that peer's state |
| Node.WhenBroadcast | src/node.rs:160-176 | exactly who is delivered to and counted, what is queued for them, and that the others are gone |
| Node.OpKeepsTable | src/node.rs:72-177 | every operation under the lock keeps: at most 32 peers, queues of at most 128, dialled addresses pairwise distinct; none invents a peer, re-uses an id or changes whose an entry is |
| Node.RunKeepsTable | src/node.rs:72-177 | every run of such operations, interleaved in any way, keeps the same: 32 peers, queues of 128, distinct dialled addresses, and whose each entry is |
| Node.LateDropIsHarmless | src/protocol.rs:146-153 | however late a registration is dropped, its id names its own entry or none: no later registration gets it, and every other peer stays |
| Node.OpsAreLocal | src/node.rs:122-177 | every operation acts on a peer through its own entry and queue alone |
| PeerTables.Outbound.Send | src/node.rs:149 | a message is taken exactly when the receiver is there and fewer than 128 wait |
| PeerTables.PeerTable.Register | src/node.rs:73-100 | refuses a second dial of an address first, then the 33rd peer, and otherwise inserts under the next id |
| PeerTables.PeerTable.Remove | src/node.rs:108-110 | removes that entry and no other |
| PeerTables.PeerTable.AdvanceHandshake | src/node.rs:122-134 | reads and writes the state of one entry, changing nothing on an error |
| PeerTables.PeerTable.HandshakeOf | src/node.rs:136-138 | the state of an entry, if there is one |
| PeerTables.PeerTable.SendTo | src/node.rs:144-156 | a message that cannot be queued removes the peer |
| PeerTables.PeerTable.SendAll | src/node.rs:161-169 | in whatever order the entries are visited, each is offered the message once and those that refuse it are the ones collected |
| PeerTables.PeerTable.Broadcast | src/node.rs:160-176 | the old table splits into those delivered to, counted, and those removed, whatever the order of iteration |
| Protocol.Registered.DeliverFrame | src/protocol.rs:113-126 | a reply that is not queued is the end of the connection |
| Protocol.Registered.HandleMessage | src/protocol.rs:280-303 | the effect of each message on the shared table, and which are refused |
| Protocol.EventsAndReplies | src/protocol.rs:280-303 | which messages move the handshake, and that a version asks for a verack and a ping for a pong of its own nonce |
| Protocol.HandledInOrder | src/protocol.rs:280-303 | first the handshake moves, and refused ends it; then the reply is queued for its peer, and not queued ends it |
| Protocol.VerackFirstEndsIt | src/protocol.rs:291-292 | a verack before any version ends the call at once, whatever follows it |
| Protocol.Registered.ProcessIncomingBytes | src/protocol.rs:266-278 | the draining loop does what the specification says of buffer and read together, and on success leaves an incomplete frame |
| Invariants.QueueStep | src/node.rs:144-177 | every step keeps: accepted = taken by the writer, then queued, in order |
| Invariants.WriterStep | src/protocol.rs:199-222 | every step keeps: the bytes written are those of the opening version and then of everything begun, replies, pings and broadcasts alike, the last perhaps in part |
| Invariants.BufferStep | src/protocol.rs:229-278 | every step keeps: the messages seen and the bytes held are what the bytes read amount to, and the buffer bound |
| Invariants.HandshakeStep | src/protocol.rs:280-303 | every step keeps: the entry's state is the one the peer's versions and veracks lead to, a refusal is justified, and a waiting reader has let go of its entry |
| Invariants.ReplyStep | src/protocol.rs:280-303 | every step keeps: the replies queued, then the one owed, are those the messages seen ask for |
| Invariants.VerackStep | src/protocol.rs:282-294 | every step keeps: at most one verack is queued, and it is queued or on its way once their version has advanced the state |
| Invariants.StartInv | src/protocol.rs:165-187 | a fresh connection, its opening version not yet written, satisfies all six |
| Invariants.EveryRun | src/protocol.rs:165-303 | all six hold over every run, whatever interferes |
| Runs.HistoriesGrow | src/protocol.rs:165-303 | over every run nothing seen, sent or accepted is taken back, and an entry once gone is gone and accepts nothing |
| Runs.NothingIsLost | src/protocol.rs:199-222 | over every run, messages accepted = messages handed to the socket then those queued; bytes written begin with our version; an Ok return means everything accepted was written |
| Runs.ReadsDoNotMatter | src/protocol.rs:229-278 | a reader about to read has seen exactly the messages in the bytes read so far, however they were cut, and holds the incomplete frame at their end; the buffer never exceeds a frame and one read |
| Runs.RepliesAnswer | src/protocol.rs:280-303 | the replies asked for are one for each version and ping, in order: a verack for a version, a pong of its own nonce for a ping |
| Runs.RepliesFollowFrames | src/protocol.rs:280-303 | for a connection still in the table: the state follows the peer's versions and veracks, refusal comes exactly when they leave the prefixes of version, verack, what is queued in reply is a verack per version and a pong of its own nonce per ping in order, and Ready means one verack queued in reply, whatever bytes were broadcast, and one in all if only pings and pongs were |
| Runs.NothingEntersAClosedQueue | src/node.rs:149-155 | over every run, once a writer has dropped its receiver its queue takes nothing more |
| Runs.WhatARead | src/protocol.rs:229-240 | a read moves any number of bytes that have arrived, up to 4096 |
| Shared.StepIsItsOp | src/node.rs:122-177 | a step of a connection changes its slot as one named table operation does, or not at all |
| Shared.PlayProjects | src/protocol.rs:89-153 | however its steps interleave with the rest of the node's operations on the shared table, table and connection agree about its entry, and its steps alone are a run of it |
| Shared.ConnectionInTheNode | src/protocol.rs:89-107 | so from registration on, a connection inside any node is one of the runs studied here |
| Runs.RepliesAreAPrefix | src/protocol.rs:113-126 | in any state at all, the replies queued are all but at most the last of those asked for |
| Teardown.DoomIsFinal | src/protocol.rs:146-197 | once the entry is gone or either thread has left its loop, that stays so |
| Teardown.HelpfulStep | src/protocol.rs:187-197 | every step of the thread whose turn it is to help lowers a lexicographic measure |
| Teardown.AnyStep | src/protocol.rs:146-197 | no step of any thread, peer or lock holder raises it |
| Teardown.NeverStuck | src/protocol.rs:146-197 | until the connection has finished, the helpful thread can move |
| Teardown.CanEnd | src/protocol.rs:165-197 | a run of the helpful threads alone leads from every doomed state to the end: writer done, socket shut, reader joined, entry released |
| Teardown.AlwaysEnds | src/protocol.rs:165-197 | every endless run from a doomed state in which neither thread is for ever able to move without moving reaches that end, whatever the peer and the other lock holders do |
| Teardown.EveryDoomEnds | src/protocol.rs:165-197 | the same for every fair run of a connection from its start, from the moment anything dooms it |
| Teardown.FewTurnsLeft | src/protocol.rs:210-221 | once the entry is gone nothing more enters the queue, and the writer passes the head of its loop at most once per queued message and once more |
| Teardown.JoinFollowsRelease | src/protocol.rs:187-197 | a reader waiting in join has released its entry, and a finished one leaves a finished writer and a shut socket |
| Teardown.ReaderOutlivesIff | docs/ARCHITECTURE.md:101-107 | over every run, a reader is in its loop without an entry exactly when an eviction or a refused broadcast has happened |
| Teardown.WriterOutlives | docs/ARCHITECTURE.md:101-107 | a writer that returned without an error was in its loop after its entry was gone; a first failing read already leads there |
| Outcomes.WhatItReturns | src/protocol.rs:187-197 | over every run: the connection returns Ok exactly when its reader came to the end of the stream and no write failed, and unless its own writer had shut the socket, all that the peer sent had then been read |
| Outcomes.ClockBeforeQueue | src/protocol.rs:208-221 | over every run the writer looks at its ping clock exactly once before each wait on the queue |
| FairRuns.FairRunOf | src/protocol.rs:165-197 | the endless fair runs above exist, from every doomed connection |
| Deadline.TimedStep | src/protocol.rs:224-259 | what every step and every tick of the clock keeps of the deadline |
| Deadline.DeadlineHolds | src/protocol.rs:246-257 | whatever arrives, a reader still in its loop at start + 2 * timeout is ready; ready means a whole handshake was seen; the deadline ends only readers that are not |
| Deadline.DeadlineIsTight | src/protocol.rs:246-257 | one tick less is not enough: a run that stays unready until then |
| TwoNodes.ByAKeeps | src/protocol.rs:165-303 | every step of one node keeps both connections' invariants and both wires |
| TwoNodes.StartPairInv | src/protocol.rs:165-187 | two fresh connections joined by empty wires satisfy both invariants and the wires |
| TwoNodes.PairRun | src/protocol.rs:165-303 | so does every state two nodes reach together |
| TwoNodes.CommitsAHandshake | src/protocol.rs:199-222 | one end commits to a version, then at most one verack |
| TwoNodes.SeenWasSent | src/protocol.rs:266-278 | what one end has parsed is a start of what the other began to write, and is never in error |
| TwoNodes.NeitherRejectsTheOther | src/protocol.rs:280-303 | in every interleaving, cutting and failure, neither node finds the other's bytes unreadable or its handshake out of order; versions and veracks parsed, under way, queued or about to be are a prefix of version, verack |
| TwoNodes.LiveRun | src/protocol.rs:199-259 | without an overflow, a missed deadline, a failed read or write, or an eviction, both connections stay up |
| TwoNodes.QuietMeansReady | src/node.rs:34-49 | when neither side has anything left to do, both are Ready |
| TwoNodes.TheyShakeHands | src/protocol.rs:165-303 | every faultless run from the start keeps both ends up, and one that comes to rest has left both nodes Ready |
| Breeding.ParseSheds | src/protocol.rs:280-303 | with version and ping weighing 2, verack and pong 1, parsing a message takes more weight off the wire than its reply puts back |
| Breeding.WorkCosts | src/protocol.rs:199-303 | every working step of either node lowers a budget, and every message received lowers the total weight under way |
| Breeding.OnlySoManySteps | src/protocol.rs:199-303 | between timer pings and broadcasts two nodes take only a bounded number of steps |
| Breeding.TheyFallSilent | src/protocol.rs:199-303 | the same from every state that two nodes can reach, whatever happened before |
| Echoes.PongsEchoPings | src/protocol.rs:295-298 | in every interleaving of two nodes that broadcast nothing, every pong either has parsed carries the nonce of a ping of its own |
| Rest.EveryRestIsReady | src/protocol.rs:165-303 | a faultless run of working steps is bounded, and when it cannot go on without a fault both nodes are Ready |
| Rest.ComesToRest | src/protocol.rs:165-303 | from every pair with both ends up there is such a run, ending at rest with both nodes Ready |
| Rest.TheyCanShakeHands | src/protocol.rs:165-303 | so there is from every state a faultless run of two fresh nodes can reach |
| Handshakes.Delivered | src/protocol.rs:199-259 | in an endless faultless run fair to all four threads, what one end has committed to of the handshake at any point the other will have seen |
| Handshakes.BothGetReady | src/protocol.rs:165-303 | every such run from two live ends reaches a point from which both are Ready for good, whatever pings and plain broadcasts occur |
| Handshakes.TheyAlwaysShakeHands | src/protocol.rs:165-303 | every such run of two fresh nodes does |
| FairRuns.FairRunOfPair | src/protocol.rs:165-303 | the endless faultless fair runs above exist, from every pair of live ends |

## Left out

- Sockets, thread spawning, stdout, dialling and listening: their effects are nondeterministic steps (`src/protocol.rs` lines 32-81).
- The set-up of a connection before its writer is spawned, including setting timeouts and the failure of `try_clone`.
- Panics and lock poisoning: every lock acquisition succeeds.
- The log ring: a log write is only a step that takes the lock, and its text is not kept.
- The wallet, block storage, configuration and command line: fixed or empty bodies, easy members.
- Ping nonces and the node's nonce are arbitrary numbers: no randomness, and no recognition of one's own nonce, which the code does not do.
- SHA-256 and the library's 256-bit integers: the hash is any function, the shift is arithmetic modulo 2^256.
- Memory reserved for parsed counts, and the wrap of the 64-bit id counter: enough memory and fewer than 2^64 registrations are assumed.
- The text of errors: each error is a named value, and those told apart only by their text are one value where no caller can tell.
- The header kept inside a received message: nothing reads it.
- Block headers on the wire, relay of blocks and transactions, scripts, witnesses, retargeting, reorganisation and unspent outputs: described in documents, decided by no code.
- The Python test framework.
- Protocol.Registered.ProcessIncomingBytes: holds the table through the whole call, as if no other thread ran between its lock holds; `Connection` models those interleavings on one connection's share of the table, and `Shared` ties that share to the table.
- Blocks.MinePrintParse: requires that the printed block fits in 64-bit memory, as every vector does.
- Node.LateDropIsHarmless: takes ids as unbounded numbers.
- TwoNodes.NeitherRejectsTheOther: between two nodes every broadcast is the frame of a ping or a pong, because one that framed a version or a verack would speak for the handshake out of turn; for one connection alone a broadcast is any bytes.
- Deadline.DeadlineHolds: takes processing between reads as instantaneous, so that time passes in reads only.
