/** src/messages/message.rs, ping.rs, pong.rs and verack.rs: the frame around a payload, and the
    incremental attempt to read one frame off the front of a buffer. */
module Messages {
  import opened Wrappers
  import opened Bytes
  import opened Reading
  import opened Util
  import opened Versions

  datatype Message = PingMsg(nonce: u64) | PongMsg(nonce: u64) | VersionMsg(version: Version) | VerackMsg

  const MAGIC_BYTES: seq<byte> := [0xf9, 0xbe, 0xb4, 0xd9]
  const HEADER_LENGTH := 24
  const MAX_PAYLOAD_SIZE := 32 * 1024 * 1024

  const PING: seq<byte> := [0x70, 0x69, 0x6e, 0x67]
  const PONG: seq<byte> := [0x70, 0x6f, 0x6e, 0x67]
  const VERSION: seq<byte> := [0x76, 0x65, 0x72, 0x73, 0x69, 0x6f, 0x6e]
  const VERACK: seq<byte> := [0x76, 0x65, 0x72, 0x61, 0x63, 0x6b]

  // ----- printing

  function Payload(m: Message): (s: seq<byte>)
    ensures |s| <= VERSION_PAYLOAD_LENGTH
  {
    match m
    case PingMsg(nonce) => ToLE(nonce, 8)
    case PongMsg(nonce) => ToLE(nonce, 8)
    case VersionMsg(version) => PrintVersion(version)
    case VerackMsg => []
  }

  function CommandName(m: Message): (s: seq<byte>)
    ensures |s| <= 12 && IsAscii(s) && 0 !in s
  {
    match m
    case PingMsg(_) => PING
    case PongMsg(_) => PONG
    case VersionMsg(_) => VERSION
    case VerackMsg => VERACK
  }

  type Octets12 = s: seq<byte> | |s| == 12 witness Zeros(12)

  datatype Header = Header(magicBytes: Octets4, commandName: Octets12, payloadSize: u32, checksum: Octets4)

  function HeaderFor(h: Hasher, m: Message): Header {
    Header(MAGIC_BYTES, Command12(CommandName(m)), |Payload(m)|, h(Payload(m))[..4])
  }

  function PrintHeader(header: Header): (s: seq<byte>)
    ensures |s| == HEADER_LENGTH
  {
    header.magicBytes + (header.commandName + (ToLE(header.payloadSize, 4) + header.checksum))
  }

  function Frame(h: Hasher, m: Message): (s: seq<byte>)
    ensures HEADER_LENGTH <= |s| <= HEADER_LENGTH + VERSION_PAYLOAD_LENGTH
  {
    PrintHeader(HeaderFor(h, m)) + Payload(m)
  }

  method HeaderRawFormat(header: Header) returns (raw: seq<byte>)
    ensures raw == PrintHeader(header)
  {
    hide ToLE;
    var buffer := new byte[24](_ => 0);
    var size := ToLE(header.payloadSize, 4);
    CopyInto(buffer, 0, header.magicBytes);
    CopyInto(buffer, 4, header.commandName);
    CopyInto(buffer, 16, size);
    CopyInto(buffer, 20, header.checksum);
    assert forall k :: 0 <= k < 4 ==> buffer[0 + k] == header.magicBytes[k];
    assert forall k :: 0 <= k < 12 ==> buffer[4 + k] == header.commandName[k];
    assert forall k :: 0 <= k < 4 ==> buffer[16 + k] == size[k];
    raw := buffer[..];
  }

  // ----- parsing

  datatype FrameError =
    | ShortHeader | BadMagic | TooLarge | BadChecksum | BadCommand | UnknownCommand | BadPayload | Truncated

  datatype Attempt = Accept(message: Message, used: nat) | Wait | Refuse(error: FrameError)

  function HeaderFrom(s: seq<byte>): Header
    requires |s| >= HEADER_LENGTH
  {
    Widths();
    Header(s[..4], s[4..16], FromLE(s[16..20]), s[20..24])
  }

  /** A ping or a pong is its first eight bytes, whatever follows; the other two are exact. */
  function ParsePayload(command: seq<byte>, payload: seq<byte>): Result<Message, FrameError> {
    Widths();
    if command == PING then
      if |payload| >= 8 then Ok(PingMsg(FromLE(payload[..8]))) else Err(BadPayload)
    else if command == PONG then
      if |payload| >= 8 then Ok(PongMsg(FromLE(payload[..8]))) else Err(BadPayload)
    else if command == VERSION then
      var v := ReadVersion(payload);
      if v.Ok? then Ok(VersionMsg(v.value)) else Err(BadPayload)
    else if command == VERACK then
      if payload == [] then Ok(VerackMsg) else Err(BadPayload)
    else
      Err(UnknownCommand)
  }

  function CheckPayload(h: Hasher, header: Header, payload: seq<byte>): Result<Message, FrameError> {
    if header.checksum != h(payload)[..4] then
      Err(BadChecksum)
    else
      var command := ParseCommand(header.commandName);
      if command.Err? then Err(BadCommand) else ParsePayload(command.value, payload)
  }

  function TryParse(h: Hasher, buffer: seq<byte>): (a: Attempt)
    ensures a.Accept? ==> HEADER_LENGTH <= a.used <= |buffer| && a.used <= HEADER_LENGTH + MAX_PAYLOAD_SIZE
    ensures a.Wait? ==> |buffer| < HEADER_LENGTH + MAX_PAYLOAD_SIZE
  {
    if |buffer| < HEADER_LENGTH then
      Wait
    else
      var header := HeaderFrom(buffer);
      var end := HEADER_LENGTH + header.payloadSize;
      if header.magicBytes != MAGIC_BYTES then
        Refuse(BadMagic)
      else if header.payloadSize > MAX_PAYLOAD_SIZE then
        Refuse(TooLarge)
      else if |buffer| < end then
        Wait
      else match CheckPayload(h, header, buffer[HEADER_LENGTH..end])
        case Ok(m) => Accept(m, end)
        case Err(e) => Refuse(e)
  }

  function Unmagic(s: seq<byte>): Parsed<(Octets12, u32, Octets4)> {
    var (commandName, s1) :- ReadBytes(s, 12);
    var (payloadSize, s2) :- ReadU32(s1);
    var (checksum, rest) :- ReadBytes(s2, 4);
    Got((commandName, payloadSize, checksum), rest)
  }

  lemma HeaderByPosition(s: seq<byte>)
    requires |s| >= HEADER_LENGTH
    ensures var hd := HeaderFrom(s);
            && hd.magicBytes == s[..4]
            && Unmagic(s[4..]) == Got((hd.commandName, hd.payloadSize, hd.checksum), s[HEADER_LENGTH..])
    ensures HeaderFrom(s[..HEADER_LENGTH]) == HeaderFrom(s)
  {
    hide FromLE;
    assert s[4..][..12] == s[4..16] && s[4..][12..] == s[16..];
    assert s[16..][..4] == s[16..20] && s[16..][4..] == s[20..];
    assert s[20..][..4] == s[20..24] && s[20..][4..] == s[24..];
    assert s[..24][..4] == s[..4] && s[..24][4..16] == s[4..16];
    assert s[..24][16..20] == s[16..20] && s[..24][20..24] == s[20..24];
  }

  /** Reads the first 24 bytes of a slice that has them, and refuses one that has not. */
  method ParseHeader(bytes: Vec<byte>) returns (r: Result<Header, FrameError>)
    ensures |bytes| < HEADER_LENGTH ==> r == Err(ShortHeader)
    ensures |bytes| >= HEADER_LENGTH ==>
              var header := HeaderFrom(bytes);
              r == if header.magicBytes == MAGIC_BYTES then Ok(header) else Err(BadMagic)
  {
    hide FromLE, HeaderFrom;
    if |bytes| < HEADER_LENGTH {
      return Err(ShortHeader);
    }
    HeaderByPosition(bytes);
    var reader := new ByteReader(bytes);
    var magicBytes := reader.Bytes(4);
    if magicBytes.Ok? && magicBytes.value != MAGIC_BYTES {
      return Err(BadMagic);
    }
    var rest := ParseUnmagic(reader);
    if magicBytes.Err? || rest.Err? {
      return Err(FrameError.Truncated);
    }
    var (commandName, payloadSize, checksum) := rest.value;
    r := Ok(Header(magicBytes.value, commandName, payloadSize, checksum));
  }

  /** The header's fields after the magic bytes. */
  method ParseUnmagic(reader: ByteReader) returns (r: Result<(Octets12, u32, Octets4), ReadError>)
    requires reader.Valid()
    modifies reader
    ensures reader.Valid()
    ensures var p := Unmagic(old(reader.Rest())); r == p.Outcome() && reader.Rest() == p.rest
  {
    var commandName :- reader.Bytes(12);
    var payloadSize :- reader.U32();
    var checksum :- reader.Bytes(4);
    r := Ok((commandName, payloadSize, checksum));
  }

  method ParseNonce(bytes: Vec<byte>) returns (r: Result<u64, ReadError>)
    ensures r == ReadU64(bytes).Outcome()
  {
    var reader := new ByteReader(bytes);
    r := reader.U64();
  }

  method DispatchPayload(command: seq<byte>, payload: Vec<byte>) returns (r: Result<Message, FrameError>)
    ensures r == ParsePayload(command, payload)
  {
    hide FromLE, ReadVersion;
    if command == PING {
      var nonce := ParseNonce(payload);
      r := if nonce.Ok? then Ok(PingMsg(nonce.value)) else Err(BadPayload);
    } else if command == PONG {
      var nonce := ParseNonce(payload);
      r := if nonce.Ok? then Ok(PongMsg(nonce.value)) else Err(BadPayload);
    } else if command == VERSION {
      var version := ParseVersion(payload);
      r := if version.Ok? then Ok(VersionMsg(version.value)) else Err(BadPayload);
    } else if command == VERACK {
      r := if payload == [] then Ok(VerackMsg) else Err(BadPayload);
    } else {
      r := Err(UnknownCommand);
    }
  }

  method TryParseMessage(h: Hasher, buffer: Vec<byte>) returns (a: Attempt)
    ensures a == TryParse(h, buffer)
  {
    hide HeaderFrom, ParsePayload, ParseCommand;
    if |buffer| < HEADER_LENGTH {
      return Wait;
    }
    HeaderByPosition(buffer);
    var parsed := ParseHeader(buffer[..HEADER_LENGTH]);
    if parsed.Err? {
      return Refuse(parsed.error);
    }
    var header := parsed.value;
    if header.payloadSize > MAX_PAYLOAD_SIZE {
      return Refuse(TooLarge);
    }
    if |buffer| < HEADER_LENGTH + header.payloadSize {
      return Wait;
    }
    var payload := buffer[HEADER_LENGTH..HEADER_LENGTH + header.payloadSize];
    if header.checksum != h(payload)[..4] {
      return Refuse(BadChecksum);
    }
    var command := ParseCommand12(header.commandName);
    if command.Err? {
      return Refuse(BadCommand);
    }
    var message := DispatchPayload(command.value, payload);
    a := if message.Ok? then Accept(message.value, HEADER_LENGTH + header.payloadSize) else Refuse(message.error);
  }

  // ----- the codec

  /** What arrives when `m` is sent: a version's address is canonicalised on the way. */
  function Received(m: Message): Message {
    match m
    case VersionMsg(v) => VersionMsg(Canonical(v))
    case _ => m
  }

  lemma HeaderRoundTrip(header: Header, rest: seq<byte>)
    ensures HeaderFrom(PrintHeader(header) + rest) == header
  {
    hide ToLE, FromLE;
    Widths();
    FromToLE(header.payloadSize, 4);
    var s := PrintHeader(header) + rest;
    assert s[..4] == header.magicBytes && s[4..16] == header.commandName;
    assert s[16..20] == ToLE(header.payloadSize, 4) && s[20..24] == header.checksum;
  }

  lemma HeaderReprints(s: seq<byte>)
    requires |s| >= HEADER_LENGTH
    ensures PrintHeader(HeaderFrom(s)) == s[..HEADER_LENGTH]
  {
    hide ToLE, FromLE;
    ToFromLE(s[16..20]);
    assert s[..24] == s[..4] + (s[4..16] + (s[16..20] + s[20..24]));
  }

  lemma PayloadRoundTrip(m: Message)
    ensures ParsePayload(CommandName(m), Payload(m)) == Ok(Received(m))
  {
    Widths();
    match m {
      case PingMsg(nonce) =>
        FromToLE(nonce, 8);
        assert Payload(m)[..8] == Payload(m);
      case PongMsg(nonce) =>
        FromToLE(nonce, 8);
        assert Payload(m)[..8] == Payload(m);
      case VersionMsg(v) => VersionRoundTrip(v);
      case VerackMsg =>
    }
  }

  /** A frame is read back, and nothing beyond it is touched. */
  lemma FrameRoundTrip(h: Hasher, m: Message, rest: seq<byte>)
    ensures TryParse(h, Frame(h, m) + rest) == Accept(Received(m), |Frame(h, m)|)
  {
    hide ToLE, FromLE, Payload, CommandName, ParsePayload, HeaderFrom, PrintHeader, ParseCommand, Command12;
    var header := HeaderFor(h, m);
    var s := Frame(h, m) + rest;
    assert s == PrintHeader(header) + (Payload(m) + rest);
    HeaderRoundTrip(header, Payload(m) + rest);
    assert s[HEADER_LENGTH..HEADER_LENGTH + |Payload(m)|] == Payload(m);
    CommandCodec(Command12(CommandName(m)), CommandName(m));
    PayloadRoundTrip(m);
  }

  /** Accepting or refusing is final: more bytes never change the verdict. */
  lemma VerdictIsStable(h: Hasher, buffer: seq<byte>, more: seq<byte>)
    requires !TryParse(h, buffer).Wait?
    ensures TryParse(h, buffer + more) == TryParse(h, buffer)
  {
    hide FromLE, CheckPayload;
    var all := buffer + more;
    assert all[..4] == buffer[..4] && all[4..16] == buffer[4..16];
    assert all[16..20] == buffer[16..20] && all[20..24] == buffer[20..24];
    var end := HEADER_LENGTH + HeaderFrom(buffer).payloadSize;
    if |buffer| >= end {
      assert all[HEADER_LENGTH..end] == buffer[HEADER_LENGTH..end];
    }
  }

  lemma PayloadReprints(command: seq<byte>, payload: seq<byte>)
    requires ParsePayload(command, payload).Ok?
    ensures var m := ParsePayload(command, payload).value;
            && command == CommandName(m)
            && (m.PingMsg? || m.PongMsg? ==> Payload(m) == payload[..8])
            && (m.VersionMsg? || m.VerackMsg? ==> Payload(m) == payload)
  {
    Widths();
    if command == PING || command == PONG {
      ToFromLE(payload[..8]);
    } else if command == VERSION {
      VersionReprints(payload);
    }
  }

  /** Every accepted version or verack, and every accepted ping or pong of exactly eight payload
      bytes, prints back as the very bytes consumed; a longer ping or pong never does. */
  lemma FrameReprints(h: Hasher, buffer: seq<byte>)
    requires TryParse(h, buffer).Accept?
    ensures var Accept(m, used) := TryParse(h, buffer);
            Frame(h, m) == buffer[..used] <==> (m.PingMsg? || m.PongMsg? ==> used == HEADER_LENGTH + 8)
  {
    hide ToLE, FromLE, ParsePayload, HeaderFrom, PrintHeader, ParseCommand, Command12, PrintVersion;
    var Accept(m, used) := TryParse(h, buffer);
    var header, payload := HeaderFrom(buffer), buffer[HEADER_LENGTH..used];
    var command := ParseCommand(header.commandName).value;
    CommandCodec(header.commandName, command);
    PayloadReprints(command, payload);
    HeaderReprints(buffer);
    assert buffer[..used] == buffer[..HEADER_LENGTH] + payload;
    if m.PingMsg? || m.PongMsg? {
      assert |Frame(h, m)| == HEADER_LENGTH + 8;
      if used == HEADER_LENGTH + 8 {
        assert payload[..8] == payload;
      }
    }
  }

  /** A ping or a pong may carry any bytes after its nonce, up to the size limit: it is accepted with
      all of them consumed, so the longer frames above do occur. */
  lemma LongNonceIsAccepted(h: Hasher, nonce: u64, more: seq<byte>, command: seq<byte>)
    requires command == PING || command == PONG
    requires 0 < |more| <= MAX_PAYLOAD_SIZE - 8
    ensures var payload := ToLE(nonce, 8) + more;
            var s := PrintHeader(Header(MAGIC_BYTES, Command12(command), |payload|, h(payload)[..4])) + payload;
            var m := if command == PING then PingMsg(nonce) else PongMsg(nonce);
            TryParse(h, s) == Accept(m, |s|) && Frame(h, m) != s
  {
    hide ToLE, FromLE, ParseCommand, Command12, HeaderFrom, PrintHeader;
    var payload := ToLE(nonce, 8) + more;
    var header := Header(MAGIC_BYTES, Command12(command), |payload|, h(payload)[..4]);
    var s := PrintHeader(header) + payload;
    HeaderRoundTrip(header, payload);
    CommandCodec(Command12(command), command);
    Widths();
    FromToLE(nonce, 8);
    assert payload[..8] == ToLE(nonce, 8);
    assert s[HEADER_LENGTH..HEADER_LENGTH + |payload|] == payload;
  }

  // ----- frames by their bytes

  lemma CommandsSpell()
    ensures |PING| == 4 && forall i :: 0 <= i < 4 ==> PING[i] == "ping"[i] as int
    ensures |PONG| == 4 && forall i :: 0 <= i < 4 ==> PONG[i] == "pong"[i] as int
    ensures |VERSION| == 7 && forall i :: 0 <= i < 7 ==> VERSION[i] == "version"[i] as int
    ensures |VERACK| == 6 && forall i :: 0 <= i < 6 ==> VERACK[i] == "verack"[i] as int
  {
  }

  /** Which payload goes under which name. */
  lemma PayloadLayout(m: Message)
    ensures CommandName(m) == match m
                              case PingMsg(_) => PING
                              case PongMsg(_) => PONG
                              case VersionMsg(_) => VERSION
                              case VerackMsg => VERACK
    ensures m.PingMsg? || m.PongMsg? ==> |Payload(m)| == 8 && FromLE(Payload(m)) == m.nonce
    ensures m.VersionMsg? ==> ReadVersion(Payload(m)) == Ok(Canonical(m.version))
    ensures m.VerackMsg? ==> Payload(m) == []
  {
    Widths();
    if m.PingMsg? || m.PongMsg? {
      FromToLE(m.nonce, 8);
    } else if m.VersionMsg? {
      VersionRoundTrip(m.version);
    }
  }

  lemma FrameLayout(h: Hasher, m: Message)
    ensures var s := Frame(h, m);
            && s[..4] == [0xf9, 0xbe, 0xb4, 0xd9] && s[4..16] == Command12(CommandName(m))
            && FromLE(s[16..20]) == |Payload(m)| && s[20..24] == h(Payload(m))[..4] && s[24..] == Payload(m)
  {
    hide Payload, CommandName, Command12, ToLE, FromLE, Pow256;
    var s := Frame(h, m);
    Widths();
    FromToLE(|Payload(m)|, 4);
    assert s[16..20] == ToLE(|Payload(m)|, 4);
  }

  /** The checks ahead of the payload, in terms of the bytes: a header of another network is refused
      before its size is looked at, and an oversized claim before its bytes are awaited. */
  lemma VerdictByHeader(h: Hasher, s: seq<byte>)
    ensures TryParse(h, s).Wait? <==>
              || |s| < 24
              || (s[..4] == [0xf9, 0xbe, 0xb4, 0xd9] && FromLE(s[16..20]) <= 33554432 && |s| < 24 + FromLE(s[16..20]))
    ensures TryParse(h, s) == Refuse(BadMagic) <==> |s| >= 24 && s[..4] != [0xf9, 0xbe, 0xb4, 0xd9]
    ensures TryParse(h, s) == Refuse(TooLarge) <==>
              |s| >= 24 && s[..4] == [0xf9, 0xbe, 0xb4, 0xd9] && FromLE(s[16..20]) > 33554432
  {
    hide FromLE, ParseCommand, ReadVersion;
  }

  /** The size limit and the magic bytes let the payload through, and all of it is there. */
  predicate Complete(s: seq<byte>) {
    && |s| >= 24 && s[..4] == [0xf9, 0xbe, 0xb4, 0xd9] && FromLE(s[16..20]) <= 33554432
    && |s| >= 24 + FromLE(s[16..20])
  }

  /** The checks on the payload, in their order: checksum, command, payload. */
  lemma VerdictByPayload(h: Hasher, s: seq<byte>)
    requires Complete(s)
    ensures var end := 24 + FromLE(s[16..20]);
            var payload, name, a := s[24..end], ParseCommand(s[4..16]), TryParse(h, s);
            && (a == Refuse(BadChecksum) <==> s[20..24] != h(payload)[..4])
            && (a == Refuse(BadCommand) <==> s[20..24] == h(payload)[..4] && name.Err?)
            && (s[20..24] == h(payload)[..4] && name.Ok? ==>
                  && (a == Refuse(UnknownCommand) <==> name.value !in {PING, PONG, VERSION, VERACK})
                  && (a == Refuse(BadPayload) <==>
                        || (name.value in {PING, PONG} && |payload| < 8)
                        || (name.value == VERSION && |payload| != 30)
                        || (name.value == VERACK && |payload| != 0))
                  && (a.Accept? ==> a.used == end && CommandName(a.message) == name.value)
                  && (a.Accept? && name.value in {PING, PONG} ==> a.message.nonce == FromLE(payload[..8]))
                  && (a.Accept? && name.value == VERSION ==> ReadVersion(payload) == Ok(a.message.version)))
            && (s[20..24] == h(payload)[..4] && name.Ok? ==> a.Accept? || a.error in {UnknownCommand, BadPayload})
  {
    hide FromLE, ParseCommand, VersionFrom;
    Widths();
    var payload := s[24..24 + FromLE(s[16..20])];
    VersionsThatFail(payload);
    if |payload| == 30 {
      VersionReprints(payload);
    }
  }
}
