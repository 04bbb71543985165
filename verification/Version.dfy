/** src/messages/version.rs: the 30-byte version payload and its address mapping. */
module Versions {
  import opened Wrappers
  import opened Bytes
  import opened Reading

  type Octets4 = s: seq<byte> | |s| == 4 witness Zeros(4)
  type Octets16 = s: seq<byte> | |s| == 16 witness Zeros(16)

  datatype SocketAddr =
    | V4(v4: Octets4, port: u16)
    | V6(v6: Octets16, port: u16, flowInfo: u32, scopeId: u32)

  datatype Version = Version(protocolVersion: u32, nonce: u64, listenAddress: SocketAddr)

  const VERSION_PAYLOAD_LENGTH := 30

  /** The prefix of an IPv4-mapped address, section 2.5.5.2 of RFC 4291. */
  function MappedPrefix(): seq<byte> {
    Zeros(10) + [0xff, 0xff]
  }

  predicate IsMapped(ip: Octets16) {
    ip[..12] == MappedPrefix()
  }

  function AddressBytes(a: SocketAddr): (s: seq<byte>)
    ensures |s| == 18
  {
    (match a
     case V4(ip, _) => MappedPrefix() + ip
     case V6(ip, _, _, _) => ip)
    + ToLE(a.port, 2)
  }

  function AddressOf(ip: Octets16, port: u16): SocketAddr {
    if IsMapped(ip) then V4(ip[12..], port) else V6(ip, port, 0, 0)
  }

  method WriteAddress(a: SocketAddr) returns (out: seq<byte>)
    ensures out == AddressBytes(a)
  {
    var buffer := new byte[18](_ => 0);
    var ip := match a
      case V4(v4, _) => MappedPrefix() + v4
      case V6(v6, _, _, _) => v6;
    CopyInto(buffer, 0, ip);
    CopyInto(buffer, 16, ToLE(a.port, 2));
    out := buffer[..];
  }

  function PrintVersion(v: Version): (s: seq<byte>)
    ensures |s| == VERSION_PAYLOAD_LENGTH
  {
    ToLE(v.protocolVersion, 4) + (ToLE(v.nonce, 8) + AddressBytes(v.listenAddress))
  }

  datatype PayloadError = WrongLength | Truncated

  function AddressFrom(s: seq<byte>): Parsed<SocketAddr> {
    var (ip, s1) :- ReadBytes(s, 16);
    var (port, rest) :- ReadU16(s1);
    Got(AddressOf(ip, port), rest)
  }

  function VersionFrom(s: seq<byte>): Parsed<Version> {
    var (protocolVersion, s1) :- ReadU32(s);
    var (nonce, s2) :- ReadU64(s1);
    var (address, rest) :- AddressFrom(s2);
    Got(Version(protocolVersion, nonce, address), rest)
  }

  function ReadVersion(s: seq<byte>): Result<Version, PayloadError> {
    if |s| != VERSION_PAYLOAD_LENGTH then Err(WrongLength)
    else match VersionFrom(s)
      case Got(v, _) => Ok(v)
      case Fail(_, _) => Err(Truncated)
  }

  method ReadAddress(reader: ByteReader) returns (r: Result<SocketAddr, ReadError>)
    requires reader.Valid()
    modifies reader
    ensures reader.Valid()
    ensures var p := AddressFrom(old(reader.Rest())); r == p.Outcome() && reader.Rest() == p.rest
  {
    var ip :- reader.Bytes(16);
    var port :- reader.U16();
    r := Ok(AddressOf(ip, port));
  }

  method ParseVersion(bytes: Vec<byte>) returns (r: Result<Version, PayloadError>)
    ensures r == ReadVersion(bytes)
  {
    hide AddressFrom, ReadU32, ReadU64;
    if |bytes| != VERSION_PAYLOAD_LENGTH {
      return Err(WrongLength);
    }
    var reader := new ByteReader(bytes);
    var protocolVersion := reader.U32();
    if protocolVersion.Err? {
      return Err(Truncated);
    }
    var nonce := reader.U64();
    if nonce.Err? {
      return Err(Truncated);
    }
    var address := ReadAddress(reader);
    if address.Err? {
      return Err(Truncated);
    }
    r := Ok(Version(protocolVersion.value, nonce.value, address.value));
  }

  /** The three fields by position: a string of the right length never runs short. */
  lemma VersionFields(s: seq<byte>)
    requires |s| == VERSION_PAYLOAD_LENGTH
    ensures Pow256(2) == 0x1_0000 && Pow256(4) == 0x1_0000_0000 && Pow256(8) == 0x1_0000_0000_0000_0000
    ensures ReadVersion(s) == Ok(Version(FromLE(s[..4]), FromLE(s[4..12]), AddressOf(s[12..28], FromLE(s[28..]))))
  {
    hide FromLE, AddressOf;
    Widths();
    assert s[4..][..8] == s[4..12] && s[4..][8..] == s[12..];
    assert s[12..][..16] == s[12..28] && s[12..][16..] == s[28..] && s[28..][..2] == s[28..];
  }

  // ----- the codec

  /** What a peer can learn of an address: a mapped IPv4 is an IPv4; flow and scope do not travel. */
  function CanonicalAddress(a: SocketAddr): SocketAddr {
    match a
    case V4(_, _) => a
    case V6(ip, port, _, _) => AddressOf(ip, port)
  }

  function Canonical(v: Version): Version {
    v.(listenAddress := CanonicalAddress(v.listenAddress))
  }

  lemma AddressRoundTrip(a: SocketAddr)
    ensures var s := AddressBytes(a); AddressOf(s[..16], FromLE(s[16..])) == CanonicalAddress(a)
  {
    Widths();
    FromToLE(a.port, 2);
    var s := AddressBytes(a);
    assert s[16..] == ToLE(a.port, 2);
    match a {
      case V4(ip, port) =>
        assert s[..16] == MappedPrefix() + ip;
        assert (MappedPrefix() + ip)[..12] == MappedPrefix() && (MappedPrefix() + ip)[12..] == ip;
      case V6(ip, port, _, _) =>
        assert s[..16] == ip;
    }
  }

  lemma AddressReprints(ip: Octets16, port: u16)
    ensures AddressBytes(AddressOf(ip, port)) == ip + ToLE(port, 2)
  {
    assert ip == ip[..12] + ip[12..];
  }

  /** Printing then parsing canonicalises the address and changes nothing else. */
  lemma VersionRoundTrip(v: Version)
    ensures ReadVersion(PrintVersion(v)) == Ok(Canonical(v))
  {
    VersionFields(PrintVersion(v));
    FromToLE(v.protocolVersion, 4);
    FromToLE(v.nonce, 8);
    AddressRoundTrip(v.listenAddress);
    var s, a := PrintVersion(v), AddressBytes(v.listenAddress);
    assert s[..4] == ToLE(v.protocolVersion, 4) && s[4..12] == ToLE(v.nonce, 8);
    assert s[12..28] == a[..16] && s[28..] == a[16..];
  }

  /** Parsing then printing is the identity on every 30-byte string. */
  lemma VersionReprints(s: seq<byte>)
    requires |s| == VERSION_PAYLOAD_LENGTH
    ensures ReadVersion(s).Ok? && PrintVersion(ReadVersion(s).value) == s
  {
    VersionFields(s);
    ToFromLE(s[..4]);
    ToFromLE(s[4..12]);
    ToFromLE(s[28..]);
    AddressReprints(s[12..28], FromLE(s[28..]));
    assert s[12..] == s[12..28] + s[28..];
    assert s == s[..4] + (s[4..12] + s[12..]);
  }

  /** The versions that survive the wire are those already canonical: an IPv4 address, or an
      IPv6 one that is not IPv4-mapped and has no flow label or scope. */
  lemma VersionSurvivesIff(v: Version)
    ensures ReadVersion(PrintVersion(v)) == Ok(v) <==>
            (v.listenAddress.V6? ==>
               !IsMapped(v.listenAddress.v6) && v.listenAddress.flowInfo == v.listenAddress.scopeId == 0)
  {
    VersionRoundTrip(v);
  }

  /** Canonicalisation is idempotent, and exactly the kernel of printing: two versions print alike
      iff they canonicalise alike. So 30-byte strings and canonical versions correspond one to one. */
  lemma CanonicalIsPrintKernel(v: Version, w: Version)
    ensures Canonical(Canonical(v)) == Canonical(v)
    ensures PrintVersion(Canonical(v)) == PrintVersion(v)
    ensures PrintVersion(v) == PrintVersion(w) <==> Canonical(v) == Canonical(w)
  {
    VersionRoundTrip(v);
    VersionRoundTrip(w);
    VersionReprints(PrintVersion(v));
    VersionReprints(PrintVersion(w));
    AddressRoundTrip(v.listenAddress);
  }

  // ----- where the fields stand

  /** The prefix that marks an IPv4 address: ten zeros, then two bytes of ones. */
  lemma MappedPrefixIs()
    ensures MappedPrefix() == [0, 0, 0, 0, 0, 0, 0, 0, 0, 0, 255, 255]
  {
  }

  lemma AddressLayout(a: SocketAddr)
    ensures var s := AddressBytes(a);
            && FromLE(s[16..]) == a.port
            && (a.V4? ==> s[..12] == [0, 0, 0, 0, 0, 0, 0, 0, 0, 0, 255, 255] && s[12..16] == a.v4)
            && (a.V6? ==> s[..16] == a.v6)
  {
    hide ToLE, FromLE, Pow256;
    var s := AddressBytes(a);
    MappedPrefixIs();
    Widths();
    FromToLE(a.port, 2);
    assert s[16..] == ToLE(a.port, 2);
  }

  lemma VersionLayout(v: Version)
    ensures var s := PrintVersion(v);
            && FromLE(s[..4]) == v.protocolVersion && FromLE(s[4..12]) == v.nonce
            && s[12..] == AddressBytes(v.listenAddress)
  {
    hide AddressBytes, ToLE, FromLE, Pow256;
    var s := PrintVersion(v);
    Widths();
    FromToLE(v.protocolVersion, 4);
    FromToLE(v.nonce, 8);
    assert s[..4] == ToLE(v.protocolVersion, 4) && s[4..12] == ToLE(v.nonce, 8);
  }

  /** The address read from 18 bytes: IPv4 exactly when the first twelve are the mapped prefix. */
  lemma AddressByBytes(ip: Octets16, port: u16)
    ensures AddressOf(ip, port) ==
            if ip[..12] == [0, 0, 0, 0, 0, 0, 0, 0, 0, 0, 255, 255] then V4(ip[12..], port) else V6(ip, port, 0, 0)
  {
    MappedPrefixIs();
  }

  /** A payload of any other length is no version. */
  lemma VersionsThatFail(s: seq<byte>)
    ensures ReadVersion(s) == Err(WrongLength) <==> |s| != 30
  {
  }
}
