/**
 The kernel's view of a frame: an arbitrary string of bytes, parsed as far as
 an Ethernet, an IPv4 or IPv6 and a TCP header. The other direction, headers
 laid out as in section 3.1 of RFC 791 and section 3.1 of RFC 9293, is the
 reference for what a parse may find.
 */
module Frame {
  import opened Prelude
  import opened ProtoManager

  type byte = b: nat | b < 0x100
  type u16 = n: nat | n < 0x1_0000
  type Bytes = seq<byte>

  const ETH_LEN := 14
  const IPV4_LEN := 20
  const IPV6_LEN := 40
  const TCP_LEN := 20

  const ETHERTYPE_IPV4 := 0x0800
  const ETHERTYPE_IPV6 := 0x86DD

  const IPPROTO_ICMP := 1
  const IPPROTO_TCP := 6
  const IPPROTO_UDP := 17

  // ---- Parsing ----

  /** A header of `len` bytes at `offset`, or nothing when it would reach past the frame. */
  function PtrAt(frame: Bytes, offset: nat, len: nat): (r: Option<Bytes>)
    ensures r.Some? <==> offset + len <= |frame|
    ensures r.Some? ==> |r.value| == len && forall k :: 0 <= k < len ==> r.value[k] == frame[offset + k]
  {
    if offset + len > |frame| then None else Some(frame[offset..offset + len])
  }

  function FromBe16(hi: byte, lo: byte): u16 {
    hi * 0x100 + lo
  }

  function FromBe32(a: byte, b: byte, c: byte, d: byte): Ipv4Addr {
    a * 0x100_0000 + b * 0x1_0000 + c * 0x100 + d
  }

  datatype L3Info =
    | V4(proto: byte, srcAddr: Ipv4Addr, ipHdrLen: nat, totLen: nat, isFirstFragment: bool)
    | V6
    | Malformed

  function ParseEthhdr(frame: Bytes): Option<u16> {
    match PtrAt(frame, 0, ETH_LEN)
    case None => None
    case Some(eth) => Some(FromBe16(eth[12], eth[13]))
  }

  function ParseL4Protocol(frame: Bytes): Option<L3Info> {
    match ParseEthhdr(frame)
    case None => None
    case Some(ethertype) =>
      if ethertype == ETHERTYPE_IPV4 then ParseIpv4hdr(frame)
      else if ethertype == ETHERTYPE_IPV6 then
        if PtrAt(frame, ETH_LEN, IPV6_LEN).Some? then Some(V6) else None
      else None
  }

  function ParseIpv4hdr(frame: Bytes): Option<L3Info> {
    match PtrAt(frame, ETH_LEN, IPV4_LEN)
    case None => None
    case Some(ip) =>
      var vihl, ipHdrLen, totLen := ip[0], ip[0] % 0x10 * 4, FromBe16(ip[2], ip[3]);
      if vihl / 0x10 != 4 || ipHdrLen < IPV4_LEN || totLen < ipHdrLen then Some(Malformed)
      else
        Some(V4(ip[9], FromBe32(ip[12], ip[13], ip[14], ip[15]), ipHdrLen, totLen,
                FromBe16(ip[6], ip[7]) % 0x2000 == 0))
  }

  datatype TcpInfo = TcpInfo(isSyn: bool, dstPort: u16)

  function ParseTcpInfo(frame: Bytes, ipHdrLen: nat): Option<TcpInfo> {
    match PtrAt(frame, ETH_LEN + ipHdrLen, TCP_LEN)
    case None => None
    case Some(tcp) =>
      var syn, ack := tcp[13] / 2 % 2, tcp[13] / 0x10 % 2;
      Some(TcpInfo(syn != 0 && ack == 0, FromBe16(tcp[2], tcp[3])))
  }

  /** The bucket that a recognised frame is counted in. */
  function ProtoOf(l3: L3Info): Proto {
    match l3
    case V6 => Ipv6
    case Malformed => Other
    case V4(proto, _, _, _, _) =>
      if proto == IPPROTO_ICMP then Icmp
      else if proto == IPPROTO_TCP then Tcp
      else if proto == IPPROTO_UDP then Udp
      else Other
  }

  datatype Syn = Syn(srcAddr: Ipv4Addr, dstPort: u16)

  /** The connection attempt that the frame is tracked for, if it is one. */
  function BareSyn(frame: Bytes): Option<Syn> {
    match ParseL4Protocol(frame)
    case Some(V4(proto, srcAddr, ipHdrLen, totLen, isFirstFragment)) =>
      if proto == IPPROTO_TCP && isFirstFragment && ipHdrLen + TCP_LEN <= totLen then
        match ParseTcpInfo(frame, ipHdrLen)
        case Some(tcp) => if tcp.isSyn then Some(Syn(srcAddr, tcp.dstPort)) else None
        case None => None
      else None
    case _ => None
  }

  // ---- The reference: headers as the standards lay them out ----

  function Be16(n: u16): Bytes {
    [n / 0x100, n % 0x100]
  }

  function Be32(a: Ipv4Addr): Bytes {
    [a / 0x100_0000, a / 0x1_0000 % 0x100, a / 0x100 % 0x100, a % 0x100]
  }

  /** An IPv4 packet in an Ethernet frame; `payload` runs to the end of the frame, padding included. */
  datatype Packet = Packet(macs: Bytes, tos: byte, totLen: u16, ident: Bytes, fragFlags: nat, fragOffset: nat,
                           ttl: byte, proto: byte, checksum: Bytes, src: Ipv4Addr, dst: Bytes, options: Bytes,
                           payload: Bytes)
  {
    /** Field widths; the options are a whole number of words, at most ten. */
    predicate Valid() {
      && |macs| == 12 && |ident| == 2 && fragFlags < 8 && fragOffset < 0x2000 && |checksum| == 2 && |dst| == 4
      && |options| % 4 == 0 && |options| <= 40
      && HeaderLen() <= totLen
    }

    function HeaderLen(): nat {
      IPV4_LEN + |options|
    }
  }

  function Ethernet(p: Packet): Bytes {
    p.macs + Be16(ETHERTYPE_IPV4)
  }

  function FixedHeader(p: Packet): (r: Bytes)
    requires p.Valid()
    ensures |r| == IPV4_LEN
  {
    [0x40 + p.HeaderLen() / 4, p.tos] + Be16(p.totLen)
    + p.ident + Be16(p.fragFlags * 0x2000 + p.fragOffset)
    + [p.ttl, p.proto] + p.checksum + Be32(p.src) + p.dst
  }

  function Encode(p: Packet): Bytes
    requires p.Valid()
  {
    Ethernet(p) + FixedHeader(p) + p.options + p.payload
  }

  datatype Flags = Flags(cwr: bool, ece: bool, urg: bool, ack: bool, psh: bool, rst: bool, syn: bool, fin: bool)

  function Bit(b: bool): nat {
    if b then 1 else 0
  }

  function Nibble(a: bool, b: bool, c: bool, d: bool): (n: nat)
    ensures n < 0x10
  {
    Bit(a) * 8 + Bit(b) * 4 + Bit(c) * 2 + Bit(d)
  }

  function FlagByte(f: Flags): byte {
    Nibble(f.cwr, f.ece, f.urg, f.ack) * 0x10 + Nibble(f.psh, f.rst, f.syn, f.fin)
  }

  function FlagsOf(b: byte): Flags {
    var high, low := b / 0x10, b % 0x10;
    Flags(high / 8 % 2 == 1, high / 4 % 2 == 1, high / 2 % 2 == 1, high % 2 == 1,
          low / 8 % 2 == 1, low / 4 % 2 == 1, low / 2 % 2 == 1, low % 2 == 1)
  }

  /** A TCP header and what follows it. */
  datatype Segment = Segment(srcPort: Bytes, dstPort: u16, numbers: Bytes, offset: byte, flags: Flags, trailer: Bytes,
                             rest: Bytes) {
    predicate Valid() {
      |srcPort| == 2 && |numbers| == 8 && |trailer| == 6
    }
  }

  function EncodeSegment(s: Segment): Bytes
    requires s.Valid()
  {
    s.srcPort + Be16(s.dstPort) + s.numbers + [s.offset, FlagByte(s.flags)] + s.trailer + s.rest
  }

  /** A first fragment that carries a whole TCP header inside its datagram, with SYN set and ACK clear. */
  ghost predicate CarriesBareSyn(p: Packet, s: Segment) {
    && p.Valid() && s.Valid() && p.payload == EncodeSegment(s)
    && p.proto == IPPROTO_TCP && p.fragOffset == 0 && p.HeaderLen() + TCP_LEN <= p.totLen
    && s.flags.syn && !s.flags.ack
  }

  // ---- Reading what was written ----

  lemma Be16RoundTrip(n: u16)
    ensures FromBe16(Be16(n)[0], Be16(n)[1]) == n
  {}

  lemma Be32RoundTrip(a: Ipv4Addr)
    ensures FromBe32(Be32(a)[0], Be32(a)[1], Be32(a)[2], Be32(a)[3]) == a
  {
    OctetsRebuild(a);
  }

  lemma NibbleBits(n: nat)
    requires n < 0x10
    ensures Nibble(n / 8 % 2 == 1, n / 4 % 2 == 1, n / 2 % 2 == 1, n % 2 == 1) == n
  {}

  /** Every byte is the flag byte of its own flags. */
  lemma FlagByteRoundTrip(b: byte)
    ensures FlagByte(FlagsOf(b)) == b
  {
    NibbleBits(b / 0x10);
    NibbleBits(b % 0x10);
    hide Nibble;
  }

  /** The two masks of the parse pick SYN and ACK out of the flag byte. */
  lemma MasksPickFlags(f: Flags)
    ensures FlagByte(f) / 2 % 2 == Bit(f.syn) && FlagByte(f) / 0x10 % 2 == Bit(f.ack)
  {
    var high, low := Nibble(f.cwr, f.ece, f.urg, f.ack), Nibble(f.psh, f.rst, f.syn, f.fin);
    NibbleMasks(f.cwr, f.ece, f.urg, f.ack);
    NibbleMasks(f.psh, f.rst, f.syn, f.fin);
    hide Nibble, Bit;
    MasksPickBits(high, low);
  }

  lemma NibbleMasks(a: bool, b: bool, c: bool, d: bool)
    ensures Nibble(a, b, c, d) % 2 == Bit(d) && Nibble(a, b, c, d) / 2 % 2 == Bit(c)
  {
    var n := Bit(a) * 4 + Bit(b) * 2 + Bit(c);
    assert Nibble(a, b, c, d) == 2 * n + Bit(d);
    assert n == 2 * (Bit(a) * 2 + Bit(b)) + Bit(c);
  }

  lemma MasksPickBits(high: nat, low: nat)
    requires low < 0x10
    ensures (high * 0x10 + low) / 2 % 2 == low / 2 % 2 && (high * 0x10 + low) / 0x10 % 2 == high % 2
  {
    assert (high * 0x10 + low) / 2 == high * 8 + low / 2;
    EvenPartVanishes(high * 4, low / 2);
    assert (high * 0x10 + low) / 0x10 == high;
  }

  lemma EvenPartVanishes(k: nat, n: nat)
    ensures (2 * k + n) % 2 == n % 2
  {}

  lemma HeaderAt(p: Packet)
    requires p.Valid()
    ensures PtrAt(Encode(p), 0, ETH_LEN) == Some(Ethernet(p))
    ensures PtrAt(Encode(p), ETH_LEN, IPV4_LEN) == Some(FixedHeader(p))
    ensures Encode(p)[ETH_LEN + p.HeaderLen()..] == p.payload
  {
    var frame := Encode(p);
    assert frame[0..ETH_LEN] == Ethernet(p);
    assert frame[ETH_LEN..ETH_LEN + IPV4_LEN] == FixedHeader(p);
  }

  /** Any encoded packet, with any header length from 20 to 60 bytes, parses to its own fields. */
  lemma EncodedPacketParses(p: Packet)
    requires p.Valid()
    ensures ParseL4Protocol(Encode(p)) == Some(V4(p.proto, p.src, p.HeaderLen(), p.totLen, p.fragOffset == 0))
  {
    HeaderAt(p);
    FieldsOfHeader(p);
    hide Encode, FixedHeader, FromBe32, Be32;
    assert Ethernet(p)[12] == 0x08 && Ethernet(p)[13] == 0;
  }

  lemma FieldsOfHeader(p: Packet)
    requires p.Valid()
    ensures var ip := FixedHeader(p);
            && ip[0] / 0x10 == 4 && ip[0] % 0x10 * 4 == p.HeaderLen()
            && FromBe16(ip[2], ip[3]) == p.totLen && FromBe16(ip[6], ip[7]) % 0x2000 == p.fragOffset
            && ip[9] == p.proto && FromBe32(ip[12], ip[13], ip[14], ip[15]) == p.src
  {
    Be32RoundTrip(p.src);
    hide Be32, FromBe32;
  }

  // ---- Writing what was read ----

  /** The packet that a frame is the encoding of. */
  function Decode(frame: Bytes, ipHdrLen: nat): Packet
    requires IPV4_LEN <= ipHdrLen && ETH_LEN + ipHdrLen <= |frame|
  {
    var ip := frame[ETH_LEN..ETH_LEN + IPV4_LEN];
    var frags := FromBe16(ip[6], ip[7]);
    Packet(frame[..12], ip[1], FromBe16(ip[2], ip[3]), ip[4..6], frags / 0x2000, frags % 0x2000,
           ip[8], ip[9], ip[10..12], FromBe32(ip[12], ip[13], ip[14], ip[15]), ip[16..20],
           frame[ETH_LEN + IPV4_LEN..ETH_LEN + ipHdrLen], frame[ETH_LEN + ipHdrLen..])
  }

  lemma Be16OfBytes(hi: byte, lo: byte)
    ensures Be16(FromBe16(hi, lo)) == [hi, lo]
  {}

  lemma Be32OfBytes(a: byte, b: byte, c: byte, d: byte)
    ensures Be32(FromBe32(a, b, c, d)) == [a, b, c, d]
  {
    var n := FromBe32(a, b, c, d);
    LastByte((a * 0x100 + b) * 0x100 + c, d);
    LastByte(a * 0x100 + b, c);
    LastByte(a, b);
    assert n == ((a * 0x100 + b) * 0x100 + c) * 0x100 + d;
    assert n / 0x1_0000 == n / 0x100 / 0x100 && n / 0x100_0000 == n / 0x100 / 0x100 / 0x100;
  }

  lemma LastByte(n: nat, b: byte)
    ensures (n * 0x100 + b) / 0x100 == n && (n * 0x100 + b) % 0x100 == b
  {}

  lemma VersionByte(vihl: byte, ipHdrLen: nat)
    requires vihl / 0x10 == 4 && vihl % 0x10 * 4 == ipHdrLen && IPV4_LEN <= ipHdrLen
    ensures 0x40 + ipHdrLen / 4 == vihl && (ipHdrLen - IPV4_LEN) % 4 == 0 && ipHdrLen - IPV4_LEN <= 40
  {
    var ihl := vihl % 0x10;
    assert ipHdrLen - IPV4_LEN == 4 * (ihl - 5);
  }

  lemma FragmentField(n: u16)
    ensures n / 0x2000 < 8 && n % 0x2000 < 0x2000 && n / 0x2000 * 0x2000 + n % 0x2000 == n
  {}

  ghost predicate LooksValid(frame: Bytes, ipHdrLen: nat) {
    && IPV4_LEN <= ipHdrLen && ETH_LEN + ipHdrLen <= |frame|
    && frame[ETH_LEN] / 0x10 == 4 && frame[ETH_LEN] % 0x10 * 4 == ipHdrLen
    && ipHdrLen <= FromBe16(frame[16], frame[17])
  }

  lemma DecodeIsValid(frame: Bytes, ipHdrLen: nat)
    requires LooksValid(frame, ipHdrLen)
    ensures Decode(frame, ipHdrLen).Valid() && Decode(frame, ipHdrLen).HeaderLen() == ipHdrLen
  {
    hide LooksValid, FromBe16, FromBe32;
    LooksValidMeans(frame, ipHdrLen);
    var ip := frame[ETH_LEN..ETH_LEN + IPV4_LEN];
    FragmentField(FromBe16(ip[6], ip[7]));
  }

  lemma LooksValidMeans(frame: Bytes, ipHdrLen: nat)
    requires LooksValid(frame, ipHdrLen)
    ensures IPV4_LEN <= ipHdrLen && ETH_LEN + ipHdrLen <= |frame| && ipHdrLen <= FromBe16(frame[16], frame[17])
    ensures (ipHdrLen - IPV4_LEN) % 4 == 0 && ipHdrLen - IPV4_LEN <= 40
  {
    VersionByte(frame[ETH_LEN], ipHdrLen);
    hide FromBe16;
  }

  lemma HeaderRoundTrip(frame: Bytes, ipHdrLen: nat)
    requires LooksValid(frame, ipHdrLen)
    ensures Decode(frame, ipHdrLen).Valid()
    ensures FixedHeader(Decode(frame, ipHdrLen)) == frame[ETH_LEN..ETH_LEN + IPV4_LEN]
  {
    var p, ip := Decode(frame, ipHdrLen), frame[ETH_LEN..ETH_LEN + IPV4_LEN];
    DecodeIsValid(frame, ipHdrLen);
    VersionByte(frame[ETH_LEN], ipHdrLen);
    FragmentField(FromBe16(ip[6], ip[7]));
    Be16OfBytes(ip[2], ip[3]);
    Be16OfBytes(ip[6], ip[7]);
    Be32OfBytes(ip[12], ip[13], ip[14], ip[15]);
    HeaderInPieces(ip, p);
  }

  /** A header is the one of `p` if every field of it is. */
  lemma HeaderInPieces(ip: Bytes, p: Packet)
    requires |ip| == IPV4_LEN && p.Valid()
    requires ip[0] == 0x40 + p.HeaderLen() / 4 && ip[1] == p.tos && [ip[2], ip[3]] == Be16(p.totLen)
             && ip[4..6] == p.ident
    requires [ip[6], ip[7]] == Be16(p.fragFlags * 0x2000 + p.fragOffset) && ip[8] == p.ttl && ip[9] == p.proto
    requires ip[10..12] == p.checksum && [ip[12], ip[13], ip[14], ip[15]] == Be32(p.src) && ip[16..20] == p.dst
    ensures FixedHeader(p) == ip
  {
    hide Be16, Be32;
    assert ip == [ip[0], ip[1]] + [ip[2], ip[3]] + ip[4..6] + [ip[6], ip[7]]
                 + [ip[8], ip[9]] + ip[10..12] + [ip[12], ip[13], ip[14], ip[15]] + ip[16..20];
  }

  /** A frame is seen as a valid IPv4 packet only if it is the encoding of one. */
  lemma ParsedFrameIsEncoded(frame: Bytes, ipHdrLen: nat)
    requires ParseL4Protocol(frame).Some? && ParseL4Protocol(frame).value.V4?
             && ParseL4Protocol(frame).value.ipHdrLen == ipHdrLen
    requires ETH_LEN + ipHdrLen <= |frame|
    ensures var p := Decode(frame, ipHdrLen); p.Valid() && frame == Encode(p)
  {
    HeaderRoundTrip(frame, ipHdrLen);
    Be16OfBytes(frame[12], frame[13]);
    hide FixedHeader, Be16, FromBe16, FromBe32;
    assert frame == frame[..12] + [frame[12], frame[13]] + frame[ETH_LEN..ETH_LEN + IPV4_LEN]
                    + frame[ETH_LEN + IPV4_LEN..ETH_LEN + ipHdrLen] + frame[ETH_LEN + ipHdrLen..];
  }

  // ---- Frames that are cut short ----

  /** What a valid packet is seen as. */
  function InfoOf(p: Packet): L3Info
    requires p.Valid()
  {
    V4(p.proto, p.src, p.HeaderLen(), p.totLen, p.fragOffset == 0)
  }

  /** The frame holds the fixed header of the packet, and is its encoding as far as it goes. */
  ghost predicate BeginsPacket(frame: Bytes, p: Packet, info: L3Info) {
    p.Valid() && ETH_LEN + IPV4_LEN <= |frame| && frame <= Encode(p) && info == InfoOf(p)
  }

  /** The fixed headers alone decide how an IPv4 frame is seen. */
  lemma HeadDecides(frame: Bytes, longer: Bytes)
    requires ETH_LEN + IPV4_LEN <= |frame| && frame <= longer
    requires ParseEthhdr(frame) == Some(ETHERTYPE_IPV4) || ParseEthhdr(longer) == Some(ETHERTYPE_IPV4)
    ensures ParseL4Protocol(frame) == ParseL4Protocol(longer)
  {
    assert PtrAt(frame, 0, ETH_LEN).value == PtrAt(longer, 0, ETH_LEN).value;
    assert PtrAt(frame, ETH_LEN, IPV4_LEN).value == PtrAt(longer, ETH_LEN, IPV4_LEN).value;
  }

  function Padding(n: nat): (r: Bytes)
    ensures |r| == n
  {
    seq(n, _ => 0)
  }

  /**
   On every string of bytes: a frame is seen as an IPv4 packet with these
   fields exactly when it begins the encoding of a valid packet that has them,
   with at least the fixed header in the frame. The options and the payload may
   be cut; a TCP header is looked for only where it is whole.
   */
  lemma V4IsExact(frame: Bytes, info: L3Info)
    requires info.V4?
    ensures ParseL4Protocol(frame) == Some(info) <==> exists p :: BeginsPacket(frame, p, info)
  {
    if ParseL4Protocol(frame) == Some(info) {
      SeenPacketBegins(frame, info);
    }
    if p :| BeginsPacket(frame, p, info) {
      EncodedPacketParses(p);
      EncodedIsIpv4(p);
      hide Encode, ParseIpv4hdr, FromBe16;
      HeadDecides(frame, Encode(p));
    }
  }

  lemma EncodedIsIpv4(p: Packet)
    requires p.Valid()
    ensures ParseEthhdr(Encode(p)) == Some(ETHERTYPE_IPV4)
  {
    HeaderAt(p);
    hide Encode;
    assert Ethernet(p)[12] == 0x08 && Ethernet(p)[13] == 0;
  }

  lemma SeenPacketBegins(frame: Bytes, info: L3Info)
    requires info.V4? && ParseL4Protocol(frame) == Some(info)
    ensures exists p :: BeginsPacket(frame, p, info)
  {
    var missing := if ETH_LEN + info.ipHdrLen <= |frame| then 0 else ETH_LEN + info.ipHdrLen - |frame|;
    var whole := frame + Padding(missing);
    assert frame <= whole;
    HeadDecides(frame, whole);
    ParsedFrameIsEncoded(whole, info.ipHdrLen);
    var p := Decode(whole, info.ipHdrLen);
    EncodedPacketParses(p);
    hide Encode, Decode, ParseIpv4hdr;
    assert BeginsPacket(frame, p, info);
  }

  function DecodeSegment(payload: Bytes): Segment
    requires TCP_LEN <= |payload|
  {
    Segment(payload[..2], FromBe16(payload[2], payload[3]), payload[4..12],
            payload[12], FlagsOf(payload[13]), payload[14..20], payload[20..])
  }

  lemma SegmentRoundTrip(payload: Bytes)
    requires TCP_LEN <= |payload|
    ensures DecodeSegment(payload).Valid() && EncodeSegment(DecodeSegment(payload)) == payload
  {
    Be16OfBytes(payload[2], payload[3]);
    FlagByteRoundTrip(payload[13]);
    hide Be16, FromBe16, FlagByte, FlagsOf;
    assert payload == payload[..2] + [payload[2], payload[3]] + payload[4..12]
                      + [payload[12], payload[13]] + payload[14..20] + payload[20..];
  }

  lemma EncodedSegmentParses(p: Packet, s: Segment)
    requires p.Valid() && s.Valid() && p.payload == EncodeSegment(s)
    ensures ParseTcpInfo(Encode(p), p.HeaderLen()) == Some(TcpInfo(s.flags.syn && !s.flags.ack, s.dstPort))
  {
    var frame, at := Encode(p), ETH_LEN + p.HeaderLen();
    HeaderAt(p);
    assert frame[at..at + TCP_LEN] == p.payload[..TCP_LEN];
    Be16RoundTrip(s.dstPort);
    MasksPickFlags(s.flags);
    hide Encode, Be16, FromBe16, FlagByte;
    assert p.payload[13] == FlagByte(s.flags) && p.payload[2] == Be16(s.dstPort)[0]
           && p.payload[3] == Be16(s.dstPort)[1];
  }

  ghost predicate EncodesBareSyn(frame: Bytes, p: Packet, s: Segment, syn: Syn) {
    CarriesBareSyn(p, s) && frame == Encode(p) && syn == Syn(p.src, s.dstPort)
  }

  /**
   On every string of bytes: a connection attempt is recorded, with this
   source and this port, exactly when the frame is the encoding of a first
   fragment that carries a bare SYN from that source to that port.
   */
  lemma BareSynIsExact(frame: Bytes, syn: Syn)
    ensures BareSyn(frame) == Some(syn) <==> exists p, s :: EncodesBareSyn(frame, p, s, syn)
  {
    if BareSyn(frame) == Some(syn) {
      RecordedSynIsEncoded(frame, syn);
    }
    if p, s :| EncodesBareSyn(frame, p, s, syn) {
      EncodedSynIsRecorded(p, s);
    }
  }

  lemma EncodedSynIsRecorded(p: Packet, s: Segment)
    requires CarriesBareSyn(p, s)
    ensures BareSyn(Encode(p)) == Some(Syn(p.src, s.dstPort))
  {
    EncodedPacketParses(p);
    EncodedSegmentParses(p, s);
    hide Encode, EncodeSegment, ParseL4Protocol, ParseTcpInfo;
  }

  lemma RecordedSynIsEncoded(frame: Bytes, syn: Syn)
    requires BareSyn(frame) == Some(syn)
    ensures exists p, s :: EncodesBareSyn(frame, p, s, syn)
  {
    hide Encode, EncodeSegment, Decode, DecodeSegment;
    var l3 := ParseL4Protocol(frame).value;
    ParsedFrameIsEncoded(frame, l3.ipHdrLen);
    var p := Decode(frame, l3.ipHdrLen);
    EncodedPacketParses(p);
    assert p.payload == frame[ETH_LEN + l3.ipHdrLen..] by { HeaderAt(p); }
    var s := DecodeSegment(p.payload);
    SegmentRoundTrip(p.payload);
    EncodedSegmentParses(p, s);
    assert EncodesBareSyn(frame, p, s, syn);
  }
}
