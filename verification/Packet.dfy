/** src/packet/ip.c and src/packet/tcp.c: bounds-checked views of IPv4, IPv6 and TCP headers. */
module Packet {
  import opened Bytes
  import opened Checksum

  datatype Error = Truncated | Malformed | Unsupported

  datatype Result<T> = Ok(value: T) | Err(error: Error)

  datatype Ipv4View = Ipv4View(ihl: nat, totalLen: nat, protocol: byte, payload: bytes)

  datatype Ipv6View = Ipv6View(nextHeader: byte, payload: bytes)

  datatype TcpView = TcpView(offset: nat, seqNo: u32, ack: u32, flags: byte, payload: bytes)

  const IPPROTO_TCP: byte := 6
  const IPV6_HEADER: nat := 40
  const MAX_DATAGRAM: nat := 0xFFFF

  function ParseIpv4(data: bytes): (r: Result<Ipv4View>)
    ensures r.Ok? ==> 20 <= r.value.ihl <= 60 && r.value.ihl <= r.value.totalLen <= |data|
                      && r.value.totalLen <= MAX_DATAGRAM
                      && r.value.payload == data[r.value.ihl..r.value.totalLen]
  {
    if |data| < 20 then Err(Truncated)
    else if data[0] / 16 != 4 then Err(Malformed)
    else
      var ihl := data[0] as int % 16 * 4;
      var totalLen := Be16(data, 2);
      if ihl < 20 || ihl > |data| then Err(Truncated)
      else if totalLen < ihl || totalLen > |data| then Err(Truncated)
      else if Be16(data, 6) % 0x4000 != 0 then Err(Unsupported)
      else Ok(Ipv4View(ihl, totalLen, data[9], data[ihl..totalLen]))
  }

  /** Why a packet is refused: too short for its header or its own length, another version, or one fragment. */
  lemma Refused4(data: bytes)
    ensures ParseIpv4(data) == Err(Malformed) <==> |data| >= 20 && !(0x40 <= data[0] <= 0x4F)
    ensures ParseIpv4(data) == Err(Unsupported) <==>
      && |data| >= 20 && 0x45 <= data[0] <= 0x4F && (data[0] as int - 0x40) * 4 <= Be16(data, 2) <= |data|
      && (data[6] / 32 % 2 == 1 || data[6] % 32 != 0 || data[7] != 0)
    ensures ParseIpv4(data).Ok? <==>
      && |data| >= 20 && 0x45 <= data[0] <= 0x4F && (data[0] as int - 0x40) * 4 <= Be16(data, 2) <= |data|
      && data[6] / 32 % 2 == 0 && data[6] % 32 == 0 && data[7] == 0
  {
    if |data| >= 20 {
      FragmentField(data[6], data[7]);
    }
  }

  lemma FragmentField(a: byte, b: byte)
    ensures (a as int * 0x100 + b) % 0x4000 == 0 <==> a / 32 % 2 == 0 && a % 32 == 0 && b == 0
  {
    assert (a as int * 0x100 + b) % 0x4000 == (a as int % 64) * 0x100 + b;
  }

  function ParseIpv6(data: bytes): (r: Result<Ipv6View>)
    ensures r.Ok? ==> IPV6_HEADER + |r.value.payload| <= |data| && |r.value.payload| <= MAX_DATAGRAM
                      && r.value.payload == data[IPV6_HEADER..IPV6_HEADER + |r.value.payload|]
                      && r.value.nextHeader == IPPROTO_TCP
  {
    if |data| < IPV6_HEADER then Err(Truncated)
    else if data[0] / 16 != 6 then Err(Malformed)
    else
      var n := Be16(data, 4);
      if n + IPV6_HEADER > |data| then Err(Truncated)
      else if data[6] != IPPROTO_TCP then Err(Unsupported)
      else Ok(Ipv6View(data[6], data[IPV6_HEADER..IPV6_HEADER + n]))
  }

  function ParseTcp(data: bytes): (r: Result<TcpView>)
    ensures r.Ok? ==> 20 <= r.value.offset <= 60 && r.value.offset <= |data|
                      && r.value.payload == data[r.value.offset..]
  {
    if |data| < 20 then Err(Truncated)
    else
      var offset := data[12] as int / 16 * 4;
      if offset < 20 || offset > |data| then Err(Truncated)
      else Ok(TcpView(offset, Be32(data, 4), Be32(data, 8), data[13], data[offset..]))
  }

  // ---- an IPv4/TCP packet as its three parts ----

  /** IP header, TCP header (both with options) and TCP payload. */
  datatype Packet4 = Packet4(ip: bytes, tcp: bytes, data: bytes)

  /** First byte 0x45..0x4F encodes version 4 and the header length in 4-byte words. */
  predicate VersionAndLength(h: bytes)
  {
    20 <= |h| <= 60 && h[0] as int * 4 == 0x100 + |h|
  }

  /** Neither a fragment nor followed by one (DF and the reserved bit do not matter). */
  predicate Whole(h: bytes)
    requires 20 <= |h|
  {
    h[6] in {0x00, 0x40, 0x80, 0xC0} && h[7] == 0
  }

  /** The upper half of TCP byte 12 is the header length in 4-byte words. */
  predicate DataOffset(th: bytes)
  {
    20 <= |th| <= 60 && |th| % 4 == 0 && |th| * 4 <= th[12] as int < |th| * 4 + 16
  }

  predicate WellFormed(k: Packet4)
  {
    && VersionAndLength(k.ip) && Whole(k.ip) && k.ip[9] == IPPROTO_TCP
    && Be16(k.ip, 2) == |k.ip| + |k.tcp| + |k.data|
    && DataOffset(k.tcp)
  }

  function Wire4(k: Packet4): (r: bytes)
  {
    k.ip + (k.tcp + k.data)
  }

  /** What the parsers make of a captured IPv4 packet (bytes after its total length are ignored). */
  function Read4(p: bytes): (r: Result<Packet4>)
  {
    match ParseIpv4(p)
    case Err(e) => Err(e)
    case Ok(ip) =>
      if ip.protocol != IPPROTO_TCP then Err(Unsupported)
      else
        match ParseTcp(ip.payload)
        case Err(e) => Err(e)
        case Ok(tcp) => Ok(Packet4(p[..ip.ihl], ip.payload[..tcp.offset], tcp.payload))
  }

  lemma ParsedHeader(p: bytes)
    requires ParseIpv4(p).Ok?
    ensures VersionAndLength(p[..ParseIpv4(p).value.ihl]) && Whole(p[..ParseIpv4(p).value.ihl])
  {
    assert p[0] as int == p[0] / 16 * 16 + p[0] % 16;
    NoFragment(p[6], p[7]);
  }

  lemma NoFragment(a: byte, b: byte)
    requires (a as int * 0x100 + b) % 0x4000 == 0
    ensures a in {0x00, 0x40, 0x80, 0xC0} && b == 0
  {
    assert a % 0x40 == 0 && b == 0;
  }

  lemma ParsedTcp(seg: bytes)
    requires ParseTcp(seg).Ok?
    ensures DataOffset(seg[..ParseTcp(seg).value.offset])
  {
  }

  /** The two parsers' views of input that reads as packet `k`. */
  predicate Views(input: bytes, k: Packet4, ip: Ipv4View, tcp: TcpView)
  {
    && WellFormed(k) && Wire4(k) <= input
    && ip.ihl == |k.ip| && input[..ip.ihl] == k.ip && ip.payload == k.tcp + k.data
    && tcp.offset == |k.tcp| && tcp.payload == k.data && tcp.seqNo == SeqNo(k)
  }

  /** What packet_split_tcp_v4, packet_fragment_ipv4 and packet_make_fake_tcp_v4 all begin with.
      Reading yields a well-formed packet that is a prefix of the input ... */
  method Open(input: bytes) returns (r: Result<(Ipv4View, TcpView)>)
    ensures match Read4(input)
      case Err(e) => r == Err(e)
      case Ok(k) => r.Ok? && Views(input, k, r.value.0, r.value.1)
  {
    var ip := ParseIpv4(input);
    if ip.Err? {
      return Err(ip.error);
    }
    if ip.value.protocol != IPPROTO_TCP {
      return Err(Unsupported);
    }
    var tcp := ParseTcp(ip.value.payload);
    if tcp.Err? {
      return Err(tcp.error);
    }
    ParsedHeader(input);
    ParsedTcp(ip.value.payload);
    r := Ok((ip.value, tcp.value));
  }

  /** ... and every well-formed packet is read back exactly, whatever follows it. */
  lemma ReadWire(k: Packet4, rest: bytes)
    requires WellFormed(k)
    ensures Read4(Wire4(k) + rest) == Ok(k)
  {
    var p := Wire4(k) + rest;
    ParseParts4(k.ip, k.tcp + k.data, rest);
    ParsePartsTcp(k.tcp, k.data);
    assert p == k.ip + (k.tcp + k.data) + rest;
    assert p[..|k.ip|] == k.ip;
    assert (k.tcp + k.data)[..|k.tcp|] == k.tcp;
  }

  lemma ReadPrefix(k: Packet4, w: bytes)
    requires WellFormed(k) && Wire4(k) <= w
    ensures Read4(w) == Ok(k)
  {
    ReadWire(k, w[|Wire4(k)|..]);
    assert Wire4(k) + w[|Wire4(k)|..] == w;
  }

  function SeqNo(k: Packet4): u32
    requires WellFormed(k)
  {
    Be32(k.tcp, 4)
  }

  /** Sequence arithmetic, modulo 2^32. */
  function SeqPlus(s: u32, n: nat): u32
  {
    (s + n) % 0x1_0000_0000
  }

  // ---- the two checksums of a packet ----

  function Pseudo(k: Packet4): (r: bytes)
    requires WellFormed(k)
    ensures |r| == 12
  {
    Pseudo4(k.ip[12..16], k.ip[16..20], |k.tcp| + |k.data|)
  }

  /** The IPv4 header checksum is right. */
  predicate IpVerifies(k: Packet4)
  {
    Verifies(k.ip)
  }

  /** The TCP checksum, over the pseudo-header, is right. */
  predicate TcpVerifies(k: Packet4)
    requires WellFormed(k)
  {
    Verifies(Pseudo(k) + (k.tcp + k.data))
  }

  /** Two headers of equal length that agree outside the listed offsets. */
  predicate SameHeader(a: bytes, b: bytes, except: set<int>)
  {
    |a| == |b| && forall i :: 0 <= i < |a| && i !in except ==> a[i] == b[i]
  }

  /** An IPv4 packet is parsed from its header and body separately. */
  lemma ParseParts4(h: bytes, body: bytes, rest: bytes)
    requires VersionAndLength(h) && Whole(h)
    requires Be16(h, 2) == |h| + |body|
    ensures ParseIpv4(h + body + rest) == Ok(Ipv4View(|h|, |h| + |body|, h[9], body))
  {
    assert (h + body + rest)[|h|..|h| + |body|] == body;
  }

  /** A TCP segment is parsed from its header and payload separately. */
  lemma ParsePartsTcp(th: bytes, chunk: bytes)
    requires DataOffset(th)
    ensures ParseTcp(th + chunk) == Ok(TcpView(|th|, Be32(th, 4), Be32(th, 8), th[13], chunk))
  {
    assert (th + chunk)[|th|..] == chunk;
  }

  // ---- building packets in place ----

  // Each method sees the buffer as header, TCP header, data and the bytes after the packet, and
  // hands back the new value of the part it stored into.

  /** memcpy of two consecutive pieces to the front of a buffer. */
  method CopyTwo(out: array<byte>, a: bytes, b: bytes)
    requires |a| + |b| <= out.Length
    modifies out
    ensures out[..] == a + (b + old(out[|a| + |b|..]))
  {
    Copy(out, 0, a);
    Copy(out, |a|, b);
  }

  /** A 16-bit store into the IP header. */
  method StoreInHeader(out: array<byte>, at: nat, v: u16, ghost h: bytes, ghost rest: bytes) returns (ghost h': bytes)
    requires out[..] == h + rest && at + 2 <= |h|
    modifies out
    ensures out[..] == h' + rest
    ensures h' == Put16(h, at, v)
  {
    OverlayLeft(h, rest, at, Enc16(v));
    Store16(out, at, v);
    h' := Put16(h, at, v);
  }

  method StoreFlags(out: array<byte>, v: u16, ghost h: bytes, ghost rest: bytes) returns (ghost h': bytes)
    requires out[..] == h + rest && 20 <= |h|
    modifies out
    ensures out[..] == h' + rest
    ensures SameHeader(h, h', {6, 7}) && Be16(h', 6) == v
  {
    h' := StoreInHeader(out, 6, v, h, rest);
  }

  method StoreLength(out: array<byte>, n: u16, ghost h: bytes, ghost rest: bytes) returns (ghost h': bytes)
    requires out[..] == h + rest && 20 <= |h|
    modifies out
    ensures out[..] == h' + rest
    ensures SameHeader(h, h', {2, 3}) && Be16(h', 2) == n
  {
    h' := StoreInHeader(out, 2, n, h, rest);
  }

  /** The header checksum recomputed: the header verifies and nothing else in it changed. */
  method SealHeader(out: array<byte>, ihl: nat, ghost h: bytes, ghost rest: bytes) returns (ghost h': bytes)
    requires out[..] == h + rest && 20 <= ihl <= 60 && |h| == ihl
    modifies out
    ensures out[..] == h' + rest
    ensures SameHeader(h, h', {10, 11}) && Verifies(h')
  {
    ghost var h0 := StoreInHeader(out, 10, 0, h, rest);
    assert out[..ihl] == h0;
    var c := Checksum.Ipv4Header(out[..ihl]);
    h' := StoreInHeader(out, 10, c, h0, rest);
    FieldVerifies([], h0, 10);
    assert [] + h' == h';
  }

  lemma SegmentIn(w: bytes, h: bytes, th: bytes, data: bytes, rest: bytes)
    requires w == h + (th + (data + rest)) && 20 <= |h|
    ensures w[12..16] == h[12..16] && w[16..20] == h[16..20] && w[|h|..|h| + |th| + |data|] == th + data
  {
  }

  /** The TCP checksum recomputed: the segment verifies and nothing else in it changed. */
  method SealTcp(out: array<byte>, ihl: nat, n: nat, ghost h: bytes, ghost th: bytes, ghost data: bytes, ghost rest: bytes)
    returns (ghost th': bytes)
    requires out[..] == h + (th + (data + rest)) && 20 <= ihl <= 60 && |h| == ihl
    requires 20 <= |th| && n == ihl + |th| + |data| <= MAX_DATAGRAM
    modifies out
    ensures out[..] == h + (th' + (data + rest))
    ensures SameHeader(th, th', {16, 17})
    ensures Verifies(Pseudo4(h[12..16], h[16..20], |th| + |data|) + (th' + data))
  {
    ghost var th0 := StoreInTcp(out, ihl, 16, Enc16(0), h, th, data + rest);
    ghost var pseudo := Pseudo4(h[12..16], h[16..20], |th| + |data|);
    SegmentIn(out[..], h, th0, data, rest);
    assert out[12..16] == h[12..16] && out[16..20] == h[16..20] && out[ihl..n] == th0 + data;
    var c := Checksum.TcpV4(out[12..16], out[16..20], out[ihl..n]);
    th' := StoreInTcp(out, ihl, 16, Enc16(c), h, th0, data + rest);
    OverlayLeft(th0, data, 16, Enc16(c));
    FieldVerifies(pseudo, th0 + data, 16);
  }

  /** A store into the TCP header. */
  method StoreInTcp(out: array<byte>, ihl: nat, at: nat, d: bytes, ghost h: bytes, ghost th: bytes, ghost rest: bytes)
    returns (ghost th': bytes)
    requires out[..] == h + (th + rest) && |h| == ihl && at + |d| <= |th|
    modifies out
    ensures out[..] == h + (th' + rest)
    ensures th' == Overlay(th, at, d)
  {
    th' := OverlayMiddle(h, th, rest, at, d);
    Copy(out, ihl + at, d);
  }

  lemma OverlayMiddle(h: bytes, th: bytes, rest: bytes, at: nat, d: bytes) returns (th': bytes)
    requires at + |d| <= |th|
    ensures th' == Overlay(th, at, d) && Overlay(h + (th + rest), |h| + at, d) == h + (th' + rest)
  {
    OverlayRight(h, th + rest, at, d);
    OverlayLeft(th, rest, at, d);
    th' := Overlay(th, at, d);
  }

  /** The 32-bit sequence number stored into the TCP header. */
  method StoreSeq(out: array<byte>, ihl: nat, v: u32, ghost h: bytes, ghost th: bytes, ghost rest: bytes)
    returns (ghost th': bytes)
    requires out[..] == h + (th + rest) && |h| == ihl && 20 <= |th|
    modifies out
    ensures out[..] == h + (th' + rest)
    ensures SameHeader(th, th', {4, 5, 6, 7}) && Be32(th', 4) == v
  {
    th' := StoreInTcp(out, ihl, 4, Enc32(v), h, th, rest);
    assert th' == Put32(th, 4, v);
  }

  // ---- the same for IPv6 ----

  /** Fixed IPv6 header, TCP header and TCP payload. */
  datatype Packet6 = Packet6(ip: bytes, tcp: bytes, data: bytes)

  predicate WellFormed6(k: Packet6)
  {
    && |k.ip| == IPV6_HEADER && k.ip[0] / 16 == 6 && k.ip[6] == IPPROTO_TCP
    && Be16(k.ip, 4) == |k.tcp| + |k.data|
    && DataOffset(k.tcp)
  }

  function SeqNo6(k: Packet6): u32
    requires WellFormed6(k)
  {
    Be32(k.tcp, 4)
  }

  function Wire6(k: Packet6): (r: bytes)
  {
    k.ip + (k.tcp + k.data)
  }

  function Read6(p: bytes): (r: Result<Packet6>)
  {
    match ParseIpv6(p)
    case Err(e) => Err(e)
    case Ok(ip) =>
      match ParseTcp(ip.payload)
      case Err(e) => Err(e)
      case Ok(tcp) => Ok(Packet6(p[..IPV6_HEADER], ip.payload[..tcp.offset], tcp.payload))
  }

  lemma ReadIsPrefix6(p: bytes)
    requires Read6(p).Ok?
    ensures var k := Read6(p).value;
      && WellFormed6(k) && Wire6(k) <= p
      && p[..IPV6_HEADER + |k.tcp|] == k.ip + k.tcp
      && Be32(k.tcp, 4) == ParseTcp(ParseIpv6(p).value.payload).value.seqNo
  {
  }

  lemma ReadWire6(k: Packet6)
    requires WellFormed6(k)
    ensures Read6(Wire6(k)) == Ok(k)
  {
    var p := Wire6(k);
    assert p[..IPV6_HEADER] == k.ip;
    assert p[IPV6_HEADER..IPV6_HEADER + Be16(p, 4)] == k.tcp + k.data;
    ParsePartsTcp(k.tcp, k.data);
    assert (k.tcp + k.data)[..|k.tcp|] == k.tcp;
  }

  predicate TcpVerifies6(k: Packet6)
    requires WellFormed6(k)
  {
    Verifies(Pseudo6(k.ip[8..24], k.ip[24..40], |k.tcp| + |k.data|) + (k.tcp + k.data))
  }

  method StoreLength6(out: array<byte>, n: u16, ghost h: bytes, ghost rest: bytes) returns (ghost h': bytes)
    requires out[..] == h + rest && |h| == IPV6_HEADER
    modifies out
    ensures out[..] == h' + rest
    ensures SameHeader(h, h', {4, 5}) && Be16(h', 4) == n
  {
    h' := StoreInHeader(out, 4, n, h, rest);
  }

  lemma SegmentIn6(w: bytes, h: bytes, th: bytes, data: bytes, rest: bytes)
    requires w == h + (th + (data + rest)) && |h| == IPV6_HEADER
    ensures w[8..24] == h[8..24] && w[24..40] == h[24..40] && w[40..40 + |th| + |data|] == th + data
  {
  }

  method SealTcp6(out: array<byte>, n: nat, ghost h: bytes, ghost th: bytes, ghost data: bytes, ghost rest: bytes)
    returns (ghost th': bytes)
    requires out[..] == h + (th + (data + rest)) && |h| == IPV6_HEADER
    requires 20 <= |th| && n == |th| + |data| <= MAX_DATAGRAM
    modifies out
    ensures out[..] == h + (th' + (data + rest))
    ensures SameHeader(th, th', {16, 17})
    ensures Verifies(Pseudo6(h[8..24], h[24..40], |th| + |data|) + (th' + data))
  {
    ghost var th0 := StoreInTcp(out, IPV6_HEADER, 16, Enc16(0), h, th, data + rest);
    ghost var pseudo := Pseudo6(h[8..24], h[24..40], |th| + |data|);
    SegmentIn6(out[..], h, th0, data, rest);
    assert out[8..24] == h[8..24] && out[24..40] == h[24..40] && out[40..40 + n] == th0 + data;
    var c := Checksum.TcpV6(out[8..24], out[24..40], out[40..40 + n]);
    th' := StoreInTcp(out, IPV6_HEADER, 16, Enc16(c), h, th0, data + rest);
    OverlayLeft(th0, data, 16, Enc16(c));
    FieldVerifies(pseudo, th0 + data, 16);
  }
}
