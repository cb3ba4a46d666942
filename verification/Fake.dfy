/** src/packet/fake.c: the decoy packet. */
module Fake {
  import opened Bytes
  import opened Checksum
  import opened Packet

  /** `r` is the decoy of `k`: the same packet with another TTL, a right header checksum and the
      TCP checksum field complemented. */
  predicate IsDecoy(k: Packet4, ttl: byte, r: Packet4)
    requires WellFormed(k)
  {
    && WellFormed(r)
    && r.data == k.data
    && SameHeader(k.ip, r.ip, {8, 10, 11}) && r.ip[8] == ttl
    && SameHeader(k.tcp, r.tcp, {16, 17}) && Be16(r.tcp, 16) == 0xFFFF - Be16(k.tcp, 16)
    && IpVerifies(r)
  }

  /** The decoy's TCP checksum. The code's comment calls it always invalid; in one's-complement
      arithmetic it is, except that the two encodings of zero complement into each other. */
  lemma DecoyChecksum(k: Packet4, ttl: byte, r: Packet4)
    requires WellFormed(k) && TcpVerifies(k) && IsDecoy(k, ttl, r)
    ensures TcpVerifies(r) <==> Be16(k.tcp, 16) == 0 || Be16(k.tcp, 16) == 0xFFFF
  {
    DecoyPseudo(k, ttl, r);
    DecoyBytes(k, ttl, r);
    ComplementedField(Pseudo(k), k.tcp + k.data, 16);
  }

  lemma DecoyPseudo(k: Packet4, ttl: byte, r: Packet4)
    requires WellFormed(k) && IsDecoy(k, ttl, r)
    ensures Pseudo(r) == Pseudo(k) && WordSum(Pseudo(k)) > 0
  {
    assert r.ip[12..16] == k.ip[12..16] && r.ip[16..20] == k.ip[16..20];
    PseudoSum4(k.ip[12..16], k.ip[16..20], |k.tcp| + |k.data|);
  }

  lemma DecoyBytes(k: Packet4, ttl: byte, r: Packet4)
    requires WellFormed(k) && IsDecoy(k, ttl, r)
    ensures Be16(k.tcp + k.data, 16) == Be16(k.tcp, 16)
    ensures r.tcp + r.data == Put16(k.tcp + k.data, 16, 0xFFFF - Be16(k.tcp + k.data, 16))
  {
    var c: u16 := 0xFFFF - Be16(k.tcp, 16);
    assert Be16(k.tcp + k.data, 16) == Be16(k.tcp, 16);
    SameField(r.tcp, Put16(k.tcp, 16, c), 16);
    OverlayLeft(k.tcp, k.data, 16, Enc16(c));
  }

  /** The words of a 20-octet header. */
  predicate Words(h: bytes, w0: u16, w1: u16, w2: u16, w3: u16, w4: u16, w5: u16, w6: u16, w7: u16, w8: u16, w9: u16)
  {
    && |h| == 20 && Be16(h, 0) == w0 && Be16(h, 2) == w1 && Be16(h, 4) == w2 && Be16(h, 6) == w3 && Be16(h, 8) == w4
    && Be16(h, 10) == w5 && Be16(h, 12) == w6 && Be16(h, 14) == w7 && Be16(h, 16) == w8 && Be16(h, 18) == w9
  }

  lemma WordFrom(h: bytes, i: nat)
    requires i + 2 <= |h|
    ensures WordSum(h[i..]) == Be16(h, i) + WordSum(h[i + 2..])
  {
    assert h[i..][2..] == h[i + 2..];
  }

  lemma FiveWords(h: bytes)
    requires |h| >= 10
    ensures WordSum(h) == Be16(h, 0) + Be16(h, 2) + Be16(h, 4) + Be16(h, 6) + Be16(h, 8) + WordSum(h[10..])
  {
    assert h[0..] == h;
    WordFrom(h, 0);
    WordFrom(h, 2);
    WordFrom(h, 4);
    WordFrom(h, 6);
    WordFrom(h, 8);
  }

  lemma TenWords(h: bytes)
    requires |h| == 20
    ensures WordSum(h) == Be16(h, 0) + Be16(h, 2) + Be16(h, 4) + Be16(h, 6) + Be16(h, 8)
                        + Be16(h, 10) + Be16(h, 12) + Be16(h, 14) + Be16(h, 16) + Be16(h, 18)
  {
    FiveWords(h);
    FiveWords(h[10..]);
    assert h[10..][10..] == [];
  }

  /** A packet from port 0xAFE4 with no addresses, whose TCP checksum field is 0x0000, and rightly so:
      its decoy's, 0xFFFF, is as right. */
  lemma DecoyCanVerify(k: Packet4, r: Packet4)
    requires Words(k.ip, 0x4500, 41, 0, 0, 0x0106, 0xB9D0, 0, 0, 0, 0)
    requires Words(k.tcp, 0xAFE4, 0, 0, 0, 0, 0, 0x5000, 0, 0, 0) && k.data == [0]
    requires r == k.(tcp := Put16(k.tcp, 16, 0xFFFF))
    ensures WellFormed(k) && TcpVerifies(k) && IsDecoy(k, 1, r) && TcpVerifies(r)
  {
    TenWords(k.ip);
    OneDatagram(k);
    DecoyChecksum(k, 1, r);
  }

  lemma OneDatagram(k: Packet4)
    requires Words(k.ip, 0x4500, 41, 0, 0, 0x0106, 0xB9D0, 0, 0, 0, 0)
    requires Words(k.tcp, 0xAFE4, 0, 0, 0, 0, 0, 0x5000, 0, 0, 0) && k.data == [0]
    ensures WellFormed(k) && TcpVerifies(k)
  {
    SmallDatagram(k, 0xB9D0);
    TenWords(k.tcp);
  }

  /** The sums of a packet with no options and no addresses. */
  lemma SmallDatagram(k: Packet4, sum: u16)
    requires |k.data| <= 2 && Words(k.ip, 0x4500, 40 + |k.data|, 0, 0, 0x0106, sum, 0, 0, 0, 0) && |k.tcp| == 20 && k.tcp[12] == 0x50
    ensures WellFormed(k) && WordSum(k.ip) == 0x4606 + 40 + |k.data| + sum
    ensures WordSum(Pseudo(k) + (k.tcp + k.data)) == 26 + |k.data| + WordSum(k.tcp) + WordSum(k.data)
  {
    TenWords(k.ip);
    assert WellFormed(k);
    NoAddresses(k.ip[12..16], k.ip[16..20], 20 + |k.data|);
    WordSumConcat(k.tcp, k.data);
    WordSumConcat(Pseudo(k), k.tcp + k.data);
  }

  lemma NoAddresses(src: bytes, dst: bytes, n: u16)
    requires |src| == 4 && |dst| == 4 && (forall i :: 0 <= i < 4 ==> src[i] == 0) && forall i :: 0 <= i < 4 ==> dst[i] == 0
    ensures WordSum(Pseudo4(src, dst, n)) == 6 + n
  {
    PseudoSum4(src, dst, n);
    Zeros(src);
    Zeros(dst);
    LengthWords([0, 6], Enc16(n));
  }

  lemma LengthWords(a: bytes, b: bytes)
    requires |a| == 2 && |b| == 2
    ensures WordSum(a + b) == Be16(a, 0) + Be16(b, 0)
  {
    WordSumConcat(a, b);
    assert a[2..] == [] && b[2..] == [];
    assert WordSum([]) == 0;
  }

  lemma {:induction false} Zeros(s: bytes)
    requires forall i :: 0 <= i < |s| ==> s[i] == 0
    ensures WordSum(s) == 0
  {
    if |s| > 1 {
      Zeros(s[2..]);
    }
  }

  /** Equal 16-bit fields are equal bytes. */
  lemma SameField(a: bytes, b: bytes, i: nat)
    requires i + 2 <= |a| && SameHeader(a, b, {i, i + 1}) && Be16(a, i) == Be16(b, i)
    ensures a == b
  {
  }

  /** packet_make_fake_tcp_v4. */
  method MakeFakeTcpV4(input: bytes, ttl: byte, out: array<byte>)
    returns (r: Result<nat>, ghost d: Packet4)
    requires out.Length >= |input|
    modifies out
    ensures match Read4(input)
      case Err(e) => r == Err(e)
      case Ok(k) =>
        if k.data == [] then r == Err(Malformed)
        else
          && WellFormed(k) && r == Ok(|input|) && IsDecoy(k, ttl, d)
          && |Wire4(d)| == |Wire4(k)| <= |input| && out[..|input|] == Wire4(d) + input[|Wire4(k)|..]
    ensures r.Err? ==> out[..] == old(out[..])
  {
    d := Packet4([], [], []);
    var views := Open(input);
    if views.Err? {
      r := Err(views.error);
      return;
    }
    var (ip, tcp) := views.value;
    ghost var k := Read4(input).value;
    if |tcp.payload| == 0 {
      r := Err(Malformed);
      return;
    }
    d := Emit(input, ip.ihl, ttl, k, out);
    r := Ok(|input|);
  }

  /** The packet copied, its TTL and header checksum stored and its TCP checksum complemented. */
  method Emit(input: bytes, ihl: nat, ttl: byte, ghost k: Packet4, out: array<byte>) returns (ghost d: Packet4)
    requires WellFormed(k) && Wire4(k) <= input && ihl == |k.ip| && |input| <= out.Length
    modifies out
    ensures IsDecoy(k, ttl, d) && |Wire4(d)| == |Wire4(k)| && out[..|input|] == Wire4(d) + input[|Wire4(k)|..]
  {
    ghost var after, rest := CopyPacket(input, k, out);
    ghost var h := StoreTtl(out, ttl, k.ip, k.tcp + (k.data + rest));
    ghost var h' := SealHeader(out, ihl, h, k.tcp + (k.data + rest));
    ghost var th := Complement(out, ihl, h', k.tcp, k.data + rest);
    d := Packet4(h', th, k.data);
    DecoyParts(k, ttl, h, d);
    PrefixOf(out[..], h', th, k.data, after, rest, |input|);
  }

  /** The input copied to the front of the buffer, seen as the packet and what follows it. */
  method CopyPacket(input: bytes, ghost k: Packet4, out: array<byte>) returns (ghost after: bytes, ghost rest: bytes)
    requires Wire4(k) <= input && |input| <= out.Length
    modifies out
    ensures out[..] == k.ip + (k.tcp + (k.data + rest)) && after == input[|Wire4(k)|..] && after <= rest
  {
    after := input[|Wire4(k)|..];
    rest := after + out[|input|..];
    CopyTwo(out, input, []);
  }

  lemma PrefixOf(out: bytes, h: bytes, th: bytes, data: bytes, after: bytes, rest: bytes, n: nat)
    requires out == h + (th + (data + rest)) && after <= rest && |h| + |th| + |data| + |after| == n
    ensures out[..n] == h + (th + data) + after
  {
  }

  lemma DecoyParts(k: Packet4, ttl: byte, h: bytes, d: Packet4)
    requires WellFormed(k) && d.data == k.data
    requires SameHeader(k.ip, h, {8}) && h[8] == ttl
    requires SameHeader(h, d.ip, {10, 11}) && Verifies(d.ip)
    requires SameHeader(k.tcp, d.tcp, {16, 17}) && Be16(d.tcp, 16) == 0xFFFF - Be16(k.tcp, 16)
    ensures IsDecoy(k, ttl, d)
  {
    assert Be16(d.ip, 2) == Be16(k.ip, 2);
  }

  method StoreTtl(out: array<byte>, ttl: byte, ghost h: bytes, ghost rest: bytes) returns (ghost h': bytes)
    requires out[..] == h + rest && 20 <= |h|
    modifies out
    ensures out[..] == h' + rest
    ensures SameHeader(h, h', {8}) && h'[8] == ttl
  {
    out[8] := ttl;
    h' := h[8 := ttl];
  }

  /** *checksum_field = ~*checksum_field */
  method Complement(out: array<byte>, ihl: nat, ghost h: bytes, ghost th: bytes, ghost rest: bytes) returns (ghost th': bytes)
    requires out[..] == h + (th + rest) && |h| == ihl && 20 <= |th|
    modifies out
    ensures out[..] == h + (th' + rest)
    ensures SameHeader(th, th', {16, 17}) && Be16(th', 16) == 0xFFFF - Be16(th, 16)
  {
    var c: u16 := 0xFFFF - Be16(out[ihl + 16..ihl + 18], 0);
    assert c == 0xFFFF - Be16(th, 16);
    th' := StoreInTcp(out, ihl, 16, Enc16(c), h, th, rest);
    assert th' == Put16(th, 16, c);
  }
}
