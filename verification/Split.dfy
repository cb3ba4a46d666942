/** src/packet/split.c: re-segmenting one captured TCP packet into two. */
module Split {
  import opened Bytes
  import opened Checksum
  import opened Packet

  // ---- IPv4 ----

  /** `r` is the piece of packet `k` that carries payload bytes lo..hi: same headers but for
      lengths, checksums and a sequence number moved on by `lo`, and both checksums verify. */
  predicate IsPiece(k: Packet4, lo: nat, hi: nat, r: Packet4)
    requires WellFormed(k) && lo <= hi <= |k.data|
  {
    && WellFormed(r)
    && r.data == k.data[lo..hi]
    && SeqNo(r) == SeqPlus(SeqNo(k), lo)
    && SameHeader(k.ip, r.ip, {2, 3, 10, 11})
    && SameHeader(k.tcp, r.tcp, {4, 5, 6, 7, 16, 17})
    && IpVerifies(r) && TcpVerifies(r)
  }

  /** Headers that differ from a well-formed packet's only where re-segmentation stores make a
      well-formed packet again. */
  lemma StillWellFormed(k: Packet4, r: Packet4)
    requires WellFormed(k)
    requires SameHeader(k.ip, r.ip, {2, 3, 10, 11}) && SameHeader(k.tcp, r.tcp, {4, 5, 6, 7, 16, 17})
    requires Be16(r.ip, 2) == |r.ip| + |r.tcp| + |r.data|
    ensures WellFormed(r)
    ensures r.ip[12..16] == k.ip[12..16] && r.ip[16..20] == k.ip[16..20]
  {
  }

  /** Length and checksums stored for a segment laid out in `out`, in the code's order. */
  method Finish(out: array<byte>, ihl: nat, n: nat,
                ghost k: Packet4, ghost lo: nat, ghost th: bytes, ghost chunk: bytes, ghost rest: bytes)
    returns (ghost r: Packet4)
    requires WellFormed(k) && lo + |chunk| <= |k.data| && chunk == k.data[lo..lo + |chunk|]
    requires SameHeader(k.tcp, th, {4, 5, 6, 7}) && Be32(th, 4) == SeqPlus(SeqNo(k), lo)
    requires ihl == |k.ip| && n == ihl + |th| + |chunk|
    requires out[..] == k.ip + (th + (chunk + rest))
    modifies out
    ensures out[..n] == Wire4(r) && IsPiece(k, lo, lo + |chunk|, r)
  {
    ghost var h1 := StoreLength(out, n, k.ip, th + (chunk + rest));
    ghost var h := SealHeader(out, ihl, h1, th + (chunk + rest));
    ghost var th' := SealTcp(out, ihl, n, h, th, chunk, rest);
    r := Packet4(h, th', chunk);
    assert out[..n] == Wire4(r);
    FinishedIsPiece(k, lo, h1, th, r);
  }

  lemma FinishedIsPiece(k: Packet4, lo: nat, h1: bytes, th: bytes, r: Packet4)
    requires WellFormed(k) && lo + |r.data| <= |k.data| && r.data == k.data[lo..lo + |r.data|]
    requires SameHeader(k.tcp, th, {4, 5, 6, 7}) && Be32(th, 4) == SeqPlus(SeqNo(k), lo)
    requires SameHeader(k.ip, h1, {2, 3}) && Be16(h1, 2) == |k.ip| + |th| + |r.data|
    requires SameHeader(h1, r.ip, {10, 11}) && Verifies(r.ip)
    requires SameHeader(th, r.tcp, {16, 17})
    requires Verifies(Pseudo4(r.ip[12..16], r.ip[16..20], |th| + |r.data|) + (r.tcp + r.data))
    ensures IsPiece(k, lo, lo + |r.data|, r)
  {
    assert Be16(r.ip, 2) == Be16(h1, 2);
    assert Be32(r.tcp, 4) == Be32(th, 4);
    StillWellFormed(k, r);
  }

  /** packet_split_tcp_v4. The outputs are the two complementary pieces of the packet; a packet
      that does not parse, or a cut that is not strictly inside the payload, leaves the buffers
      alone and reports why. */
  method SplitTcpV4(input: bytes, at: nat, out1: array<byte>, out2: array<byte>)
    returns (r: Result<(nat, nat)>, ghost s1: Packet4, ghost s2: Packet4)
    requires out1 != out2 && out1.Length >= |input| && out2.Length >= |input|
    modifies out1, out2
    ensures match Read4(input)
      case Err(e) => r == Err(e)
      case Ok(k) =>
        if !(0 < at < |k.data|) then r == Err(Malformed)
        else
          && r.Ok? && r.value.0 <= out1.Length && r.value.1 <= out2.Length
          && WellFormed(k)
          && out1[..r.value.0] == Wire4(s1) && IsPiece(k, 0, at, s1)
          && out2[..r.value.1] == Wire4(s2) && IsPiece(k, at, |k.data|, s2)
    ensures r.Err? ==> out1[..] == old(out1[..]) && out2[..] == old(out2[..])
  {
    s1, s2 := Packet4([], [], []), Packet4([], [], []);
    var views := Open(input);
    if views.Err? {
      r := Err(views.error);
      return;
    }
    var (ip, tcp) := views.value;
    ghost var k := Read4(input).value;
    if at == 0 || at >= |tcp.payload| {
      r := Err(Malformed);
      return;
    }
    var n1, n2;
    var hdrs := input[..ip.ihl + tcp.offset];
    n1, s1 := EmitFirst(hdrs, ip.ihl, tcp.payload[..at], k, out1);
    n2, s2 := EmitSecond(hdrs, ip.ihl, SeqPlus(tcp.seqNo, at), tcp.payload[at..], k, at, out2);
    r := Ok((n1, n2));
  }

  /** The first output: the headers, then the payload up to the cut. */
  method EmitFirst(hdrs: bytes, ihl: nat, chunk: bytes, ghost k: Packet4, out: array<byte>)
    returns (n: nat, ghost r: Packet4)
    requires WellFormed(k) && hdrs == k.ip + k.tcp && ihl == |k.ip|
    requires |chunk| <= |k.data| && chunk == k.data[0..|chunk|]
    requires |hdrs| + |chunk| <= out.Length
    modifies out
    ensures n <= out.Length && out[..n] == Wire4(r) && IsPiece(k, 0, |chunk|, r)
  {
    n := |hdrs| + |chunk|;
    ghost var rest := out[n..];
    CopyTwo(out, hdrs, chunk);
    assert out[..] == k.ip + (k.tcp + (chunk + rest));
    NoAdvance(SeqNo(k));
    r := Finish(out, ihl, n, k, 0, k.tcp, chunk, rest);
  }

  /** The second output: the headers with the sequence number moved on, then the rest. */
  method EmitSecond(hdrs: bytes, ihl: nat, seqNo: u32, chunk: bytes, ghost k: Packet4, ghost at: nat, out: array<byte>)
    returns (n: nat, ghost r: Packet4)
    requires WellFormed(k) && hdrs == k.ip + k.tcp && ihl == |k.ip|
    requires at <= |k.data| && chunk == k.data[at..]
    requires seqNo == SeqPlus(SeqNo(k), at)
    requires |hdrs| + |chunk| <= out.Length
    modifies out
    ensures n <= out.Length && out[..n] == Wire4(r) && IsPiece(k, at, |k.data|, r)
  {
    n := |hdrs| + |chunk|;
    ghost var rest := out[n..];
    CopyTwo(out, hdrs, chunk);
    assert out[..] == k.ip + (k.tcp + (chunk + rest));
    ghost var th := StoreSeq(out, ihl, seqNo, k.ip, k.tcp, chunk + rest);
    r := Finish(out, ihl, n, k, at, th, chunk, rest);
  }

  lemma NoAdvance(s: u32)
    ensures SeqPlus(s, 0) == s
  {
  }

  // ---- IPv6 ----

  /** The IPv6 counterpart of IsPiece (IPv6 has no header checksum). */
  predicate IsPiece6(k: Packet6, lo: nat, hi: nat, r: Packet6)
    requires WellFormed6(k) && lo <= hi <= |k.data|
  {
    && WellFormed6(r)
    && r.data == k.data[lo..hi]
    && SeqNo6(r) == SeqPlus(SeqNo6(k), lo)
    && SameHeader(k.ip, r.ip, {4, 5})
    && SameHeader(k.tcp, r.tcp, {4, 5, 6, 7, 16, 17})
    && TcpVerifies6(r)
  }

  lemma FinishedIsPiece6(k: Packet6, lo: nat, th: bytes, r: Packet6)
    requires WellFormed6(k) && lo + |r.data| <= |k.data| && r.data == k.data[lo..lo + |r.data|]
    requires SameHeader(k.tcp, th, {4, 5, 6, 7}) && Be32(th, 4) == SeqPlus(SeqNo6(k), lo)
    requires SameHeader(k.ip, r.ip, {4, 5}) && Be16(r.ip, 4) == |th| + |r.data|
    requires SameHeader(th, r.tcp, {16, 17})
    requires Verifies(Pseudo6(r.ip[8..24], r.ip[24..40], |th| + |r.data|) + (r.tcp + r.data))
    ensures IsPiece6(k, lo, lo + |r.data|, r)
  {
    assert Be32(r.tcp, 4) == Be32(th, 4);
  }

  method Finish6(out: array<byte>, n: nat, ghost k: Packet6, ghost lo: nat, ghost th: bytes, ghost chunk: bytes, ghost rest: bytes)
    returns (ghost r: Packet6)
    requires WellFormed6(k) && lo + |chunk| <= |k.data| && chunk == k.data[lo..lo + |chunk|]
    requires SameHeader(k.tcp, th, {4, 5, 6, 7}) && Be32(th, 4) == SeqPlus(SeqNo6(k), lo)
    requires n == IPV6_HEADER + |th| + |chunk|
    requires out[..] == k.ip + (th + (chunk + rest))
    modifies out
    ensures out[..n] == Wire6(r) && IsPiece6(k, lo, lo + |chunk|, r)
  {
    ghost var h := StoreLength6(out, n - IPV6_HEADER, k.ip, th + (chunk + rest));
    ghost var th' := SealTcp6(out, n - IPV6_HEADER, h, th, chunk, rest);
    r := Packet6(h, th', chunk);
    assert out[..n] == Wire6(r);
    FinishedIsPiece6(k, lo, th, r);
  }

  /** packet_split_tcp_v6. */
  method SplitTcpV6(input: bytes, at: nat, out1: array<byte>, out2: array<byte>)
    returns (r: Result<(nat, nat)>, ghost s1: Packet6, ghost s2: Packet6)
    requires out1 != out2 && out1.Length >= |input| && out2.Length >= |input|
    modifies out1, out2
    ensures match Read6(input)
      case Err(e) => r == Err(e)
      case Ok(k) =>
        if !(0 < at < |k.data|) then r == Err(Malformed)
        else
          && r.Ok? && r.value.0 <= out1.Length && r.value.1 <= out2.Length
          && WellFormed6(k)
          && out1[..r.value.0] == Wire6(s1) && IsPiece6(k, 0, at, s1)
          && out2[..r.value.1] == Wire6(s2) && IsPiece6(k, at, |k.data|, s2)
    ensures r.Err? ==> out1[..] == old(out1[..]) && out2[..] == old(out2[..])
  {
    s1, s2 := Packet6([], [], []), Packet6([], [], []);
    var ip := ParseIpv6(input);
    if ip.Err? {
      r := Err(ip.error);
      return;
    }
    var tcp := ParseTcp(ip.value.payload);
    if tcp.Err? {
      r := Err(tcp.error);
      return;
    }
    var payload := tcp.value.payload;
    if at == 0 || at >= |payload| {
      r := Err(Malformed);
      return;
    }
    ghost var k := Read6(input).value;
    ReadIsPrefix6(input);
    var hdrs := input[..IPV6_HEADER + tcp.value.offset];
    var n1, n2;
    n1, s1 := EmitFirst6(hdrs, payload[..at], k, out1);
    n2, s2 := EmitSecond6(hdrs, SeqPlus(tcp.value.seqNo, at), payload[at..], k, at, out2);
    r := Ok((n1, n2));
  }

  method EmitFirst6(hdrs: bytes, chunk: bytes, ghost k: Packet6, out: array<byte>)
    returns (n: nat, ghost r: Packet6)
    requires WellFormed6(k) && hdrs == k.ip + k.tcp
    requires |chunk| <= |k.data| && chunk == k.data[0..|chunk|]
    requires |hdrs| + |chunk| <= out.Length
    modifies out
    ensures n <= out.Length && out[..n] == Wire6(r) && IsPiece6(k, 0, |chunk|, r)
  {
    n := |hdrs| + |chunk|;
    ghost var rest := out[n..];
    CopyTwo(out, hdrs, chunk);
    assert out[..] == k.ip + (k.tcp + (chunk + rest));
    NoAdvance(SeqNo6(k));
    r := Finish6(out, n, k, 0, k.tcp, chunk, rest);
  }

  method EmitSecond6(hdrs: bytes, seqNo: u32, chunk: bytes, ghost k: Packet6, ghost at: nat, out: array<byte>)
    returns (n: nat, ghost r: Packet6)
    requires WellFormed6(k) && hdrs == k.ip + k.tcp
    requires at <= |k.data| && chunk == k.data[at..]
    requires seqNo == SeqPlus(SeqNo6(k), at)
    requires |hdrs| + |chunk| <= out.Length
    modifies out
    ensures n <= out.Length && out[..n] == Wire6(r) && IsPiece6(k, at, |k.data|, r)
  {
    n := |hdrs| + |chunk|;
    ghost var rest := out[n..];
    CopyTwo(out, hdrs, chunk);
    assert out[..] == k.ip + (k.tcp + (chunk + rest));
    ghost var th := StoreSeq(out, IPV6_HEADER, seqNo, k.ip, k.tcp, chunk + rest);
    r := Finish6(out, n, k, at, th, chunk, rest);
  }
}
