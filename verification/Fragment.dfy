/** src/packet/fragment.c: IPv4 fragmentation (section 3.2 of RFC 791) of one complete datagram. */
module Fragment {
  import opened Bytes
  import opened Checksum
  import opened Packet

  const FRAG_UNIT: nat := 8
  const FLAG_MF: u16 := 0x2000

  /** A fragment boundary must be a whole number of 8-byte units: the least one not before `n`. */
  function RoundUp(n: nat): (f: nat)
    ensures f % FRAG_UNIT == 0 && n <= f < n + FRAG_UNIT
  {
    (n + FRAG_UNIT - 1) / FRAG_UNIT * FRAG_UNIT
  }

  /** `w` is a fragment of `k`: the header of `k` with length, fragment field `flags` and a right
      checksum, followed by bytes lo..hi of its IP payload. */
  predicate IsFragment(k: Packet4, flags: u16, lo: nat, hi: nat, w: bytes)
    requires WellFormed(k) && lo <= hi <= |k.tcp| + |k.data|
  {
    && |w| == |k.ip| + (hi - lo)
    && SameHeader(k.ip, w[..|k.ip|], {2, 3, 6, 7, 10, 11})
    && Be16(w, 2) == |w| && Be16(w, 6) == flags
    && Verifies(w[..|k.ip|])
    && w[|k.ip|..] == (k.tcp + k.data)[lo..hi]
  }

  /** One fragment laid out and its header fields stored. */
  method Emit(h: bytes, body: bytes, flags: u16, ghost k: Packet4, ghost lo: nat, ghost hi: nat, out: array<byte>)
    returns (n: nat)
    requires WellFormed(k) && lo <= hi <= |k.tcp| + |k.data|
    requires h == k.ip && body == (k.tcp + k.data)[lo..hi]
    requires |h| + |body| <= out.Length
    modifies out
    ensures n <= out.Length && IsFragment(k, flags, lo, hi, out[..n])
  {
    n := |h| + |body|;
    ghost var rest := out[n..];
    CopyTwo(out, h, body);
    ghost var h1 := StoreLength(out, n, h, body + rest);
    ghost var h2 := StoreFlags(out, flags, h1, body + rest);
    ghost var h3 := SealHeader(out, |h|, h2, body + rest);
    FieldsKept(h1, h2, h3);
    assert out[..n] == h3 + body;
    FragmentParts(k, flags, lo, hi, h3, out[..n]);
  }

  lemma FieldsKept(h1: bytes, h2: bytes, h3: bytes)
    requires 20 <= |h1| && SameHeader(h1, h2, {6, 7}) && SameHeader(h2, h3, {10, 11})
    ensures Be16(h3, 2) == Be16(h1, 2) && Be16(h3, 6) == Be16(h2, 6)
  {
  }

  lemma FragmentParts(k: Packet4, flags: u16, lo: nat, hi: nat, h: bytes, w: bytes)
    requires WellFormed(k) && lo <= hi <= |k.tcp| + |k.data|
    requires w == h + (k.tcp + k.data)[lo..hi]
    requires SameHeader(k.ip, h, {2, 3, 6, 7, 10, 11}) && Verifies(h)
    requires Be16(h, 2) == |w| && Be16(h, 6) == flags
    ensures IsFragment(k, flags, lo, hi, w)
  {
    assert w[..|h|] == h;
    assert w[|h|..] == (k.tcp + k.data)[lo..hi];
  }

  method EmitBoth(h: bytes, body: bytes, f: nat, ghost k: Packet4, out1: array<byte>, out2: array<byte>)
    returns (n1: nat, n2: nat)
    requires out1 != out2 && WellFormed(k) && h == k.ip && body == k.tcp + k.data && f <= |body|
    requires |h| + |body| <= out1.Length && |h| + |body| <= out2.Length
    modifies out1, out2
    ensures n1 <= out1.Length && IsFragment(k, FLAG_MF, 0, f, out1[..n1])
    ensures n2 <= out2.Length && IsFragment(k, f / FRAG_UNIT, f, |k.tcp| + |k.data|, out2[..n2])
  {
    n1 := Emit(h, body[..f], FLAG_MF, k, 0, f, out1);
    n2 := Emit(h, body[f..], f / FRAG_UNIT, k, f, |body|, out2);
  }

  /** What fragmenting `k` at a payload offset makes of two buffers. When an 8-byte boundary exists
      between the cut and the end of the datagram, they hold the first fragment (offset 0, only MF set)
      and the last one (offset boundary / 8, no flag set); together their bodies are the IP payload. */
  ghost predicate Fragmented(k: Packet4, at: nat, r: Result<(nat, nat)>, o1: bytes, o2: bytes)
    requires WellFormed(k)
  {
    var f := RoundUp(|k.tcp| + at);
    if !(0 < at < |k.data|) || f >= |k.tcp| + |k.data| then r == Err(Malformed)
    else
      && r.Ok? && r.value.0 <= |o1| && r.value.1 <= |o2|
      && IsFragment(k, FLAG_MF, 0, f, o1[..r.value.0])
      && IsFragment(k, f / FRAG_UNIT, f, |k.tcp| + |k.data|, o2[..r.value.1])
  }

  method FragmentViewed(h: bytes, ip: bytes, offset: nat, size: nat, at: nat, ghost k: Packet4, out1: array<byte>, out2: array<byte>)
    returns (r: Result<(nat, nat)>)
    requires out1 != out2 && WellFormed(k) && h == k.ip && ip == k.tcp + k.data && offset == |k.tcp| && size == |k.data|
    requires |h| + |ip| <= out1.Length && |h| + |ip| <= out2.Length
    modifies out1, out2
    ensures Fragmented(k, at, r, out1[..], out2[..])
    ensures r.Err? ==> out1[..] == old(out1[..]) && out2[..] == old(out2[..])
  {
    if at == 0 || at >= size {
      return Err(Malformed);
    }
    var f := RoundUp(offset + at);
    if f < offset || f >= |ip| {
      return Err(Malformed);
    }
    var n1, n2 := EmitBoth(h, ip, f, k, out1, out2);
    assert out1[..][..n1] == out1[..n1] && out2[..][..n2] == out2[..n2];
    r := Ok((n1, n2));
  }

  /** packet_fragment_ipv4 */
  method FragmentIpv4(input: bytes, at: nat, out1: array<byte>, out2: array<byte>) returns (r: Result<(nat, nat)>)
    requires out1 != out2 && out1.Length >= |input| && out2.Length >= |input|
    modifies out1, out2
    ensures match Read4(input)
      case Err(e) => r == Err(e)
      case Ok(k) => WellFormed(k) && Fragmented(k, at, r, out1[..], out2[..])
    ensures r.Err? ==> out1[..] == old(out1[..]) && out2[..] == old(out2[..])
  {
    var views := Open(input);
    if views.Err? {
      return Err(views.error);
    }
    var (ip, tcp) := views.value;
    r := FragmentViewed(input[..ip.ihl], ip.payload, tcp.offset, |tcp.payload|, at, Read4(input).value, out1, out2);
  }
}
