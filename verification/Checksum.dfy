/** src/packet/checksum.c: the one's-complement checksum of sections 1 and 2 of RFC 1071, and
    the IPv4-header, TCP-over-IPv4 and TCP-over-IPv6 uses of it. */
module Checksum {
  import opened Bytes

  const WRAP: int := 0x1_0000_0000

  /** The plain integer sum of the 16-bit words of `s`; a last odd byte is a high half. */
  function WordSum(s: bytes): (r: nat)
  {
    if |s| == 0 then 0
    else if |s| == 1 then s[0] as int * 0x100
    else Be16(s, 0) + WordSum(s[2..])
  }

  /** The one's-complement value of an unbounded sum: its residue modulo 0xFFFF, where a non-zero
      sum never comes out as zero (section 2 of RFC 1071). */
  function OnesSum(n: nat): (r: u16)
  {
    if n == 0 then 0 else (n - 1) % 0xFFFF + 1
  }

  /** What a receiver checks: the words, checksum field included, sum to negative zero. */
  predicate Verifies(s: bytes)
  {
    OnesSum(WordSum(s)) == 0xFFFF
  }

  // ---- arithmetic of the sums ----

  lemma {:induction false} WordSumConcat(a: bytes, b: bytes)
    requires |a| % 2 == 0
    ensures WordSum(a + b) == WordSum(a) + WordSum(b)
  {
    if |a| == 0 {
      assert a + b == b;
    } else {
      assert (a + b)[2..] == a[2..] + b;
      WordSumConcat(a[2..], b);
    }
  }

  lemma {:induction false} WordSumBound(s: bytes)
    ensures WordSum(s) <= 0xFFFF * ((|s| + 1) / 2)
  {
    if |s| > 1 {
      WordSumBound(s[2..]);
    }
  }

  lemma WordAt(s: bytes, at: nat)
    requires at + 2 <= |s| && at % 2 == 0
    ensures WordSum(s) == WordSum(s[..at]) + Be16(s, at) + WordSum(s[at + 2..])
  {
    assert s == s[..at] + s[at..];
    WordSumConcat(s[..at], s[at..]);
    assert s[at..][2..] == s[at + 2..];
  }

  /** One fold step of checksum_finalize neither changes the residue nor reaches zero. */
  lemma FoldStep(n: nat)
    ensures OnesSum(n % 0x1_0000 + n / 0x1_0000) == OnesSum(n)
  {
    var q := n / 0x1_0000;
    var m := n % 0x1_0000 + q;
    assert n == m + 0xFFFF * q;
    if n != 0 {
      Shift(m - 1, q);
    }
  }

  lemma {:induction false} Shift(m: int, q: nat)
    ensures (m + 0xFFFF * q) % 0xFFFF == m % 0xFFFF
  {
    if q > 0 {
      Shift(m, q - 1);
      assert m + 0xFFFF * q == (m + 0xFFFF * (q - 1)) + 0xFFFF;
    }
  }

  /** A non-zero sum is negative zero exactly when it is a multiple of 0xFFFF. */
  lemma NegativeZero(n: nat)
    ensures OnesSum(n) == 0xFFFF <==> n != 0 && n % 0xFFFF == 0
  {
  }

  /** Adding the complement of the one's-complement sum always gives negative zero. */
  lemma ComplementCancels(n: nat)
    ensures OnesSum(n + (0xFFFF - OnesSum(n))) == 0xFFFF
  {
    if n != 0 {
      var q := (n - 1) / 0xFFFF;
      assert n + (0xFFFF - OnesSum(n)) == 0xFFFF * q + 0xFFFF;
      Shift(0xFFFF, q);
      NegativeZero(0xFFFF * q + 0xFFFF);
    }
  }

  // ---- checksum_accumulate, checksum_finalize ----

  method Accumulate(data: bytes, seed: u32) returns (sum: u32)
    ensures sum == (seed + WordSum(data)) % WRAP
    ensures seed + WordSum(data) < WRAP ==> sum == seed + WordSum(data)
  {
    var p, len := 0, |data|;
    sum := seed;
    ghost var done: nat := 0;
    while len > 1
      invariant 0 <= p && 0 <= len && p + len == |data|
      invariant done + WordSum(data[p..]) == WordSum(data)
      invariant sum == (seed + done) % WRAP
    {
      var w := data[p] as int * 0x100 + data[p + 1];
      WordSumFrom(data, p);
      WrapAdd(seed + done, w);
      sum := (sum + w) % WRAP;
      done := done + w;
      p := p + 2;
      len := len - 2;
    }
    if len == 1 {
      WrapAdd(seed + done, data[p] as int * 0x100);
      sum := (sum + data[p] as int * 0x100) % WRAP;
    }
  }

  lemma WordSumFrom(data: bytes, p: nat)
    requires p + 2 <= |data|
    ensures WordSum(data[p..]) == data[p] as int * 0x100 + data[p + 1] + WordSum(data[p + 2..])
  {
    assert data[p..][2..] == data[p + 2..];
  }

  lemma WrapAdd(x: nat, y: nat)
    ensures (x % WRAP + y) % WRAP == (x + y) % WRAP
  {
  }

  method Finalize(start: u32) returns (r: u16)
    ensures r == 0xFFFF - OnesSum(start)
  {
    var sum: nat := start;
    while sum / 0x1_0000 != 0
      invariant OnesSum(sum) == OnesSum(start)
      decreases sum
    {
      FoldStep(sum);
      sum := sum % 0x1_0000 + sum / 0x1_0000;
    }
    r := 0xFFFF - sum;
  }

  // ---- checksum fields ----

  /** The field value for a block whose checksum sits at even offset `at`: the complement of the
      sum of everything else (`pseudo` is a prefix that is summed but not sent). */
  function FieldFor(pseudo: bytes, block: bytes, at: nat): (c: u16)
    requires at + 2 <= |block|
  {
    0xFFFF - OnesSum(WordSum(pseudo) + WordSum(block[..at]) + WordSum(block[at + 2..]))
  }

  /** Storing the field makes the whole block verify, whatever was in the field before. */
  lemma FieldVerifies(pseudo: bytes, block: bytes, at: nat)
    requires at + 2 <= |block| && at % 2 == 0 && |pseudo| % 2 == 0
    ensures Verifies(pseudo + Put16(block, at, FieldFor(pseudo, block, at)))
  {
    var c := FieldFor(pseudo, block, at);
    FieldSum(pseudo, Put16(block, at, c), at);
    assert Put16(block, at, c)[..at] == block[..at];
    assert Put16(block, at, c)[at + 2..] == block[at + 2..];
    ComplementCancels(WordSum(pseudo) + WordSum(block[..at]) + WordSum(block[at + 2..]));
  }

  /** The stored value does not depend on what the field held. */
  lemma FieldIgnoresItself(pseudo: bytes, block: bytes, at: nat, v: u16)
    requires at + 2 <= |block|
    ensures FieldFor(pseudo, Put16(block, at, v), at) == FieldFor(pseudo, block, at)
  {
    assert Put16(block, at, v)[..at] == block[..at];
    assert Put16(block, at, v)[at + 2..] == block[at + 2..];
  }

  lemma FieldSum(pseudo: bytes, block: bytes, at: nat)
    requires at + 2 <= |block| && at % 2 == 0 && |pseudo| % 2 == 0
    ensures WordSum(pseudo + block)
         == WordSum(pseudo) + WordSum(block[..at]) + Be16(block, at) + WordSum(block[at + 2..])
  {
    WordSumConcat(pseudo, block);
    WordAt(block, at);
  }

  /** 0xFFFF is odd, so a multiple of it stays one under a shift by 2c only for c = 0 or 0xFFFF. */
  lemma DoubledResidue(total: nat, other: nat, c: u16)
    requires OnesSum(total) == 0xFFFF
    requires other > 0 && other == total + 0xFFFF - 2 * c as int
    ensures OnesSum(other) == 0xFFFF <==> c == 0 || c == 0xFFFF
  {
    NegativeZero(total);
    NegativeZero(other);
    var q := total / 0xFFFF;
    assert total == 0xFFFF * q;
    Shift(0xFFFF - 2 * c as int, q);
  }

  /** Complementing a verifying block's field leaves it verifying exactly when the field was one
      of the two encodings of zero. */
  lemma ComplementedField(pseudo: bytes, block: bytes, at: nat)
    requires at + 2 <= |block| && at % 2 == 0 && |pseudo| % 2 == 0
    requires Verifies(pseudo + block)
    requires WordSum(pseudo) > 0
    ensures Verifies(pseudo + Put16(block, at, 0xFFFF - Be16(block, at)))
       <==> Be16(block, at) == 0 || Be16(block, at) == 0xFFFF
  {
    var c := Be16(block, at);
    var flipped := Put16(block, at, 0xFFFF - c);
    FieldSum(pseudo, block, at);
    FieldSum(pseudo, flipped, at);
    assert flipped[..at] == block[..at];
    assert flipped[at + 2..] == block[at + 2..];
    var total, other := WordSum(pseudo + block), WordSum(pseudo + flipped);
    DoubledResidue(total, other, c);
  }

  // ---- pseudo-headers (section 3.1 of RFC 9293, section 8.1 of RFC 8200) ----

  function Pseudo4(src: bytes, dst: bytes, len: u16): (r: bytes)
    requires |src| == 4 && |dst| == 4
    ensures |r| == 12
  {
    src + dst + [0, 6] + Enc16(len)
  }

  function Pseudo6(src: bytes, dst: bytes, len: u32): (r: bytes)
    requires |src| == 16 && |dst| == 16
    ensures |r| == 40
  {
    src + dst + Enc32(len) + [0, 0, 0, 6]
  }

  /** The 32-bit accumulator never wraps while summing a pseudo-header of at most 40 bytes and a
      segment of legal length, so the code's modular sums are the exact ones. */
  lemma NoOverflow(pseudo: bytes, block: bytes, at: nat)
    requires at + 2 <= |block| <= 0xFFFF && |pseudo| <= 40
    ensures WordSum(pseudo) + WordSum(block[..at]) + WordSum(block[at + 2..]) < WRAP
  {
    WordSumBound(pseudo);
    WordSumBound(block[..at]);
    WordSumBound(block[at + 2..]);
  }

  lemma PseudoSum4(src: bytes, dst: bytes, len: u16)
    requires |src| == 4 && |dst| == 4
    ensures WordSum(Pseudo4(src, dst, len)) == WordSum(src) + WordSum(dst) + WordSum([0, 6] + Enc16(len))
    ensures WordSum(Pseudo4(src, dst, len)) > 0
  {
    assert Pseudo4(src, dst, len) == src + (dst + ([0, 6] + Enc16(len)));
    WordSumConcat(src, dst + ([0, 6] + Enc16(len)));
    WordSumConcat(dst, [0, 6] + Enc16(len));
    assert WordSum([0, 6] + Enc16(len)) >= 6;
  }

  lemma PseudoSum6(src: bytes, dst: bytes, len: u32)
    requires |src| == 16 && |dst| == 16
    ensures WordSum(Pseudo6(src, dst, len)) == WordSum(src) + WordSum(dst) + WordSum(Enc32(len) + [0, 0, 0, 6])
  {
    assert Pseudo6(src, dst, len) == src + (dst + (Enc32(len) + [0, 0, 0, 6]));
    WordSumConcat(src, dst + (Enc32(len) + [0, 0, 0, 6]));
    WordSumConcat(dst, Enc32(len) + [0, 0, 0, 6]);
  }

  // ---- checksum_ipv4_header, checksum_tcp_v4, checksum_tcp_v6 ----

  method Ipv4Header(hdr: bytes) returns (c: u16)
    requires 20 <= |hdr| <= 60
    ensures c == FieldFor([], hdr, 10)
  {
    NoOverflow([], hdr, 10);
    var sum := Accumulate(hdr[..10], 0);
    sum := Accumulate(hdr[12..], sum);
    c := Finalize(sum);
  }

  method TcpV4(src: bytes, dst: bytes, seg: bytes) returns (c: u16)
    requires |src| == 4 && |dst| == 4 && |seg| <= 0xFFFF
    ensures c == if |seg| < 18 then 0 else FieldFor(Pseudo4(src, dst, |seg|), seg, 16)
  {
    if |seg| < 18 {
      return 0;
    }
    PseudoSum4(src, dst, |seg|);
    NoOverflow(Pseudo4(src, dst, |seg|), seg, 16);
    var sum := Accumulate(src, 0);
    sum := Accumulate(dst, sum);
    sum := Accumulate([0, 6] + Enc16(|seg|), sum);
    sum := Accumulate(seg[..16], sum);
    sum := Accumulate(seg[18..], sum);
    c := Finalize(sum);
  }

  method TcpV6(src: bytes, dst: bytes, seg: bytes) returns (c: u16)
    requires |src| == 16 && |dst| == 16 && |seg| <= 0xFFFF
    ensures c == if |seg| < 18 then 0 else FieldFor(Pseudo6(src, dst, |seg|), seg, 16)
  {
    if |seg| < 18 {
      return 0;
    }
    PseudoSum6(src, dst, |seg|);
    NoOverflow(Pseudo6(src, dst, |seg|), seg, 16);
    var sum := Accumulate(src, 0);
    sum := Accumulate(dst, sum);
    sum := Accumulate(Enc32(|seg|) + [0, 0, 0, 6], sum);
    sum := Accumulate(seg[..16], sum);
    sum := Accumulate(seg[18..], sum);
    c := Finalize(sum);
  }
}
