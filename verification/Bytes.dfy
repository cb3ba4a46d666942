/** Octets, big-endian fields and the buffer primitives (memcpy, htons/htonl stores)
    that every wire-format component is written with. */
module Bytes {
  type byte = x: int | 0 <= x < 0x100
  type u16 = x: int | 0 <= x < 0x1_0000
  type u32 = x: int | 0 <= x < 0x1_0000_0000

  type bytes = seq<byte>

  datatype Option<T> = None | Some(value: T)

  function Be16(s: bytes, i: nat): (r: u16)
    requires i + 2 <= |s|
  {
    s[i] as int * 0x100 + s[i + 1]
  }

  function Be32(s: bytes, i: nat): (r: u32)
    requires i + 4 <= |s|
  {
    Be16(s, i) as int * 0x1_0000 + Be16(s, i + 2)
  }

  function Enc16(v: u16): (r: bytes)
    ensures |r| == 2 && Be16(r, 0) == v
  {
    [v / 0x100, v % 0x100]
  }

  function Enc32(v: u32): (r: bytes)
    ensures |r| == 4 && Be32(r, 0) == v
  {
    Enc16(v / 0x1_0000) + Enc16(v % 0x1_0000)
  }

  /** `s` with `d` written over it from index `i`. */
  function Overlay(s: bytes, i: nat, d: bytes): (r: bytes)
    requires i + |d| <= |s|
    ensures |r| == |s|
    ensures r[i..i + |d|] == d
    ensures forall k :: 0 <= k < |s| && !(i <= k < i + |d|) ==> r[k] == s[k]
  {
    s[..i] + d + s[i + |d|..]
  }

  function Put16(s: bytes, i: nat, v: u16): (r: bytes)
    requires i + 2 <= |s|
    ensures |r| == |s|
    ensures Be16(r, i) == v
    ensures forall k :: 0 <= k < |s| && k != i && k != i + 1 ==> r[k] == s[k]
  {
    var r := Overlay(s, i, Enc16(v));
    assert r[i..i + 2][0] == r[i] && r[i..i + 2][1] == r[i + 1];
    r
  }

  function Put32(s: bytes, i: nat, v: u32): (r: bytes)
    requires i + 4 <= |s|
    ensures |r| == |s|
    ensures Be32(r, i) == v
    ensures forall k :: 0 <= k < |s| && !(i <= k < i + 4) ==> r[k] == s[k]
  {
    var r := Overlay(s, i, Enc32(v));
    assert r[i..i + 4][0] == r[i] && r[i..i + 4][1] == r[i + 1] && r[i..i + 4][2] == r[i + 2] && r[i..i + 4][3] == r[i + 3];
    r
  }

  /** A store inside one part of a buffer is the same store on that part. */
  lemma OverlayLeft(a: bytes, b: bytes, i: nat, d: bytes)
    requires i + |d| <= |a|
    ensures Overlay(a + b, i, d) == Overlay(a, i, d) + b
  {
  }

  lemma OverlayRight(a: bytes, b: bytes, i: nat, d: bytes)
    requires i + |d| <= |b|
    ensures Overlay(a + b, |a| + i, d) == a + Overlay(b, i, d)
  {
  }

  // ---- rearranging slices and concatenations ----

  lemma Assoc<T>(a: seq<T>, b: seq<T>, c: seq<T>)
    ensures a + b + c == a + (b + c)
  {
  }

  lemma PlusEmpty<T>(a: seq<T>)
    ensures a + [] == a && [] + a == a
  {
  }

  lemma SliceOfDrop<T>(s: seq<T>, p: nat, lo: nat, hi: nat)
    requires p + lo <= p + hi <= |s|
    ensures s[p..][lo..hi] == s[p + lo..p + hi] && s[p..][hi..] == s[p + hi..]
  {
  }

  /** A buffer and its continuation, cut at one or two points of the buffer. */
  lemma CutOnce<T>(s: seq<T>, i: nat, cont: seq<T>)
    requires i <= |s|
    ensures s + cont == s[..i] + (s[i..] + cont)
  {
  }

  lemma CutTwice<T>(s: seq<T>, i: nat, j: nat, cont: seq<T>)
    requires i <= j <= |s|
    ensures s + cont == s[..i] + (s[i..j] + (s[j..] + cont))
  {
  }

  // ---- the same stores on a mutable buffer ----

  /** memcpy(dst + at, src, |src|) */
  method Copy(dst: array<byte>, at: nat, src: bytes)
    requires at + |src| <= dst.Length
    modifies dst
    ensures dst[..] == Overlay(old(dst[..]), at, src)
  {
    var k := 0;
    while k < |src|
      invariant k <= |src|
      invariant dst[..at] == old(dst[..at])
      invariant forall i :: 0 <= i < k ==> dst[at + i] == src[i]
      invariant forall i :: at + k <= i < dst.Length ==> dst[i] == old(dst[i])
    {
      dst[at + k] := src[k];
      k := k + 1;
    }
    assert dst[at..at + k] == src;
    assert dst[..] == dst[..at] + dst[at..at + k] + dst[at + k..];
  }

  method Store16(dst: array<byte>, at: nat, v: u16)
    requires at + 2 <= dst.Length
    modifies dst
    ensures dst[..] == Put16(old(dst[..]), at, v)
  {
    Copy(dst, at, Enc16(v));
  }

  /** memcpy to the end of what has been written so far. */
  method Append(dst: array<byte>, at: nat, src: bytes, ghost written: bytes)
    requires at + |src| <= dst.Length && dst[..at] == written
    modifies dst
    ensures dst[..at + |src|] == written + src
    ensures forall k :: at + |src| <= k < dst.Length ==> dst[k] == old(dst[k])
  {
    Copy(dst, at, src);
    assert dst[..at + |src|] == dst[..][..at + |src|];
    assert forall k :: at + |src| <= k < dst.Length ==> dst[k] == dst[..][k];
  }
}
