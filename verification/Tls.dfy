/** src/tls.c: where the server name sits in a ClientHello, and re-framing its record as two. */
module Tls {
  import opened Bytes
  import opened Records

  // ---- tls_find_sni_split ----

  /** The walk over the ClientHello, stage by stage; None is the code's -1. */
  function FindSniSplit(d: bytes): (r: Option<nat>)
  {
    if |d| < 9 || d[0] != HANDSHAKE || d[5] != 0x01 || |d| < 44 then None
    else SplitAfterSession(d, 44 + d[43] as int)
  }

  function SplitAfterSession(d: bytes, p: nat): (r: Option<nat>)
  {
    if p + 2 > |d| then None else SplitAfterCiphers(d, p + 2 + Be16(d, p))
  }

  function SplitAfterCiphers(d: bytes, p: nat): (r: Option<nat>)
  {
    if p + 1 > |d| then None else SplitAfterCompression(d, p + 1 + d[p] as int)
  }

  function SplitAfterCompression(d: bytes, p: nat): (r: Option<nat>)
  {
    if p + 2 > |d| || p + 2 + Be16(d, p) > |d| then None
    else SplitInExtensions(d, p + 2, p + 2 + Be16(d, p))
  }

  function SplitInExtensions(d: bytes, pos: nat, end: nat): (r: Option<nat>)
    requires end <= |d|
    decreases end - pos
  {
    if pos + 4 > end then None
    else
      var n := Be16(d, pos + 2);
      if pos + 4 + n > end then None
      else if Be16(d, pos) == 0 then SplitInName(d, pos + 4, n)
      else SplitInExtensions(d, pos + 4 + n, end)
  }

  function SplitInName(d: bytes, pos: nat, n: nat): (r: Option<nat>)
    requires pos + n <= |d|
  {
    if n < 5 || d[pos + 2] != 0 || 5 + Be16(d, pos + 3) > n || Be16(d, pos + 3) < 2 then None
    else Some(pos + 5 + Be16(d, pos + 3) / 2)
  }

  method TlsFindSniSplit(data: bytes) returns (r: Option<nat>)
    ensures r == FindSniSplit(data)
  {
    var length := |data|;
    if length < 5 {
      return None;
    }
    if data[0] != HANDSHAKE {
      return None;
    }
    var pos := 5;
    if pos + 4 > length {
      return None;
    }
    if data[pos] != 0x01 {
      return None;
    }
    pos := pos + 4;
    if pos + 34 > length {
      return None;
    }
    pos := pos + 34;
    if pos + 1 > length {
      return None;
    }
    var sessionLen := data[pos];
    pos := pos + 1;
    if pos + sessionLen > length {
      return None;
    }
    pos := pos + sessionLen;
    if pos + 2 > length {
      return None;
    }
    var cipherLen := Be16(data, pos);
    pos := pos + 2;
    if pos + cipherLen > length {
      return None;
    }
    pos := pos + cipherLen;
    if pos + 1 > length {
      return None;
    }
    var compressionLen := data[pos];
    pos := pos + 1;
    if pos + compressionLen > length {
      return None;
    }
    pos := pos + compressionLen;
    if pos + 2 > length {
      return None;
    }
    var extensionsLen := Be16(data, pos);
    pos := pos + 2;
    if pos + extensionsLen > length {
      return None;
    }
    var end := pos + extensionsLen;
    while pos + 4 <= end
      invariant 0 <= pos <= end <= |data|
      invariant FindSniSplit(data) == SplitInExtensions(data, pos, end)
    {
      var extensionType := Be16(data, pos);
      var extensionLen := Be16(data, pos + 2);
      pos := pos + 4;
      if pos + extensionLen > end {
        return None;
      }
      if extensionType == 0x0000 {
        if extensionLen < 5 {
          return None;
        }
        if data[pos + 2] != 0x00 {
          return None;
        }
        var nameLen: int := Be16(data, pos + 3);
        if 5 + nameLen > extensionLen {
          return None;
        }
        if nameLen < 2 {
          return None;
        }
        return Some(pos + 5 + nameLen / 2);
      }
      pos := pos + extensionLen;
    }
    return None;
  }

  // ---- tls_fragment_first_record ----

  /** Splitting is possible at `at`: a handshake record, and a point strictly inside both its
      declared body and what has arrived of it. */
  predicate Splittable(d: bytes, at: nat)
  {
    |d| >= 6 && d[0] == HANDSHAKE && d[1] == 0x03 && 1 <= at < Be16(d, 3) && at < |d| - 5
  }

  function Fragmented(d: bytes, at: nat): (r: bytes)
    requires Splittable(d, at)
    ensures |r| == |d| + 5
  {
    (d[..3] + Enc16(at)) + d[5..5 + at] + (d[..3] + Enc16(Be16(d, 3) - at)) + d[5 + at..]
  }

  method TlsFragmentFirstRecord(data: bytes, at: nat, out: array<byte>) returns (r: Option<nat>)
    modifies out
    ensures r == if Splittable(data, at) && |data| + 5 <= out.Length then Some(|data| + 5) else None
    ensures r.Some? ==> out[..r.value] == Fragmented(data, at)
    ensures forall k :: |data| + 5 <= k < out.Length ==> out[k] == old(out[k])
    ensures r.None? ==> out[..] == old(out[..])
  {
    var len := |data|;
    if len < 6 || data[0] != HANDSHAKE || data[1] != 0x03 {
      return None;
    }
    var recordLen := Be16(data, 3);
    if at < 1 || at >= recordLen || at >= len - 5 || out.Length < len + 5 {
      return None;
    }
    WriteRecords(out, data[..3], at, data[5..5 + at], recordLen - at, data[5 + at..]);
    r := Some(len + 5);
  }

  /** Two headers of the same type and version, each in front of its part. */
  method WriteRecords(out: array<byte>, start: bytes, len1: u16, first: bytes, len2: u16, rest: bytes)
    requires |start| == 3 && 10 + |first| + |rest| <= out.Length
    modifies out
    ensures out[..10 + |first| + |rest|] == (start + Enc16(len1)) + first + (start + Enc16(len2)) + rest
    ensures forall k :: 10 + |first| + |rest| <= k < out.Length ==> out[k] == old(out[k])
  {
    ghost var h1, h2 := start + Enc16(len1), start + Enc16(len2);
    AppendHeader(out, 0, start, len1, []);
    PlusEmpty(h1);
    Append(out, 5, first, h1);
    AppendHeader(out, 5 + |first|, start, len2, h1 + first);
    Append(out, 10 + |first|, rest, h1 + first + h2);
  }

  /** A record header with the same type and version bytes and a new length. */
  method AppendHeader(out: array<byte>, at: nat, start: bytes, len: u16, ghost written: bytes)
    requires |start| == 3 && at + 5 <= out.Length && out[..at] == written
    modifies out
    ensures out[..at + 5] == written + (start + Enc16(len))
    ensures forall k :: at + 5 <= k < out.Length ==> out[k] == old(out[k])
  {
    Append(out, at, start, written);
    Append(out, at + 3, Enc16(len), written + start);
  }

  /** Record fragmentation at every legal point, of a complete or a partly received record, leaves
      the content stream unchanged for every continuation of the TCP stream. */
  lemma FragmentationPreserves(d: bytes, at: nat, cont: bytes)
    requires Splittable(d, at)
    ensures Deframe(Fragmented(d, at) + cont) == Deframe(d + cont)
  {
    var h, h1, h2 := d[..5], d[..3] + Enc16(at), d[..3] + Enc16(Be16(d, 3) - at);
    var first, rest := d[5..5 + at], d[5 + at..] + cont;
    assert Fragmented(d, at) + cont == h1 + (first + (h2 + rest));
    assert d + cont == h + (first + rest);
    CutRecord(h, h1, h2, first, rest);
  }

  // ---- tls_record_split_point ----

  function RecordSplitPoint(d: bytes): (at: nat)
    ensures at >= 1
  {
    match FindSniSplit(d)
    case Some(p) => if p > 5 then p - 5 else 1
    case None => 1
  }

  method TlsRecordSplitPoint(data: bytes) returns (at: nat)
    ensures at == RecordSplitPoint(data)
  {
    var split := TlsFindSniSplit(data);
    at := 1;
    if split.Some? && split.value > 5 {
      at := split.value - 5;
    }
  }
}
