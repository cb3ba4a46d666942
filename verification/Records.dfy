/** The TLS record layer as a receiver sees it (section 5.1 of RFC 8446, section 6.2.1 of RFC
    5246): what a re-framing of the TCP byte stream must not change. */
module Records {
  import opened Bytes

  const HANDSHAKE: byte := 0x16
  const HEADER: nat := 5

  /** One byte of record content, tagged with the content type it arrived under. */
  datatype Octet = Octet(kind: byte, value: byte)

  function Tag(kind: byte, body: bytes): (r: seq<Octet>)
  {
    if |body| == 0 then [] else [Octet(kind, body[0])] + Tag(kind, body[1..])
  }

  /** How much of the record at the front of `s` has arrived. */
  function Arrived(s: bytes): (n: nat)
    requires |s| >= HEADER
    ensures HEADER + n <= |s|
  {
    if Be16(s, 3) <= |s| - HEADER then Be16(s, 3) else |s| - HEADER
  }

  /** The content bytes carried by a TCP stream prefix, the last record possibly partial. */
  function Deframe(s: bytes): (r: seq<Octet>)
    decreases |s|
  {
    if |s| < HEADER then []
    else Tag(s[0], s[HEADER..HEADER + Arrived(s)]) + Deframe(s[HEADER + Arrived(s)..])
  }

  function Header(kind: byte, version: bytes, len: u16): (r: bytes)
    requires |version| == 2
    ensures |r| == HEADER
  {
    [kind] + version + Enc16(len)
  }

  /** A record whose body is complete is its tagged body followed by the content of the rest. */
  lemma DeframeWhole(h: bytes, body: bytes, rest: bytes)
    requires |h| == HEADER && Be16(h, 3) == |body|
    ensures Deframe(h + (body + rest)) == Tag(h[0], body) + Deframe(rest)
  {
    var s := h + (body + rest);
    assert Be16(s, 3) == |body|;
    assert s[HEADER..HEADER + |body|] == body && s[HEADER + |body|..] == rest;
  }

  /** A record that may be partial: its arrived part, and whatever follows it. */
  lemma DeframeSplit(h: bytes, rest: bytes)
    requires |h| == HEADER
    ensures var n := if Be16(h, 3) <= |rest| then Be16(h, 3) else |rest|;
      Deframe(h + rest) == Tag(h[0], rest[..n]) + Deframe(rest[n..])
  {
    var s := h + rest;
    assert Be16(s, 3) == Be16(h, 3);
    var n := Arrived(s);
    assert s[HEADER..HEADER + n] == rest[..n] && s[HEADER + n..] == rest[n..];
  }

  lemma {:induction false} TagConcat(kind: byte, a: bytes, b: bytes)
    ensures Tag(kind, a + b) == Tag(kind, a) + Tag(kind, b)
  {
    if |a| == 0 {
      assert a + b == b;
    } else {
      assert (a + b)[1..] == a[1..] + b;
      TagConcat(kind, a[1..], b);
    }
  }

  lemma DeframeJoined(h: bytes, first: bytes, rest: bytes, n: nat)
    requires |h| == HEADER && Be16(h, 3) >= |first|
    requires n == if Be16(h, 3) - |first| <= |rest| then Be16(h, 3) - |first| else |rest|
    ensures Deframe(h + (first + rest)) == Tag(h[0], first) + (Tag(h[0], rest[..n]) + Deframe(rest[n..]))
  {
    var all, m := first + rest, |first| + n;
    DeframeSplit(h, all);
    assert Deframe(h + all) == Tag(h[0], all[..m]) + Deframe(all[m..]);
    assert all[..m] == first + rest[..n];
    assert all[m..] == rest[n..];
    TagConcat(h[0], first, rest[..n]);
    Assoc(Tag(h[0], first), Tag(h[0], rest[..n]), Deframe(rest[n..]));
  }

  /** Cutting one record's declared length in two, at a point that has arrived, changes nothing. */
  lemma CutRecord(h: bytes, h1: bytes, h2: bytes, first: bytes, rest: bytes)
    requires |h| == |h1| == |h2| == HEADER && h[0] == h1[0] == h2[0]
    requires Be16(h1, 3) == |first| && Be16(h, 3) == |first| + Be16(h2, 3)
    ensures Deframe(h1 + (first + (h2 + rest))) == Deframe(h + (first + rest))
  {
    DeframeWhole(h1, first, h2 + rest);
    DeframeSplit(h2, rest);
    DeframeJoined(h, first, rest, if Be16(h2, 3) <= |rest| then Be16(h2, 3) else |rest|);
  }

  /** Only the type and the length of a record header matter. */
  lemma SameFrame(h: bytes, h': bytes, rest: bytes)
    requires |h| == |h'| == HEADER && h[0] == h'[0] && Be16(h, 3) == Be16(h', 3)
    ensures Deframe(h + rest) == Deframe(h' + rest)
  {
    DeframeSplit(h, rest);
    DeframeSplit(h', rest);
  }
}
