/** src/tls/sni_extract.c: gathering a ClientHello spread over several handshake records into one. */
module Coalesce {
  import opened Bytes
  import opened Records
  import opened Tls

  const MAX_RECORD: nat := 16384

  /** The handshake records at the front of a buffer: their arrived bodies joined, their declared
      lengths added up, their number, and what follows them. */
  datatype Gathered = Gathered(body: bytes, declared: nat, records: nat, rest: bytes)

  function Gather(s: bytes): (g: Gathered)
    decreases |s|
  {
    if |s| < HEADER || s[0] != HANDSHAKE then Gathered([], 0, 0, s)
    else
      var n := Arrived(s);
      if n < Be16(s, 3) then Gathered(s[HEADER..], Be16(s, 3), 1, [])
      else Join(s[HEADER..HEADER + n], n, 1, Gather(s[HEADER + n..]))
  }

  /** What was gathered before, joined to the rest. */
  function Join(done: bytes, declared: nat, records: nat, g: Gathered): Gathered
  {
    Gathered(done + g.body, declared + g.declared, records + g.records, g.rest)
  }

  function Coalesced(s: bytes, outSize: nat): (r: Option<bytes>)
  {
    var g := Gather(s);
    if g.records < 2 || g.declared > MAX_RECORD || HEADER + |g.body| + |g.rest| > outSize then None
    else Some([HANDSHAKE] + s[1..3] + Enc16(g.declared) + (g.body + g.rest))
  }

  /** tls_coalesce_handshake_records. */
  method TlsCoalesceHandshakeRecords(input: bytes, out: array<byte>) returns (r: Option<nat>)
    modifies out
    ensures r.None? <==> Coalesced(input, out.Length).None?
    ensures r.Some? ==> r.value <= out.Length && out[..r.value] == Coalesced(input, out.Length).value
  {
    var len := |input|;
    if len < 5 || input[0] != HANDSHAKE {
      return None;
    }
    var ok, pos, body, declared, records;
    ghost var joined;
    StartGather(input, Gather(input));
    ok, pos, body, declared, records, joined := GatherRecords(input, out, Gather(input));
    if !ok || records < 2 || declared > MAX_RECORD || body + (len - pos) > out.Length {
      return None;
    }
    Finish(out, body, declared, input[1..3], input[pos..], joined);
    r := Some(body + (len - pos));
  }

  /** The loop: handshake bodies joined behind the place for the new header. It gives up when they
      outgrow the buffer. */
  method GatherRecords(input: bytes, out: array<byte>, ghost all: Gathered)
    returns (ok: bool, pos: nat, body: nat, declared: nat, records: nat, ghost joined: bytes)
    requires all == Join([], 0, 0, Left(input, 0, false))
    modifies out
    ensures !ok ==> 5 + |all.body| > out.Length
    ensures ok ==> pos <= |input| && all == Gathered(joined, declared, records, input[pos..])
    ensures ok ==> body == 5 + |joined| && (body <= out.Length ==> out[5..body] == joined)
  {
    ok, pos, body, declared, records, joined := true, 0, 5, 0, 0, [];
    var stopped := false;
    while ok && !stopped && pos + 5 <= |input| && input[pos] == HANDSHAKE
      invariant pos <= |input| && (!ok ==> 5 + |all.body| > out.Length)
      invariant ok ==> Holding(out[..], body, joined) && all == Join(joined, declared, records, Left(input, pos, stopped))
      decreases |input| - pos
    {
      var rlen := Be16(input, pos + 3);
      var avail := |input| - pos - 5;
      if avail > rlen {
        avail := rlen;
      }
      ok, body, joined := TakeRecord(input, pos, avail, out, body, declared, records, joined, all);
      declared, records, pos, stopped := declared + rlen, records + 1, pos + 5 + avail, avail < rlen;
    }
    if ok {
      EndGather(input, pos, stopped, joined, declared, records);
    }
  }

  /** The bodies so far, behind the place for a header, in a buffer that need not have even that. */
  predicate Holding(out: bytes, body: nat, joined: bytes)
  {
    body == 5 + |joined| && (joined == [] || body <= |out|) && (body <= |out| ==> out[5..body] == joined)
  }

  /** What is still to be gathered at `pos`: nothing once a record was cut short. */
  ghost function Left(input: bytes, pos: nat, stopped: bool): Gathered
    requires pos <= |input|
  {
    if stopped then Gathered([], 0, 0, input[pos..]) else GatherAt(input, pos)
  }

  /** The same gathering from a place in the input. */
  function GatherAt(s: bytes, pos: nat): (g: Gathered)
    requires pos <= |s|
    decreases |s| - pos
  {
    if pos + HEADER > |s| || s[pos] != HANDSHAKE then Gathered([], 0, 0, s[pos..])
    else
      var end := pos + HEADER + Be16(s, pos + 3);
      if end > |s| then Gathered(s[pos + HEADER..], Be16(s, pos + 3), 1, [])
      else Join(s[pos + HEADER..end], Be16(s, pos + 3), 1, GatherAt(s, end))
  }

  lemma {:induction false} GatherAtIs(s: bytes, pos: nat, t: bytes)
    requires pos <= |s| && t == s[pos..]
    ensures GatherAt(s, pos) == Gather(t)
    decreases |t|
  {
    if |t| >= HEADER && t[0] == HANDSHAKE {
      var n := Be16(t, 3);
      if HEADER + n <= |t| {
        GatherAtIs(s, pos + HEADER + n, t[HEADER + n..]);
        GatherWhole(t, n, t[HEADER..HEADER + n], t[HEADER + n..]);
        GatherAtWhole(s, pos, n, t[HEADER..HEADER + n]);
      } else {
        GatherAtPart(s, pos, t);
      }
    }
  }

  lemma GatherAtPart(s: bytes, pos: nat, t: bytes)
    requires pos <= |s| && t == s[pos..] && |t| >= HEADER && t[0] == HANDSHAKE && HEADER + Be16(t, 3) > |t|
    ensures GatherAt(s, pos) == Gather(t)
  {
    assert Be16(s, pos + 3) == Be16(t, 3) && s[pos + HEADER..] == t[HEADER..];
  }

  lemma GatherAtWhole(s: bytes, pos: nat, n: nat, part: bytes)
    requires pos + HEADER + n <= |s| && s[pos] == HANDSHAKE && n == Be16(s, pos + 3) && part == s[pos + HEADER..pos + HEADER + n]
    ensures GatherAt(s, pos) == Join(part, n, 1, GatherAt(s, pos + HEADER + n))
  {
  }

  lemma StartGather(input: bytes, all: Gathered)
    requires all == Gather(input)
    ensures all == Join([], 0, 0, Left(input, 0, false))
  {
    GatherAtIs(input, 0, input);
    JoinToNothing(all);
  }

  lemma EndGather(input: bytes, pos: nat, stopped: bool, joined: bytes, declared: nat, records: nat)
    requires pos <= |input| && (stopped || pos + 5 > |input| || input[pos] != HANDSHAKE)
    ensures Join(joined, declared, records, Left(input, pos, stopped)) == Gathered(joined, declared, records, input[pos..])
  {
    JoinNothing(joined, declared, records, input[pos..]);
  }

  /** One turn of the loop: the record's body, as far as it has arrived, goes behind the others. */
  method TakeRecord(input: bytes, pos: nat, avail: nat, out: array<byte>, body: nat,
                    ghost declared: nat, ghost records: nat, ghost joined: bytes, ghost all: Gathered)
    returns (ok: bool, end: nat, ghost more: bytes)
    requires pos + 5 <= |input| && input[pos] == HANDSHAKE
    requires avail == if |input| - pos - 5 > Be16(input, pos + 3) then Be16(input, pos + 3) else |input| - pos - 5
    requires Holding(out[..], body, joined)
    requires all == Join(joined, declared, records, Left(input, pos, false))
    modifies out
    ensures !ok ==> 5 + |all.body| > out.Length
    ensures ok ==> end <= out.Length && Holding(out[..], end, more)
    ensures ok ==> all == Join(more, declared + Be16(input, pos + 3), records + 1, Left(input, pos + 5 + avail, avail < Be16(input, pos + 3)))
  {
    var part := input[pos + 5..pos + 5 + avail];
    StepGather(input, pos, avail, part, joined, declared, records);
    more, end, ok := joined + part, body, body + avail <= out.Length;
    if ok {
      end := CopyBody(out, body, part, joined);
    }
  }

  lemma JoinToNothing(g: Gathered)
    ensures Join([], 0, 0, g) == g
  {
  }

  lemma JoinNothing(joined: bytes, declared: nat, records: nat, rest: bytes)
    ensures Join(joined, declared, records, Gathered([], 0, 0, rest)) == Gathered(joined, declared, records, rest)
  {
  }

  /** The one record header, and what followed the handshake records. */
  method Finish(out: array<byte>, body: nat, declared: u16, version: bytes, rest: bytes, ghost joined: bytes)
    requires body == 5 + |joined| && body + |rest| <= out.Length && |version| == 2
    requires out[5..body] == joined
    modifies out
    ensures out[..body + |rest|] == [HANDSHAKE] + version + Enc16(declared) + (joined + rest)
  {
    out[0] := HANDSHAKE;
    out[1] := version[0];
    out[2] := version[1];
    out[3] := declared / 0x100;
    out[4] := declared % 0x100;
    ghost var h := [HANDSHAKE] + version + Enc16(declared);
    assert out[..body] == h + joined by {
      assert out[..5] == h;
      assert out[..body] == out[..5] + out[5..body];
    }
    Append(out, body, rest, h + joined);
    Assoc(h, joined, rest);
  }

  /** One record's body copied behind the bodies before it, which start after the header. */
  method CopyBody(out: array<byte>, body: nat, src: bytes, ghost joined: bytes) returns (end: nat)
    requires 5 <= body && body == 5 + |joined| && body + |src| <= out.Length
    requires out[5..body] == joined
    modifies out
    ensures end == body + |src| && out[5..end] == joined + src
  {
    ghost var front := out[..5];
    assert out[..body] == front + joined;
    Append(out, body, src, front + joined);
    end := body + |src|;
    assert out[5..end] == out[..end][5..];
  }

  /** One turn of the loop takes the record at `pos` off what is still to be gathered. */
  lemma StepGather(input: bytes, pos: nat, avail: nat, part: bytes, joined: bytes, declared: nat, records: nat)
    requires pos + 5 <= |input| && input[pos] == HANDSHAKE
    requires avail == if |input| - pos - 5 > Be16(input, pos + 3) then Be16(input, pos + 3) else |input| - pos - 5
    requires part == input[pos + 5..pos + 5 + avail]
    ensures Join(joined, declared, records, Left(input, pos, false))
         == Join(joined + part, declared + Be16(input, pos + 3), records + 1, Left(input, pos + 5 + avail, avail < Be16(input, pos + 3)))
  {
    GatherOne(input, pos, avail, part);
    JoinJoin(joined, declared, records, part, Be16(input, pos + 3), Left(input, pos + 5 + avail, avail < Be16(input, pos + 3)));
  }

  lemma JoinJoin(joined: bytes, declared: nat, records: nat, part: bytes, n: nat, g: Gathered)
    ensures Join(joined, declared, records, Join(part, n, 1, g)) == Join(joined + part, declared + n, records + 1, g)
  {
    Assoc(joined, part, g.body);
  }

  lemma GatherOne(input: bytes, pos: nat, avail: nat, part: bytes)
    requires pos + 5 <= |input| && input[pos] == HANDSHAKE
    requires avail == if |input| - pos - 5 > Be16(input, pos + 3) then Be16(input, pos + 3) else |input| - pos - 5
    requires part == input[pos + 5..pos + 5 + avail]
    ensures GatherAt(input, pos) == Join(part, Be16(input, pos + 3), 1, Left(input, pos + 5 + avail, avail < Be16(input, pos + 3)))
  {
    if avail < Be16(input, pos + 3) {
      assert input[pos + 5 + avail..] == [] && part == input[pos + 5..];
      PlusEmpty(part);
    }
  }

  // ---- meaning ----

  /** Coalescing leaves the content stream unchanged for every continuation of the TCP stream, a
      partly received last record included. */
  lemma CoalescingPreserves(s: bytes, outSize: nat, cont: bytes)
    requires Coalesced(s, outSize).Some?
    ensures Deframe(Coalesced(s, outSize).value + cont) == Deframe(s + cont)
  {
    var g := Gather(s);
    var h := [HANDSHAKE] + s[1..3] + Enc16(g.declared);
    assert Coalesced(s, outSize).value + cont == h + (g.body + (g.rest + cont));
    GatherPreserves(s, h, cont);
  }

  /** One record declaring the gathered length, in front of the gathered bytes, carries exactly
      what the records did. */
  lemma {:induction false} GatherPreserves(s: bytes, h: bytes, cont: bytes)
    requires |h| == HEADER && h[0] == HANDSHAKE && Be16(h, 3) == Gather(s).declared
    ensures Deframe(h + (Gather(s).body + (Gather(s).rest + cont))) == Deframe(s + cont)
    decreases |s|
  {
    if |s| < HEADER || s[0] != HANDSHAKE {
      GatherNothing(s, h, cont);
    } else if Arrived(s) < Be16(s, 3) {
      GatherPartial(s, h, cont);
    } else {
      var n := Arrived(s);
      var first, tail := s[HEADER..HEADER + n], s[HEADER + n..];
      var g := Gather(tail);
      var h' := Header(HANDSHAKE, h[1..3], g.declared);
      GatherPreserves(tail, h', cont);
      GatherStep(s[..5], first, tail + cont, h, h', g.body + (g.rest + cont));
      Assoc(first, g.body, g.rest + cont);
      CutTwice(s, HEADER, HEADER + n, cont);
    }
  }

  lemma GatherNothing(s: bytes, h: bytes, cont: bytes)
    requires |h| == HEADER && Be16(h, 3) == 0
    ensures Deframe(h + ([] + (s + cont))) == Deframe(s + cont)
  {
    NothingFramed(h, s + cont);
  }

  lemma NothingFramed(h: bytes, rest: bytes)
    requires |h| == HEADER && Be16(h, 3) == 0
    ensures Deframe(h + ([] + rest)) == Deframe(rest)
  {
    DeframeWhole(h, [], rest);
    PlusEmpty(Deframe(rest));
  }

  lemma GatherPartial(s: bytes, h: bytes, cont: bytes)
    requires |s| >= HEADER
    requires |h| == HEADER && h[0] == s[0] && Be16(h, 3) == Be16(s, 3)
    ensures Deframe(h + (s[HEADER..] + ([] + cont))) == Deframe(s + cont)
  {
    CutOnce(s, 5, cont);
    PlusEmpty(cont);
    SameFrame(h, s[..5], s[5..] + cont);
  }

  lemma GatherStep(h0: bytes, first: bytes, rest: bytes, h: bytes, h': bytes, x: bytes)
    requires |h0| == |h| == |h'| == HEADER && h0[0] == h[0] == h'[0]
    requires Be16(h0, 3) == |first| && Be16(h, 3) == |first| + Be16(h', 3)
    requires Deframe(h' + x) == Deframe(rest)
    ensures Deframe(h + (first + x)) == Deframe(h0 + (first + rest))
  {
    CutRecord(h, h0, h', first, x);
    DeframeWhole(h0, first, h' + x);
    DeframeWhole(h0, first, rest);
  }

  // ---- coalescing undoes fragmentation ----

  /** The buffer goes on, after its first record, with another complete handshake record header. */
  predicate Followed(d: bytes)
    requires |d| >= 5
  {
    |d| >= 5 + Be16(d, 3) + 5 && d[5 + Be16(d, 3)] == HANDSHAKE
  }

  /** Coalescing gives back exactly the buffer that was fragmented, whatever the split point, if and
      only if the record fits the 2^14 limit, the buffer fits the output and no further handshake
      record header follows. */
  lemma UndoesFragmentation(d: bytes, at: nat, outSize: nat)
    requires Splittable(d, at)
    ensures Coalesced(Fragmented(d, at), outSize) == Some(d)
       <==> Be16(d, 3) <= MAX_RECORD && |d| <= outSize && !Followed(d)
  {
    var f := Fragmented(d, at);
    GatherFragmented(d, at);
    GatherSize(f);
    if Gather(f).records == 2 && Gather(f).declared <= MAX_RECORD {
      Rebuilt(d, f, Gather(f));
    }
  }

  lemma {:induction false} GatherSize(s: bytes)
    ensures var g := Gather(s); |g.body| + 5 * g.records + |g.rest| == |s|
    decreases |s|
  {
    if |s| >= HEADER && s[0] == HANDSHAKE && Arrived(s) == Be16(s, 3) {
      GatherSize(s[HEADER + Arrived(s)..]);
    }
  }

  /** Two records are gathered from the fragmented buffer, or more when it is followed. */
  lemma GatherFragmented(d: bytes, at: nat)
    requires Splittable(d, at)
    ensures var g := Gather(Fragmented(d, at));
      if Followed(d) then g.records >= 3
      else g.records == 2 && g.declared == Be16(d, 3) && g.body + g.rest == d[5..]
  {
    var tail := FragmentedParts(d, at);
    TwoSlices(d, 5, 5 + at);
    GatherBoth(Fragmented(d, at), at, tail, d[5..5 + at], d[5 + at..], Followed(d), Be16(d, 3) - at);
  }

  lemma GatherBoth(f: bytes, at: nat, tail: bytes, first: bytes, rest: bytes, followed: bool, left: int)
    requires |f| >= HEADER + at && f[0] == HANDSHAKE && Be16(f, 3) == at && f[HEADER..HEADER + at] == first && f[HEADER + at..] == tail
    requires var g := Gather(tail);
      if followed then g.records >= 2 else g.records == 1 && g.declared == left && g.body + g.rest == rest
    ensures var g := Gather(f);
      if followed then g.records >= 3 else g.records == 2 && g.declared == at + left && g.body + g.rest == first + rest
  {
    GatherWhole(f, at, first, tail);
    JoinFirst(first, at, Gather(tail), rest, followed, left);
  }

  /** A record's body joined to what was gathered behind it. */
  lemma JoinFirst(first: bytes, n: nat, g: Gathered, rest: bytes, followed: bool, left: int)
    requires if followed then g.records >= 2 else g.records == 1 && g.declared == left && g.body + g.rest == rest
    ensures var j := Join(first, n, 1, g);
      if followed then j.records >= 3
      else j.records == 2 && j.declared == n + left && j.body + j.rest == first + rest
  {
    Assoc(first, g.body, g.rest);
  }

  lemma GatherWhole(s: bytes, n: nat, part: bytes, rest: bytes)
    requires |s| >= HEADER + n && s[0] == HANDSHAKE && Be16(s, 3) == n && part == s[HEADER..HEADER + n] && rest == s[HEADER + n..]
    ensures Gather(s) == Join(part, n, 1, Gather(rest))
  {
    assert Arrived(s) == n;
  }

  lemma TwoSlices(d: bytes, i: nat, j: nat)
    requires i <= j <= |d|
    ensures d[i..] == d[i..j] + d[j..]
  {
  }

  /** The first of the two records, and what is gathered from the second on. */
  lemma FragmentedParts(d: bytes, at: nat) returns (tail: bytes)
    requires Splittable(d, at)
    ensures var f := Fragmented(d, at);
      |f| >= 5 + at && f[0] == HANDSHAKE && Be16(f, 3) == at && f[5..5 + at] == d[5..5 + at] && f[5 + at..] == tail
    ensures var g := Gather(tail);
      if Followed(d) then g.records >= 2
      else g.records == 1 && g.declared == Be16(d, 3) - at && g.body + g.rest == d[5 + at..]
  {
    tail := (d[..3] + Enc16(Be16(d, 3) - at)) + d[5 + at..];
    CutParts(d, at);
    GatherSecond(d, at, tail);
  }

  lemma CutParts(d: bytes, at: nat)
    requires Splittable(d, at)
    ensures var f := Fragmented(d, at);
      && |f| >= 5 + at && f[0] == HANDSHAKE && Be16(f, 3) == at && f[5..5 + at] == d[5..5 + at]
      && f[5 + at..] == (d[..3] + Enc16(Be16(d, 3) - at)) + d[5 + at..]
  {
    var f := Fragmented(d, at);
    var h1 := d[..3] + Enc16(at);
    assert f[..5] == h1;
    assert Be16(f, 3) == Be16(f[..5], 3);
  }

  lemma GatherSecond(d: bytes, at: nat, tail: bytes)
    requires Splittable(d, at) && tail == (d[..3] + Enc16(Be16(d, 3) - at)) + d[5 + at..]
    ensures var g := Gather(tail);
      if Followed(d) then g.records >= 2
      else g.records == 1 && g.declared == Be16(d, 3) - at && g.body + g.rest == d[5 + at..]
  {
    var n := Be16(d, 3) - at;
    assert Be16(tail, 3) == n;
    assert tail[5..] == d[5 + at..];
    GatherLast(tail, n, d[5 + at..]);
  }

  /** A record that another may follow. */
  lemma GatherLast(s: bytes, n: nat, body: bytes)
    requires |s| >= HEADER && s[0] == HANDSHAKE && Be16(s, 3) == n && body == s[HEADER..]
    ensures var g := Gather(s);
      if |body| >= n + 5 && body[n] == HANDSHAKE then g.records >= 2
      else g.records == 1 && g.declared == n && g.body + g.rest == body
  {
    if n <= |body| {
      assert body[..n] == s[HEADER..HEADER + n] && body[n..] == s[HEADER + n..];
      GatherWhole(s, n, body[..n], body[n..]);
      GatherMore(body[n..]);
      PlusEmpty(body[..n]);
      TwoSlices(body, 0, n);
    } else {
      PlusEmpty(body);
    }
  }

  lemma GatherMore(s: bytes)
    ensures if |s| >= 5 && s[0] == HANDSHAKE then Gather(s).records >= 1 else Gather(s) == Gathered([], 0, 0, s)
  {
  }

  /** A gathering of all of a record under a header of the same type, version and length is it. */
  lemma Rebuilt(d: bytes, f: bytes, g: Gathered)
    requires |d| >= 5 && |f| >= 5 && f[..3] == d[..3] && d[0] == HANDSHAKE && g.declared == Be16(d, 3) && g.body + g.rest == d[5..]
    ensures [HANDSHAKE] + f[1..3] + Enc16(g.declared) + (g.body + g.rest) == d
  {
    assert f[1..3] == f[..3][1..] == d[1..3];
    assert Enc16(Be16(d, 3)) == d[3..5];
    assert d == [d[0]] + d[1..3] + d[3..5] + d[5..];
  }
}
