/** src/flow/flow.c with the classification step of src/nfqueue/nfqueue_engine.c: in-order
    reassembly of one direction of a TCP connection. */
module Flow {
  import opened Bytes
  import opened Packet
  import opened Sni

  const TABLE_MAX: nat := 4096
  const REASSEMBLY_CAP: nat := 16384
  const HOST_SIZE: nat := 256

  datatype Key = Key(family: nat, src: bytes, dst: bytes, srcPort: u16, dstPort: u16)

  datatype Class = Unclassified | Http | TlsHello | Passthrough

  /** One flow's reassembly and classification state. */
  datatype Flow = Flow(class_: Class, reasm: bytes, done: bool, nextSeq: u32, seqInitialized: bool)

  const FRESH: Flow := Flow(Unclassified, [], false, 0, false)

  /** What one data segment did to a flow: the new state, and the class and host it decided. */
  datatype Outcome = Outcome(flow: Flow, decided: Class, host: bytes)

  // ---- flow_seq_is_next, flow_reasm_append, classify ----

  function SeqIsNext(f: Flow, seqNo: u32, len: nat): (r: (Flow, bool))
  {
    if len == 0 then (f, false)
    else if !f.seqInitialized then (f.(seqInitialized := true, nextSeq := SeqPlus(seqNo, len)), true)
    else if seqNo != f.nextSeq then (f, false)
    else (f.(nextSeq := SeqPlus(f.nextSeq, len)), true)
  }

  function Classify(f: Flow, payload: bytes, http: bytes -> Result<bytes>): (r: Outcome)
  {
    if f.done || |payload| == 0 then Outcome(f, Unclassified, [])
    else if |f.reasm| + |payload| > REASSEMBLY_CAP then
      Outcome(f.(done := true, class_ := Passthrough), Passthrough, [])
    else
      var g := f.(reasm := f.reasm + payload);
      match ParseSni(g.reasm, HOST_SIZE)
      case Ok(host) => Outcome(g.(done := true, class_ := TlsHello), TlsHello, host)
      case Err(Truncated) => Outcome(g, Unclassified, [])
      case Err(_) =>
        match http(g.reasm)
        case Ok(host) => Outcome(g.(done := true, class_ := Http), Http, host)
        case Err(Truncated) => Outcome(g, Unclassified, [])
        case Err(_) => Outcome(g.(done := true, class_ := Passthrough), Passthrough, [])
  }

  /** A segment is classified only when it is exactly the next one. */
  function OnSegment(f: Flow, seqNo: u32, payload: bytes, http: bytes -> Result<bytes>): (r: Outcome)
  {
    var (g, next) := SeqIsNext(f, seqNo, |payload|);
    if next then Classify(g, payload, http) else Outcome(g, Unclassified, [])
  }

  /** A segment that completes a ClientHello completes its parsing. */
  lemma DecidedHello(f: Flow, seqNo: u32, payload: bytes, http: bytes -> Result<bytes>)
    ensures var o := OnSegment(f, seqNo, payload, http);
      o.decided == TlsHello ==> o.flow.reasm == f.reasm + payload && ParseSni(f.reasm + payload, 256) == Ok(o.host)
  {
  }

  // ---- runs over one byte stream ----

  /** A segment of a stream: the bytes from `off` to `end`. */
  datatype Segment = Segment(off: nat, end: nat)

  predicate OfStream(segs: seq<Segment>, stream: bytes)
  {
    forall s :: s in segs ==> s.off <= s.end <= |stream|
  }

  /** A flow after any arrivals, with the host of the ClientHello or web request it found, if any. */
  datatype Seen = Seen(flow: Flow, host: bytes)

  function Run(stream: bytes, isn: u32, segs: seq<Segment>, http: bytes -> Result<bytes>): (r: Seen)
    requires OfStream(segs, stream)
  {
    if |segs| == 0 then Seen(FRESH, [])
    else
      var last := segs[|segs| - 1];
      assert last in segs;
      assert OfStream(segs[..|segs| - 1], stream);
      var before := Run(stream, isn, segs[..|segs| - 1], http);
      Step(before, SeqPlus(isn, last.off), stream[last.off..last.end], http)
  }

  /** The offset of the first segment with data, and how far the in-order bytes reach. */
  function Reach(segs: seq<Segment>): (r: Option<(nat, nat)>)
    ensures r.Some? ==> r.value.0 <= r.value.1
  {
    if |segs| == 0 then None
    else
      var last := segs[|segs| - 1];
      match Reach(segs[..|segs| - 1])
      case None => if last.off < last.end then Some((last.off, last.end)) else None
      case Some((a, c)) => if last.off == c && last.off < last.end then Some((a, last.end)) else Some((a, c))
  }

  /** Sequence numbers of positions in a stream shorter than 2^32 are distinct. */
  lemma SeqInjective(isn: u32, a: nat, b: nat)
    requires a < 0x1_0000_0000 && b < 0x1_0000_0000 && SeqPlus(isn, a) == SeqPlus(isn, b)
    ensures a == b
  {
  }

  lemma SeqCompose(isn: u32, a: nat, n: nat)
    ensures SeqPlus(SeqPlus(isn, a), n) == SeqPlus(isn, a + n)
  {
  }

  /** The parsers' verdicts explain a flow's state: what holds of a flow whose buffer is `d`. The web parser
      is asked only where the bytes cannot become a ClientHello. */
  predicate Explains(d: bytes, s: Seen, http: bytes -> Result<bytes>)
  {
    var tls, web := ParseSni(d, HOST_SIZE), http(d);
    if !s.flow.done then s.flow.class_ == Unclassified && tls.Err? && (tls == Err(Truncated) || web == Err(Truncated))
    else if s.flow.class_ == TlsHello then tls == Ok(s.host)
    else if s.flow.class_ == Http then tls.Err? && tls != Err(Truncated) && web == Ok(s.host)
    else s.flow.class_ == Passthrough && tls.Err? && tls != Err(Truncated) && web.Err? && web != Err(Truncated)
  }

  /** What every run keeps. From the first data segment, at `a`, the in-order bytes reach `c`; the
      buffer is the contiguous slice of the stream from `a` to some `b`, all of the in-order bytes
      until the flow is decided; and the parser's verdict on it explains the flow's class, unless
      the flow was given up because the bytes outgrew the buffer. */
  predicate Slice(stream: bytes, isn: u32, a: nat, b: nat, c: nat, s: Seen, http: bytes -> Result<bytes>)
  {
    && a <= b <= c <= |stream| && b - a <= REASSEMBLY_CAP
    && s.flow.seqInitialized && s.flow.nextSeq == SeqPlus(isn, c)
    && s.flow.reasm == stream[a..b]
    && (!s.flow.done ==> b == c)
    && (Explains(stream[a..b], s, http) || (s.flow.done && s.flow.class_ == Passthrough && c - a > REASSEMBLY_CAP))
  }

  predicate Inv(stream: bytes, isn: u32, segs: seq<Segment>, s: Seen, b: nat, http: bytes -> Result<bytes>)
  {
    match Reach(segs)
    case None => s == Seen(FRESH, [])
    case Some((a, c)) => Slice(stream, isn, a, b, c, s, http)
  }

  function Step(s: Seen, seqNo: u32, payload: bytes, http: bytes -> Result<bytes>): (r: Seen)
  {
    var o := OnSegment(s.flow, seqNo, payload, http);
    Seen(o.flow, if o.decided == TlsHello || o.decided == Http then o.host else s.host)
  }

  lemma {:induction false} RunInv(stream: bytes, isn: u32, segs: seq<Segment>, http: bytes -> Result<bytes>) returns (b: nat)
    requires |stream| < 0x1_0000_0000 && OfStream(segs, stream)
    ensures Inv(stream, isn, segs, Run(stream, isn, segs, http), b, http)
    decreases |segs|
  {
    if |segs| == 0 {
      return 0;
    }
    var last, before := segs[|segs| - 1], segs[..|segs| - 1];
    assert last in segs;
    b := RunInv(stream, isn, before, http);
    var s := Run(stream, isn, before, http);
    match Reach(before) {
      case None => b := FirstSegment(stream, isn, last, s, http);
      case Some((a, c)) =>
        if last.off == c && last.off < last.end {
          b := NextSegment(stream, isn, a, b, c, last, s, http);
        } else {
          OtherSegment(stream, isn, a, b, c, last, s, http);
        }
    }
  }

  /** Appending and classifying keeps the buffer and the verdict in step. */
  lemma ClassifyExplains(s: Seen, payload: bytes, http: bytes -> Result<bytes>)
    requires !s.flow.done && s.flow.class_ == Unclassified && |payload| > 0
    ensures var o := Classify(s.flow, payload, http);
      var s' := Seen(o.flow, if o.decided == TlsHello || o.decided == Http then o.host else s.host);
      if |s.flow.reasm| + |payload| > REASSEMBLY_CAP then s'.flow == s.flow.(done := true, class_ := Passthrough)
      else
        && s'.flow.reasm == s.flow.reasm + payload
        && s'.flow.nextSeq == s.flow.nextSeq && s'.flow.seqInitialized == s.flow.seqInitialized
        && Explains(s'.flow.reasm, s', http)
  {
  }

  lemma FirstSegment(stream: bytes, isn: u32, seg: Segment, s: Seen, http: bytes -> Result<bytes>) returns (b: nat)
    requires seg.off <= seg.end <= |stream| && s == Seen(FRESH, [])
    ensures var s' := Step(s, SeqPlus(isn, seg.off), stream[seg.off..seg.end], http);
      if seg.off < seg.end then Slice(stream, isn, seg.off, b, seg.end, s', http) else s' == s
  {
    b := seg.off;
    if seg.off < seg.end {
      var payload := stream[seg.off..seg.end];
      SeqCompose(isn, seg.off, seg.end - seg.off);
      var f := s.flow.(seqInitialized := true, nextSeq := SeqPlus(isn, seg.end));
      assert SeqIsNext(s.flow, SeqPlus(isn, seg.off), |payload|) == (f, true);
      ClassifyExplains(Seen(f, s.host), payload, http);
      if |payload| <= REASSEMBLY_CAP {
        b := seg.end;
        assert [] + payload == payload;
      } else {
        assert stream[seg.off..seg.off] == [];
      }
    }
  }

  lemma NextSegment(stream: bytes, isn: u32, a: nat, b: nat, c: nat, seg: Segment, s: Seen, http: bytes -> Result<bytes>)
    returns (b': nat)
    requires Slice(stream, isn, a, b, c, s, http)
    requires seg.off == c < seg.end <= |stream|
    ensures Slice(stream, isn, a, b', seg.end, Step(s, SeqPlus(isn, seg.off), stream[seg.off..seg.end], http), http)
  {
    b' := b;
    var payload := stream[seg.off..seg.end];
    SeqCompose(isn, seg.off, seg.end - seg.off);
    var f := s.flow.(nextSeq := SeqPlus(isn, seg.end));
    assert SeqIsNext(s.flow, SeqPlus(isn, seg.off), |payload|) == (f, true);
    if !s.flow.done {
      ClassifyExplains(Seen(f, s.host), payload, http);
      if seg.end - a <= REASSEMBLY_CAP {
        b' := seg.end;
        assert stream[a..c] + payload == stream[a..seg.end];
      }
    }
  }

  /** A duplicate, an out-of-order or an empty segment changes nothing. */
  lemma OtherSegment(stream: bytes, isn: u32, a: nat, b: nat, c: nat, seg: Segment, s: Seen, http: bytes -> Result<bytes>)
    requires |stream| < 0x1_0000_0000
    requires Slice(stream, isn, a, b, c, s, http)
    requires seg.off <= seg.end <= |stream| && !(seg.off == c && seg.off < seg.end)
    ensures Step(s, SeqPlus(isn, seg.off), stream[seg.off..seg.end], http) == s
  {
    if SeqPlus(isn, seg.off) == SeqPlus(isn, c) {
      SeqInjective(isn, seg.off, c);
    }
  }

  // ---- main results ----

  /** However the segments of one byte stream shorter than 2^32 are cut, repeated and reordered, the
      buffer is a contiguous slice of the stream from the first data segment on. */
  lemma BufferIsSlice(stream: bytes, isn: u32, segs: seq<Segment>, http: bytes -> Result<bytes>) returns (b: nat)
    requires |stream| < 0x1_0000_0000 && OfStream(segs, stream)
    ensures match Reach(segs)
      case None => Run(stream, isn, segs, http).flow.reasm == []
      case Some((a, c)) => a <= b <= c <= |stream| && Run(stream, isn, segs, http).flow.reasm == stream[a..b]
  {
    b := RunInv(stream, isn, segs, http);
  }

  /** While the in-order bytes fit the buffer, a flow is found to be TLS, with a given host, exactly
      when those bytes parse to that host: the result depends on the bytes, not on how they were
      cut into segments nor on what arrived around them. */
  lemma HostIgnoresCutting(stream: bytes, isn: u32, segs: seq<Segment>, http: bytes -> Result<bytes>, host: bytes)
    requires |stream| < 0x1_0000_0000 && OfStream(segs, stream)
    requires Reach(segs).Some? && Reach(segs).value.1 - Reach(segs).value.0 <= REASSEMBLY_CAP
    ensures var (a, c) := Reach(segs).value; var s := Run(stream, isn, segs, http);
      && a <= c <= |stream|
      && (s.flow.class_ == TlsHello && s.host == host <==> ParseSni(stream[a..c], HOST_SIZE) == Ok(host))
  {
    var (a, c) := Reach(segs).value;
    var s := Run(stream, isn, segs, http);
    var b := RunInv(stream, isn, segs, http);
    assert stream[a..b] + stream[b..c] == stream[a..c];
    if ParseSni(stream[a..b], HOST_SIZE) != Err(Truncated) {
      Final(stream[a..b], stream[b..c], HOST_SIZE);
    }
  }

  // ---- data on a SYN ----

  /** The first `n` bytes of the stream ride on a SYN with number `isn`, which has a number of its own, so
      that every later byte is one further on. */
  function RunOnSyn(stream: bytes, isn: u32, n: nat, segs: seq<Segment>, http: bytes -> Result<bytes>): (r: Seen)
    requires n <= |stream| && OfStream(segs, stream)
  {
    RunBehind(Step(Seen(FRESH, []), isn, stream[..n], http), stream, isn, segs, http)
  }

  function RunBehind(first: Seen, stream: bytes, isn: u32, segs: seq<Segment>, http: bytes -> Result<bytes>): (r: Seen)
    requires OfStream(segs, stream)
  {
    if |segs| == 0 then first
    else
      var last := segs[|segs| - 1];
      assert last in segs;
      assert OfStream(segs[..|segs| - 1], stream);
      Step(RunBehind(first, stream, isn, segs[..|segs| - 1], http), SeqPlus(isn, last.off + 1), stream[last.off..last.end], http)
  }

  /** The flow knows the first `n` bytes and expects the number behind them; the parser's verdict on them
      is its class. */
  ghost predicate StallsAt(stream: bytes, isn: u32, n: nat, seen: Seen)
    requires n <= |stream|
  {
    && seen.flow.reasm == stream[..n] && seen.flow.seqInitialized && seen.flow.nextSeq == SeqPlus(isn, n)
    && (seen.flow.class_ == TlsHello <==> ParseSni(stream[..n], HOST_SIZE).Ok?)
    && (seen.flow.class_ == TlsHello ==> ParseSni(stream[..n], HOST_SIZE) == Ok(seen.host))
  }

  /** Then nothing after the SYN is ever taken for the next segment: the host is that of the bytes on the
      SYN, however many those are, and so does depend on the cutting. */
  lemma SynDataStalls(stream: bytes, isn: u32, n: nat, segs: seq<Segment>, http: bytes -> Result<bytes>)
    requires 0 < n <= |stream| < 0xFFFF_FFFF && n <= REASSEMBLY_CAP && OfStream(segs, stream) && forall s :: s in segs ==> n <= s.off
    ensures StallsAt(stream, isn, n, RunOnSyn(stream, isn, n, segs, http))
  {
    FirstBytes(isn, stream, n, http);
    Stalled(Step(Seen(FRESH, []), isn, stream[..n], http), stream, isn, n, segs, http);
  }

  lemma {:induction false} Stalled(first: Seen, stream: bytes, isn: u32, n: nat, segs: seq<Segment>, http: bytes -> Result<bytes>)
    requires 0 < n <= |stream| < 0xFFFF_FFFF && OfStream(segs, stream) && forall s :: s in segs ==> n <= s.off
    requires first.flow.seqInitialized && first.flow.nextSeq == SeqPlus(isn, n)
    ensures RunBehind(first, stream, isn, segs, http) == first
  {
    if |segs| > 0 {
      var last := segs[|segs| - 1];
      assert last in segs;
      assert OfStream(segs[..|segs| - 1], stream);
      Stalled(first, stream, isn, n, segs[..|segs| - 1], http);
      if SeqPlus(isn, last.off + 1) == SeqPlus(isn, n) {
        SeqInjective(isn, last.off + 1, n);
      }
      NotNext(first, SeqPlus(isn, last.off + 1), stream[last.off..last.end], http);
    }
  }

  lemma FirstBytes(isn: u32, stream: bytes, n: nat, http: bytes -> Result<bytes>)
    requires 0 < n <= |stream| && n <= REASSEMBLY_CAP
    ensures StallsAt(stream, isn, n, Step(Seen(FRESH, []), isn, stream[..n], http))
  {
    PlusEmpty(stream[..n]);
  }

  lemma NotNext(s: Seen, seqNo: u32, payload: bytes, http: bytes -> Result<bytes>)
    requires s.flow.seqInitialized && seqNo != s.flow.nextSeq
    ensures Step(s, seqNo, payload, http) == s
  {
  }
}
