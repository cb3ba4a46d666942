/** src/nfqueue/nfqueue_engine.c: what packet_callback does to the table of flows, packet after packet,
    with the packets of any number of connections mixed. */
module FlowRuns {
  import opened Bytes
  import opened Packet
  import opened Flow
  import opened FlowTable
  import opened Sni
  import Chains
  import Strategies

  const FLOW_TIMEOUT: int := 30

  type Resolve = bytes -> Chains.Chain

  type HttpParser = bytes -> Result<bytes>

  /** A TCP segment of some connection. */
  datatype Arrival = Arrival(key: Key, tcp: TcpView, now: int)

  /** SYN without ACK: a new connection. */
  predicate BareSyn(tcp: TcpView)
  {
    tcp.flags / 0x02 % 2 == 1 && tcp.flags / 0x10 % 2 == 0
  }

  /** A host name was found (a C string that is not empty). */
  predicate HasName(host: bytes)
  {
    |host| > 0 && host[0] != 0
  }

  // ---- one packet ----

  function Outcome4(f: Flow, tcp: TcpView, http: HttpParser): (o: Outcome)
  {
    OnSegment(f, tcp.seqNo, tcp.payload, http)
  }

  /** The entry with what the segment did to the flow, and the chain once there is a name. */
  function Advanced(e: Entry, tcp: TcpView, resolve: Resolve, http: HttpParser): (r: Entry)
  {
    var o := Outcome4(e.flow, tcp, http);
    var e1 := e.(flow := o.flow);
    if HasName(o.host) then e1.(decided := true, chain := resolve(o.host)) else e1
  }

  /** The entry the segment meets: its flow's own, or a new one if there is none or it opens one. */
  ghost function Met(s: seq<Entry>, p: Arrival, slot: nat): (e: Entry)
    requires slot < |s|
  {
    if Live(s, p.key, slot) && !BareSyn(p.tcp) then s[slot].(lastSeen := p.now) else Reset(p.key, p.now)
  }

  /** The flow's own slot, or when it has none a free one, or when there is none the oldest. */
  ghost predicate RightSlot(s: seq<Entry>, key: Key, slot: nat)
  {
    && slot < |s|
    && (Live(s, key, slot)
        || ((forall k: nat :: !Live(s, key, k))
            && (s[slot].inUse ==> forall j :: 0 <= j < |s| ==> s[j].inUse && s[slot].lastSeen <= s[j].lastSeen)))
  }

  function Aged(e: Entry, now: int): (r: Entry)
  {
    if e.inUse && now - e.lastSeen > 30 then EMPTY else e
  }

  /** The whole table after one segment: its slot advanced, every other as it was, the expired gone. */
  ghost predicate TableStep(s: seq<Entry>, p: Arrival, slot: nat, resolve: Resolve, http: HttpParser, t: seq<Entry>)
  {
    && RightSlot(s, p.key, slot) && |t| == |s|
    && forall j :: 0 <= j < |s| ==> t[j] == Aged(if j == slot then Advanced(Met(s, p, slot), p.tcp, resolve, http) else s[j], p.now)
  }

  // ---- many packets ----

  ghost predicate IsHistory(ss: seq<seq<Entry>>, ps: seq<Arrival>, resolve: Resolve, http: HttpParser)
  {
    && |ss| == |ps| + 1
    && (forall i :: 0 <= i < |ss| ==> UniqueKeys(ss[i]))
    && forall i :: 0 <= i < |ps| ==> Stepped(ss[i], ps[i], resolve, http, ss[i + 1])
  }

  ghost predicate Stepped(s: seq<Entry>, p: Arrival, resolve: Resolve, http: HttpParser, t: seq<Entry>)
  {
    exists slot: nat :: TableStep(s, p, slot, resolve, http, t)
  }

  lemma HistoryMore(ss: seq<seq<Entry>>, ps: seq<Arrival>, p: Arrival, slot: nat, resolve: Resolve, http: HttpParser, t: seq<Entry>)
    requires IsHistory(ss, ps, resolve, http) && UniqueKeys(t) && TableStep(ss[|ps|], p, slot, resolve, http, t)
    ensures IsHistory(ss + [t], ps + [p], resolve, http)
  {
    var ss', ps' := ss + [t], ps + [p];
    forall i | 0 <= i < |ps'|
      ensures Stepped(ss'[i], ps'[i], resolve, http, ss'[i + 1])
    {
      if i < |ps| {
        assert Stepped(ss[i], ps[i], resolve, http, ss[i + 1]);
      }
    }
  }

  /** What the table remembers of one connection. */
  datatype Memory = Memory(flow: Flow, decided: bool, chain: seq<Strategies.Strategy>)

  function MemoryOf(e: Entry): (m: Memory)
  {
    Memory(e.flow, e.decided, e.chain)
  }

  function Recalled(m: Memory, tcp: TcpView, resolve: Resolve, http: HttpParser): (r: Memory)
  {
    var o := Outcome4(m.flow, tcp, http);
    if HasName(o.host) then Memory(o.flow, true, resolve(o.host)) else m.(flow := o.flow)
  }

  /** A connection's memory of its own segments alone. */
  function MemoryAfter(ps: seq<Arrival>, resolve: Resolve, http: HttpParser): (m: Memory)
  {
    if |ps| == 0 then Memory(FRESH, false, [])
    else Recalled(MemoryAfter(ps[..|ps| - 1], resolve, http), ps[|ps| - 1].tcp, resolve, http)
  }

  function Own(ps: seq<Arrival>, key: Key): (r: seq<Arrival>)
  {
    if |ps| == 0 then [] else Own(ps[..|ps| - 1], key) + if ps[|ps| - 1].key == key then [ps[|ps| - 1]] else []
  }

  /** A packet of another connection leaves a flow that is still there as it was. */
  lemma OthersLeaveIt(s: seq<Entry>, p: Arrival, resolve: Resolve, http: HttpParser, t: seq<Entry>, key: Key, a: nat, b: nat)
    requires UniqueKeys(s) && Stepped(s, p, resolve, http, t) && p.key != key && Live(s, key, a) && Live(t, key, b)
    ensures MemoryOf(t[b]) == MemoryOf(s[a])
  {
    var slot: nat :| TableStep(s, p, slot, resolve, http, t);
    assert t[b] == Aged(if b == slot then Advanced(Met(s, p, slot), p.tcp, resolve, http) else s[b], p.now);
    assert b == a;
  }

  lemma OwnAdvances(s: seq<Entry>, p: Arrival, resolve: Resolve, http: HttpParser, t: seq<Entry>, a: nat, b: nat)
    requires UniqueKeys(s) && Stepped(s, p, resolve, http, t) && Live(s, p.key, a) && Live(t, p.key, b) && !BareSyn(p.tcp)
    ensures MemoryOf(t[b]) == Recalled(MemoryOf(s[a]), p.tcp, resolve, http)
  {
    var slot: nat :| TableStep(s, p, slot, resolve, http, t);
    assert slot == a;
    assert t[a] == Aged(Advanced(Met(s, p, a), p.tcp, resolve, http), p.now);
    assert b == a;
  }

  lemma FirstStarts(s: seq<Entry>, p: Arrival, resolve: Resolve, http: HttpParser, t: seq<Entry>, b: nat)
    requires UniqueKeys(s) && Stepped(s, p, resolve, http, t) && Live(t, p.key, b)
    requires BareSyn(p.tcp) || forall k: nat :: !Live(s, p.key, k)
    ensures MemoryOf(t[b]) == Recalled(Memory(FRESH, false, []), p.tcp, resolve, http)
  {
    var slot: nat :| TableStep(s, p, slot, resolve, http, t);
    assert Live(s, p.key, b) ==> b == slot;
  }

  /** A connection from its first packet, or a new SYN, for as long as it is in the table. */
  ghost predicate Lasts(ss: seq<seq<Entry>>, ps: seq<Arrival>, key: Key)
  {
    && |ss| == |ps| + 1 && |ps| > 0
    && ps[0].key == key && (BareSyn(ps[0].tcp) || forall k: nat :: !Live(ss[0], key, k))
    && (forall i :: 0 < i < |ps| && ps[i].key == key ==> !BareSyn(ps[i].tcp))
    && forall i :: 0 < i < |ss| ==> IsLive(ss[i], key)
  }

  ghost predicate IsLive(s: seq<Entry>, key: Key)
  {
    exists k: nat :: Live(s, key, k)
  }

  /** Whatever other connections do meanwhile, what the table holds of a connection is its memory of
      its own segments. */
  lemma {:induction false} FlowsAreSeparate(ss: seq<seq<Entry>>, ps: seq<Arrival>, resolve: Resolve, http: HttpParser, key: Key, b: nat)
    requires IsHistory(ss, ps, resolve, http) && Lasts(ss, ps, key) && Live(ss[|ps|], key, b)
    ensures MemoryOf(ss[|ps|][b]) == MemoryAfter(Own(ps, key), resolve, http)
    decreases |ps|
  {
    var n := |ps| - 1;
    var p, s, t := ps[n], ss[n], ss[n + 1];
    assert Stepped(ss[n], ps[n], resolve, http, ss[n + 1]);
    if n == 0 {
      FirstStarts(s, p, resolve, http, t, b);
      assert ps[..0] == [] && Own([], key) == [];
      OwnOne(ps, key);
    } else {
      assert IsLive(ss[n], key);
      var a: nat :| Live(ss[n], key, a);
      Shorter(ss, ps, resolve, http, key);
      FlowsAreSeparate(ss[..n + 1], ps[..n], resolve, http, key, a);
      if p.key == key {
        OwnAdvances(s, p, resolve, http, t, a, b);
        MemoryMore(Own(ps[..n], key), p, resolve, http);
      } else {
        OthersLeaveIt(s, p, resolve, http, t, key, a, b);
        PlusEmpty(Own(ps[..n], key));
      }
    }
  }

  lemma OwnOne(ps: seq<Arrival>, key: Key)
    requires |ps| == 1 && ps[0].key == key
    ensures Own(ps, key) == [ps[0]]
  {
    assert ps[..0] == [];
  }

  lemma MemoryMore(ps: seq<Arrival>, p: Arrival, resolve: Resolve, http: HttpParser)
    ensures MemoryAfter(ps + [p], resolve, http) == Recalled(MemoryAfter(ps, resolve, http), p.tcp, resolve, http)
  {
    assert (ps + [p])[..|ps|] == ps;
  }

  lemma Shorter(ss: seq<seq<Entry>>, ps: seq<Arrival>, resolve: Resolve, http: HttpParser, key: Key)
    requires |ps| > 1 && IsHistory(ss, ps, resolve, http) && Lasts(ss, ps, key)
    ensures var n := |ps| - 1; IsHistory(ss[..n + 1], ps[..n], resolve, http) && Lasts(ss[..n + 1], ps[..n], key)
  {
    var n := |ps| - 1;
    var ss', ps' := ss[..n + 1], ps[..n];
    forall i | 0 <= i < n
      ensures Stepped(ss'[i], ps'[i], resolve, http, ss'[i + 1])
    {
      assert Stepped(ss[i], ps[i], resolve, http, ss[i + 1]);
    }
  }

  // ---- the segments of one byte stream ----

  /** The segments carry these pieces of the stream. */
  predicate Carry(own: seq<Arrival>, stream: bytes, isn: u32, segs: seq<Segment>)
  {
    && OfStream(segs, stream) && |own| == |segs|
    && forall i :: 0 <= i < |own| ==> CarriesPiece(own[i], stream, isn, segs[i])
  }

  predicate CarriesPiece(p: Arrival, stream: bytes, isn: u32, seg: Segment)
  {
    seg.off <= seg.end <= |stream| && p.tcp.seqNo == SeqPlus(isn, seg.off) && p.tcp.payload == stream[seg.off..seg.end]
  }

  /** A class is final, and the host that was found has had its chain looked up. */
  predicate Tells(m: Memory, seen: Seen, resolve: Resolve)
  {
    && m.flow == seen.flow && (m.flow.class_ != Unclassified ==> m.flow.done)
    && ((m.flow.class_ == TlsHello || m.flow.class_ == Http) && HasName(seen.host) ==> m.decided && m.chain == resolve(seen.host))
  }

  lemma RecalledTells(m: Memory, seen: Seen, tcp: TcpView, resolve: Resolve, http: HttpParser)
    requires Tells(m, seen, resolve)
    ensures Tells(Recalled(m, tcp, resolve, http), Step(seen, tcp.seqNo, tcp.payload, http), resolve)
  {
  }

  lemma {:induction false} MemoryIsRun(own: seq<Arrival>, stream: bytes, isn: u32, segs: seq<Segment>, resolve: Resolve, http: HttpParser)
    requires Carry(own, stream, isn, segs)
    ensures Tells(MemoryAfter(own, resolve, http), Run(stream, isn, segs, http), resolve)
  {
    if |own| > 0 {
      var n := |own| - 1;
      assert OfStream(segs[..n], stream);
      assert CarriesPiece(own[n], stream, isn, segs[n]);
      MemoryIsRun(own[..n], stream, isn, segs[..n], resolve, http);
      RecalledTells(MemoryAfter(own[..n], resolve, http), Run(stream, isn, segs[..n], http), own[n].tcp, resolve, http);
    }
  }

  /** Through the engine, mixed with any other traffic: however a connection's bytes are cut, repeated
      and reordered, while they fit the buffer its entry in the table is that of a ClientHello with a
      host exactly when the in-order bytes parse so, and the chain kept is that host's. */
  lemma EntryIgnoresCutting(ss: seq<seq<Entry>>, ps: seq<Arrival>, resolve: Resolve, http: HttpParser, key: Key, b: nat,
                            stream: bytes, isn: u32, segs: seq<Segment>, host: bytes)
    requires IsHistory(ss, ps, resolve, http) && Lasts(ss, ps, key) && Live(ss[|ps|], key, b)
    requires Carry(Own(ps, key), stream, isn, segs) && |stream| < 0x1_0000_0000
    requires Reach(segs).Some? && Reach(segs).value.1 - Reach(segs).value.0 <= REASSEMBLY_CAP
    ensures var (a, c) := Reach(segs).value; var e := ss[|ps|][b];
      && a <= c <= |stream|
      && (e.flow.class_ == TlsHello <==> ParseSni(stream[a..c], HOST_SIZE).Ok?)
      && (ParseSni(stream[a..c], HOST_SIZE) == Ok(host) && HasName(host) ==> e.decided && e.chain == resolve(host))
  {
    FlowsAreSeparate(ss, ps, resolve, http, key, b);
    MemoryIsRun(Own(ps, key), stream, isn, segs, resolve, http);
    HostIgnoresCutting(stream, isn, segs, http, host);
    HostIgnoresCutting(stream, isn, segs, http, Run(stream, isn, segs, http).host);
    var (a, c) := Reach(segs).value;
    if ParseSni(stream[a..c], HOST_SIZE).Ok? {
      HostIgnoresCutting(stream, isn, segs, http, ParseSni(stream[a..c], HOST_SIZE).value);
    }
  }
}
