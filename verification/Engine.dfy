/** src/nfqueue/nfqueue_engine.c: what happens to one captured packet. */
module Engine {
  import opened Bytes
  import opened Packet
  import opened Flow
  import opened FlowTable
  import opened FlowRuns
  import opened Chains
  import Sends
  import Sni
  import Receiver
  import Strategies
  import Tls
  import Splitter = Split
  import Fragmenter = Fragment
  import Faker = Fake

  const PKT_BUFFER: nat := 65536

  /** The engine's effects on the outside world are its raw sends and its verdicts, in order. Strategy
      lookup and HTTP parsing are given functions; whether a send succeeds is up to the environment. */
  class Engine {
    const resolve: Resolve
    const http: HttpParser
    const fakeTtl: byte
    const sendOk: nat -> bool
    const flows: Table
    var trace: seq<Act>

    constructor (resolve: Resolve, http: HttpParser, fakeTtl: byte, sendOk: nat -> bool)
      ensures flows.Valid() && fresh(flows) && fresh(flows.entries) && trace == []
      ensures this.resolve == resolve && this.http == http && this.fakeTtl == fakeTtl && this.sendOk == sendOk
    {
      this.resolve, this.http, this.fakeTtl, this.sendOk := resolve, http, fakeTtl, sendOk;
      flows := new Table();
      trace := [];
    }

    /** inject_or_log */
    method Inject(pkt: bytes) returns (ok: bool)
      modifies `trace
      ensures ok == sendOk(|old(trace)|) && trace == old(trace) + [Sent(pkt, ok)]
    {
      ok := sendOk(|trace|);
      trace := trace + [Sent(pkt, ok)];
    }

    method NfqSetVerdict(v: Verdict)
      modifies `trace
      ensures trace == old(trace) + [Gave(v)]
    {
      trace := trace + [Gave(v)];
    }

    /** build_decoy: best effort, never fatal. */
    method BuildDecoy(template: bytes) returns (ok: bool, pkt: bytes)
      requires |template| <= PKT_BUFFER
      ensures ok <==> Read4(template).Ok? && Read4(template).value.data != []
      ensures ok ==> DecoyOf(Read4(template).value, fakeTtl, pkt)
    {
      var out := new byte[PKT_BUFFER];
      var r;
      ghost var d;
      r, d := Faker.MakeFakeTcpV4(template, fakeTtl, out);
      if r.Err? {
        ok, pkt := false, [];
      } else {
        ok, pkt := true, out[..r.value];
      }
    }

    method FindCut(payload: bytes) returns (at: nat)
      ensures at == CutOf(payload)
    {
      var split := Tls.TlsFindSniSplit(payload);
      return if split.None? || split.value == 0 || split.value >= |payload| then 0 else split.value;
    }

    method BuildFragments(raw: bytes, at: nat, ghost k: Packet4) returns (ok: bool, w1: bytes, w2: bytes)
      requires |raw| <= PKT_BUFFER && Read4(raw) == Ok(k) && WellFormed(k) && 0 < at < |k.data|
      ensures ok <==> Fragmenter.RoundUp(|k.tcp| + at) < |k.tcp| + |k.data|
      ensures ok ==> Fragments(k, at, w1, w2)
    {
      var seg1, seg2 := new byte[PKT_BUFFER], new byte[PKT_BUFFER];
      var r := Fragmenter.FragmentIpv4(raw, at, seg1, seg2);
      FragmentsBuilt(k, at, r, seg1[..], seg2[..]);
      ok := r.Ok?;
      if ok {
        w1, w2 := seg1[..][..r.value.0], seg2[..][..r.value.1];
      } else {
        w1, w2 := [], [];
      }
    }

    /** The two TCP segments of a packet. */
    method BuildPieces(raw: bytes, at: nat, ghost k: Packet4) returns (ok: bool, w1: bytes, w2: bytes, ghost s2: Packet4)
      requires |raw| <= PKT_BUFFER && Read4(raw) == Ok(k) && WellFormed(k) && 0 < at < |k.data|
      ensures ok && |w2| <= PKT_BUFFER && PieceOf(k, 0, at, w1)
      ensures w2 == Wire4(s2) && Splitter.IsPiece(k, at, |k.data|, s2)
    {
      var seg1, seg2 := new byte[PKT_BUFFER], new byte[PKT_BUFFER];
      var r;
      ghost var s1;
      r, s1, s2 := Splitter.SplitTcpV4(raw, at, seg1, seg2);
      ok := r.Ok?;
      w1, w2 := seg1[..r.value.0], seg2[..r.value.1];
    }

    // ---- the sends of each chain ----

    /** Two packets, the second only if the first went out. */
    method SendBoth(a: bytes, b: bytes) returns (ghost acts: seq<Act>)
      modifies `trace
      ensures trace == old(trace) + acts && OkBy(acts, sendOk, |old(trace)|)
      ensures forall shape: Shape :: StopsAfter(shape) == 0 ==> Attempted(shape, [a, b], acts)
    {
      var ok := Inject(a);
      acts := [Sent(a, ok)];
      if ok {
        var ok2 := Inject(b);
        acts := [Sent(a, ok), Sent(b, ok2)];
      }
    }

    /** A best-effort decoy, then two packets, the second only if the first went out. */
    method SendAfter(d: bytes, a: bytes, b: bytes) returns (ghost acts: seq<Act>)
      modifies `trace
      ensures trace == old(trace) + acts && OkBy(acts, sendOk, |old(trace)|) && Attempted(FakeThenSplit, [d, a, b], acts)
    {
      var ok := Inject(d);
      var ok1 := Inject(a);
      acts := [Sent(d, ok), Sent(a, ok1)];
      if ok1 {
        var ok2 := Inject(b);
        acts := [Sent(d, ok), Sent(a, ok1), Sent(b, ok2)];
      }
    }

    /** Two packets with a best-effort decoy between them. */
    method SendAround(a: bytes, d: bytes, b: bytes) returns (ghost acts: seq<Act>)
      modifies `trace
      ensures trace == old(trace) + acts && OkBy(acts, sendOk, |old(trace)|) && Attempted(SplitThenFake, [a, d, b], acts)
    {
      var ok := Inject(a);
      var ok1 := Inject(d);
      var ok2 := Inject(b);
      acts := [Sent(a, ok), Sent(d, ok1), Sent(b, ok2)];
    }

    /** A decoy beside the original, which the caller accepts. */
    method ApplyFake(raw: bytes, ghost k: Packet4, ghost at: nat) returns (ghost wire: seq<bytes>, ghost acts: seq<Act>)
      requires |raw| <= PKT_BUFFER && Read4(raw) == Ok(k) && WellFormed(k) && (at == 0 || at < |k.data|)
      modifies `trace
      ensures trace == old(trace) + acts && OkBy(acts, sendOk, |old(trace)|)
      ensures PutsOut(k, fakeTtl, JustFake, at, wire) && Attempted(JustFake, wire, acts)
    {
      var ok, decoy := BuildDecoy(raw);
      wire, acts := [], [];
      if ok {
        var sent := Inject(decoy);
        wire, acts := [decoy], [Sent(decoy, sent)];
      }
    }

    /** Two IP fragments in place of the original. */
    method ApplyFragment(raw: bytes, at: nat, ghost k: Packet4) returns (handled: bool, ghost wire: seq<bytes>, ghost acts: seq<Act>)
      requires |raw| <= PKT_BUFFER && Read4(raw) == Ok(k) && WellFormed(k) && 0 < at < |k.data|
      modifies `trace
      ensures handled <==> Replaces(k, JustFragment, at)
      ensures trace == old(trace) + Ended(acts, handled) && OkBy(acts, sendOk, |old(trace)|)
      ensures PutsOut(k, fakeTtl, JustFragment, at, wire) && Attempted(JustFragment, wire, acts)
    {
      var w1, w2;
      handled, w1, w2 := BuildFragments(raw, at, k);
      wire, acts := [], [];
      if handled {
        acts := SendBoth(w1, w2);
        wire := [w1, w2];
        NfqSetVerdict(Drop);
      }
    }

    /** The chains made of two TCP segments, with or without a decoy. */
    method ApplySplit(raw: bytes, at: nat, shape: Shape, ghost k: Packet4) returns (handled: bool, ghost wire: seq<bytes>, ghost acts: seq<Act>)
      requires |raw| <= PKT_BUFFER && Read4(raw) == Ok(k) && WellFormed(k) && 0 < at < |k.data|
      requires !shape.JustFragment? && !shape.JustFake?
      modifies `trace
      ensures handled <==> Replaces(k, shape, at)
      ensures trace == old(trace) + Ended(acts, handled) && OkBy(acts, sendOk, |old(trace)|)
      ensures PutsOut(k, fakeTtl, shape, at, wire) && Attempted(shape, wire, acts)
    {
      handled, wire, acts := false, [], [];
      var ok, w1, w2;
      ghost var s2;
      ok, w1, w2, s2 := BuildPieces(raw, at, k);
      if ok && IsSplitShape(shape) {
        wire, acts := SendPieces(raw, at, shape, w1, w2, k, s2);
        NfqSetVerdict(Drop);
        handled := true;
      }
    }

    method SendPieces(raw: bytes, at: nat, shape: Shape, w1: bytes, w2: bytes, ghost k: Packet4, ghost s2: Packet4)
      returns (ghost wire: seq<bytes>, ghost acts: seq<Act>)
      requires |raw| <= PKT_BUFFER && Read4(raw) == Ok(k) && WellFormed(k) && 0 < at < |k.data| && |w2| <= PKT_BUFFER
      requires PieceOf(k, 0, at, w1) && w2 == Wire4(s2) && Splitter.IsPiece(k, at, |k.data|, s2) && IsSplitShape(shape)
      modifies `trace
      ensures trace == old(trace) + acts && OkBy(acts, sendOk, |old(trace)|)
      ensures PutsOut(k, fakeTtl, shape, at, wire) && Attempted(shape, wire, acts)
    {
      if shape.JustSplit? {
        wire := [w1, w2];
        acts := SendBoth(w1, w2);
      } else if shape.JustDisorder? {
        wire := [w2, w1];
        acts := SendBoth(w2, w1);
      } else {
        var decoy := DecoyFor(raw, shape, w2, k, s2);
        if shape.FakeThenSplit? {
          wire := [decoy, w1, w2];
          acts := SendAfter(decoy, w1, w2);
        } else {
          wire := [w1, decoy, w2];
          acts := SendAround(w1, decoy, w2);
        }
        DecoysPutOut(k, fakeTtl, shape, at, decoy, w1, w2, s2);
      }
      PiecesPutOut(k, fakeTtl, shape, at, w1, w2, s2);
    }

    /** The decoy of a chain: of the original when it leads, else of the second segment. */
    method DecoyFor(raw: bytes, shape: Shape, w2: bytes, ghost k: Packet4, ghost s2: Packet4) returns (decoy: bytes)
      requires |raw| <= PKT_BUFFER && Read4(raw) == Ok(k) && k.data != []
      requires |w2| <= PKT_BUFFER && WellFormed(s2) && w2 == Wire4(s2) && s2.data != []
      ensures DecoyOf(if shape.FakeThenSplit? then k else s2, fakeTtl, decoy)
    {
      ReadPrefix(s2, w2);
      var ok;
      ok, decoy := BuildDecoy(if shape.FakeThenSplit? then raw else w2);
      if !ok {
        assert false; // both have a payload, so there is always a decoy
      }
    }

    /** try_apply_chain. It drops exactly the packets that the chain replaces. Whatever sends succeed,
        those made are the chain's packets in order, up to a failure that makes the rest pointless, and
        the drop comes after them. */
    method TryApplyChain(raw: bytes, payload: bytes, shape: Shape, ghost k: Packet4)
      returns (handled: bool, ghost cut: nat, ghost wire: seq<bytes>, ghost acts: seq<Act>)
      requires |raw| <= PKT_BUFFER && Read4(raw) == Ok(k) && WellFormed(k) && payload == k.data
      modifies `trace
      ensures cut == CutOf(k.data) && (handled <==> Replaces(k, shape, cut))
      ensures trace == old(trace) + Ended(acts, handled) && OkBy(acts, sendOk, |old(trace)|)
      ensures PutsOut(k, fakeTtl, shape, cut, wire) && Attempted(shape, wire, acts)
    {
      var at := FindCut(payload); // which reads only, so it may come before the lone decoy is handled
      cut := at;
      handled, wire, acts := ApplyAt(raw, at, shape, k);
    }

    method ApplyAt(raw: bytes, at: nat, shape: Shape, ghost k: Packet4) returns (handled: bool, ghost wire: seq<bytes>, ghost acts: seq<Act>)
      requires |raw| <= PKT_BUFFER && Read4(raw) == Ok(k) && WellFormed(k) && (at == 0 || at < |k.data|)
      modifies `trace
      ensures handled <==> Replaces(k, shape, at)
      ensures trace == old(trace) + Ended(acts, handled) && OkBy(acts, sendOk, |old(trace)|)
      ensures PutsOut(k, fakeTtl, shape, at, wire) && Attempted(shape, wire, acts)
    {
      handled, wire, acts := false, [], [];
      if shape.JustFake? {
        wire, acts := ApplyFake(raw, k, at);
      } else if at == 0 {
        PlusEmpty(trace);
      } else if shape.JustFragment? {
        handled, wire, acts := ApplyFragment(raw, at, k);
      } else {
        handled, wire, acts := ApplySplit(raw, at, shape, k);
      }
    }

    // ---- the flow of a packet ----

    /** The flow of a segment found or created, restarted by a bare SYN, and advanced by the segment. */
    method AdvanceFlow(p: Arrival) returns (slot: nat, o: Outcome)
      requires flows.Valid()
      modifies flows, flows.entries
      ensures flows.Valid() && RightSlot(old(flows.entries[..]), p.key, slot)
      ensures var e := Met(old(flows.entries[..]), p, slot);
        o == Outcome4(e.flow, p.tcp, http) && flows.entries[..] == old(flows.entries[..])[slot := e.(flow := o.flow)]
    {
      var count := flows.live;
      ghost var before := flows.entries[..];
      slot := flows.LookupOrCreate(p.key, p.now);
      if flows.live == count && p.tcp.flags / 2 % 2 == 1 && p.tcp.flags / 16 % 2 == 0 {
        flows.Put(slot, Reset(p.key, p.now));
      }
      var e := flows.entries[slot];
      MetIs(before, p, slot, e);
      o := OnSegment(e.flow, p.tcp.seqNo, p.tcp.payload, http);
      flows.Put(slot, e.(flow := o.flow));
    }

    /** The chain for this packet: resolved by the packet that completes classification, and
        remembered for the rest of the flow. */
    method DecideChain(slot: nat, host: bytes) returns (chain: Chain)
      requires flows.Valid() && slot < TABLE_MAX && flows.entries[slot].inUse
      modifies flows.entries
      ensures flows.Valid()
      ensures var e := old(flows.entries[slot]);
        && chain == ChainFor(e, host)
        && flows.entries[..] == old(flows.entries[..])[slot := if HasName(host) then e.(decided := true, chain := chain) else e]
    {
      chain := [Strategies.Pass];
      var e := flows.entries[slot];
      if |host| > 0 && host[0] != 0 {
        chain := resolve(host);
        flows.Put(slot, e.(decided := true, chain := chain));
      } else if e.decided && |e.chain| > 0 {
        chain := e.chain;
      }
    }

    function ChainFor(e: Entry, host: bytes): Chain
    {
      if HasName(host) then resolve(host) else if e.decided && |e.chain| > 0 then e.chain else [Strategies.Pass]
    }

    /** What a segment does to the table, and the chain its packet is to be given. */
    method TakeSegment(p: Arrival) returns (slot: nat, o: Outcome, chain: Chain)
      requires flows.Valid()
      modifies flows, flows.entries
      ensures flows.Valid() && SegmentTaken(old(flows.entries[..]), p, slot, o, chain, flows.entries[..])
      ensures slot < TABLE_MAX && flows.entries[slot].flow == o.flow
    {
      slot, o := AdvanceFlow(p);
      chain := DecideChain(slot, o.host);
      var evicted := flows.EvictExpired(p.now, FLOW_TIMEOUT);
    }

    /** The TCP segment of a packet and the flow it belongs to, if it is one. */
    method Identify(raw: bytes, now: int) returns (p: Option<Arrival>, isV4: bool)
      ensures isV4 <==> Read4(raw).Ok?
      ensures p == ArrivalOf(raw, now)
    {
      p, isV4 := None, false;
      if |raw| < 1 {
        return;
      }
      if raw[0] / 16 == 4 {
        var ip := ParseIpv4(raw);
        if ip.Ok? && ip.value.protocol == IPPROTO_TCP {
          var t := ParseTcp(ip.value.payload);
          if t.Ok? {
            isV4 := true;
            p := Some(Arrival(Key(4, raw[12..16], raw[16..20], Be16(ip.value.payload, 0), Be16(ip.value.payload, 2)), t.value, now));
            Identified4(raw, now, p.value);
          }
        }
      } else if raw[0] / 16 == 6 {
        var ip := ParseIpv6(raw);
        if ip.Ok? {
          var t := ParseTcp(ip.value.payload);
          if t.Ok? {
            p := Some(Arrival(Key(6, raw[8..24], raw[24..40], Be16(ip.value.payload, 0), Be16(ip.value.payload, 2)), t.value, now));
            Identified6(raw, now, p.value);
          }
        }
      }
    }

    /** The chain of a packet that is given one, and its verdict. */
    method GiveChain(raw: bytes, payload: bytes, chain: Chain, ghost o: Outcome)
      returns (v: Verdict, ghost wire: seq<bytes>, ghost acts: seq<Act>)
      requires |raw| <= PKT_BUFFER && Read4(raw).Ok? && payload == Read4(raw).value.data && Eligible(o, chain, |payload|)
      modifies `trace
      ensures trace == old(trace) + (acts + [Gave(v)]) && OkBy(acts, sendOk, |old(trace)|)
      ensures HandledRight(raw, fakeTtl, o, chain, v, wire, acts) && ReceivedRight(raw, ShapeOf(chain), v, wire, acts)
    {
      ReadWellFormed(raw);
      var handled;
      ghost var cut;
      handled, cut, wire, acts := TryApplyChain(raw, payload, ShapeOf(chain), Read4(raw).value);
      v := if handled then Drop else Accept;
      ChainGiven(raw, fakeTtl, o, chain, v, cut, wire, acts);
      if !handled {
        NfqSetVerdict(Accept);
      }
    }

    /** A packet that is given none. */
    method Pass(raw: bytes, ghost o: Outcome, ghost chain: Chain)
      requires Read4(raw).Ok? ==> !Eligible(o, chain, |Read4(raw).value.data|)
      modifies `trace
      ensures trace == old(trace) + [Gave(Accept)]
      ensures Read4(raw).Ok? ==>
        HandledRight(raw, fakeTtl, o, chain, Accept, [], []) && ReceivedRight(raw, ShapeOf(chain), Accept, [], [])
    {
      if Read4(raw).Ok? {
        PassedThrough(raw, ShapeOf(chain));
      }
      NfqSetVerdict(Accept);
    }

    /** packet_callback. Every packet gets one verdict, and it comes last. A packet that is no TCP
        segment passes and leaves the table alone; a segment takes one step of the table. An IPv4 packet
        is given its chain exactly when its segment completes a ClientHello that it holds whole, and is
        dropped exactly when the chain replaces it; every other packet passes with nothing sent. */
    method OnPacket(raw: bytes, now: int)
      returns (v: Verdict, ghost slot: nat, ghost o: Outcome, ghost chain: Chain, ghost wire: seq<bytes>, ghost acts: seq<Act>)
      requires flows.Valid() && |raw| <= PKT_BUFFER
      modifies `trace, flows, flows.entries
      ensures flows.Valid() && trace == old(trace) + (acts + [Gave(v)]) && OkBy(acts, sendOk, |old(trace)|)
      ensures ArrivalOf(raw, now).None? ==> flows.entries[..] == old(flows.entries[..])
      ensures ArrivalOf(raw, now).Some? ==> SegmentTaken(old(flows.entries[..]), ArrivalOf(raw, now).value, slot, o, chain, flows.entries[..])
      ensures Read4(raw).Err? ==> v == Accept && acts == []
      ensures Read4(raw).Ok? ==>
        ArrivalOf(raw, now).Some? && HandledRight(raw, fakeTtl, o, chain, v, wire, acts) && ReceivedRight(raw, ShapeOf(chain), v, wire, acts)
      ensures Read4(raw).Ok? ==> SentFor(Read4(raw).value, fakeTtl, o, chain, v, wire, acts)
    {
      v, slot, o, chain, wire, acts := Accept, 0, Outcome(FRESH, Unclassified, []), [Strategies.Pass], [], [];
      var p, isV4 := Identify(raw, now);
      if isV4 {
        HasPayloadOf(raw, now);
      }
      if p.None? {
        NfqSetVerdict(Accept);
        return;
      }
      var s, outcome, c := TakeSegment(p.value);
      slot, o, chain := s, outcome, c;
      v, wire, acts := Judge(raw, isV4, p.value.tcp.payload, c, outcome, |flows.entries[s].flow.reasm|);
      if isV4 {
        SendsRight(raw, fakeTtl, Met(old(flows.entries[..]), p.value, s).flow, p.value.tcp, http, o, chain, v, wire, acts);
      }
    }

    /** Packets one after the other: the table goes through a history of their segments. */
    method OnPackets(raws: seq<bytes>, now: nat -> int) returns (ghost ss: seq<seq<Entry>>)
      requires flows.Valid() && forall i :: 0 <= i < |raws| ==> |raws[i]| <= PKT_BUFFER
      modifies `trace, flows, flows.entries
      ensures flows.Valid() && IsHistory(ss, ArrivalsOf(raws, now), resolve, http)
      ensures ss[0] == old(flows.entries[..]) && ss[|ss| - 1] == flows.entries[..]
    {
      ss := [flows.entries[..]];
      assert raws[..0] == [];
      for i := 0 to |raws|
        invariant flows.Valid() && IsHistory(ss, ArrivalsOf(raws[..i], now), resolve, http)
        invariant ss[0] == old(flows.entries[..]) && ss[|ss| - 1] == flows.entries[..]
      {
        ghost var ps := ArrivalsOf(raws[..i], now);
        ArrivalsMore(raws, i, now);
        var v;
        ghost var slot, o, chain, wire, acts;
        v, slot, o, chain, wire, acts := OnPacket(raws[i], now(i));
        if ArrivalOf(raws[i], now(i)).Some? {
          HistoryMore(ss, ps, ArrivalOf(raws[i], now(i)).value, slot, resolve, http, flows.entries[..]);
          ss := ss + [flows.entries[..]];
        }
      }
      assert raws[..|raws|] == raws;
    }

    /** Whether the packet is given its chain. */
    method Judge(raw: bytes, isV4: bool, payload: bytes, chain: Chain, o: Outcome, buffered: nat)
      returns (v: Verdict, ghost wire: seq<bytes>, ghost acts: seq<Act>)
      requires |raw| <= PKT_BUFFER && (isV4 <==> Read4(raw).Ok?) && (isV4 ==> payload == Read4(raw).value.data) && buffered == |o.flow.reasm|
      modifies `trace
      ensures trace == old(trace) + (acts + [Gave(v)]) && OkBy(acts, sendOk, |old(trace)|)
      ensures !isV4 ==> v == Accept && acts == []
      ensures isV4 ==> HandledRight(raw, fakeTtl, o, chain, v, wire, acts) && ReceivedRight(raw, ShapeOf(chain), v, wire, acts)
    {
      if isV4 && o.decided == TlsHello && chain[0] != Strategies.Pass && buffered == |payload| {
        v, wire, acts := GiveChain(raw, payload, chain, o);
      } else {
        v, wire, acts := Accept, [], [];
        Pass(raw, o, chain);
      }
    }

    /** The table has taken its step, with this outcome, and this is the chain for the packet. */
    ghost predicate SegmentTaken(s: seq<Entry>, p: Arrival, slot: nat, o: Outcome, chain: Chain, t: seq<Entry>)
    {
      TableStep(s, p, slot, resolve, http, t)
      && o == Outcome4(Met(s, p, slot).flow, p.tcp, http) && chain == ChainFor(Met(s, p, slot), o.host)
    }
  }

  /** The segments among the packets, in order. */
  ghost function ArrivalsOf(raws: seq<bytes>, now: nat -> int): (ps: seq<Arrival>)
  {
    if |raws| == 0 then []
    else
      var n := |raws| - 1;
      var p := ArrivalOf(raws[n], now(n));
      ArrivalsOf(raws[..n], now) + if p.Some? then [p.value] else []
  }

  lemma ArrivalsMore(raws: seq<bytes>, i: nat, now: nat -> int)
    requires i < |raws|
    ensures var p := ArrivalOf(raws[i], now(i)); var ps := ArrivalsOf(raws[..i], now);
      ArrivalsOf(raws[..i + 1], now) == if p.Some? then ps + [p.value] else ps
  {
    assert raws[..i + 1][..i] == raws[..i];
    PlusEmpty(ArrivalsOf(raws[..i], now));
  }

  lemma HasPayloadOf(raw: bytes, now: int)
    requires Read4(raw).Ok?
    ensures ArrivalOf(raw, now).Some? && ArrivalOf(raw, now).value.tcp.payload == Read4(raw).value.data
  {
    ReadWellFormed(raw);
  }

  /** The segment completed a ClientHello, which it holds whole, and the chain does something. */
  predicate Eligible(o: Outcome, chain: Chain, size: nat)
  {
    o.decided == TlsHello && chain[0] != Strategies.Pass && |o.flow.reasm| == size
  }

  /** What was sent is the chain's, and the packet is dropped exactly when the chain replaces it. */
  ghost predicate HandledRight(raw: bytes, ttl: byte, o: Outcome, chain: Chain, v: Verdict, wire: seq<bytes>, acts: seq<Act>)
    requires Read4(raw).Ok?
  {
    var k := Read4(raw).value;
    && WellFormed(k)
    && if Eligible(o, chain, |k.data|) then Executed(k, ttl, ShapeOf(chain), v, wire, acts) else v == Accept && acts == []
  }

  ghost predicate Executed(k: Packet4, ttl: byte, shape: Shape, v: Verdict, wire: seq<bytes>, acts: seq<Act>)
    requires WellFormed(k)
  {
    var at := CutOf(k.data);
    PutsOut(k, ttl, shape, at, wire) && Attempted(shape, wire, acts) && (v == Drop <==> Replaces(k, shape, at))
  }

  /** A packet that completed a ClientHello, which it holds whole, sends what its chain says, cut in the middle of
      the name that the flow was found to be for; any other passes. */
  ghost predicate SentFor(k: Packet4, ttl: byte, o: Outcome, chain: Chain, v: Verdict, wire: seq<bytes>, acts: seq<Act>)
  {
    && WellFormed(k)
    && if o.decided == TlsHello && chain[0] != Strategies.Pass && |o.flow.reasm| == |k.data|
       then Sni.ParseSni(k.data, 256) == Ok(o.host) && Sends.ChainSends(k, ttl, chain, o.host, v, wire, acts)
       else v == Accept && acts == []
  }

  lemma SendsRight(raw: bytes, ttl: byte, f: Flow, tcp: TcpView, http: HttpParser, o: Outcome, chain: Chain, v: Verdict, wire: seq<bytes>, acts: seq<Act>)
    requires Read4(raw).Ok? && HandledRight(raw, ttl, o, chain, v, wire, acts)
    requires o == Outcome4(f, tcp, http) && tcp.payload == Read4(raw).value.data
    ensures SentFor(Read4(raw).value, ttl, o, chain, v, wire, acts)
  {
    var k := Read4(raw).value;
    if Eligible(o, chain, |k.data|) {
      WholeHello(f, tcp, http, o);
      Sends.ExecutedSends(k, ttl, chain, o.host, v, wire, acts);
    }
  }

  lemma WholeHello(f: Flow, tcp: TcpView, http: HttpParser, o: Outcome)
    requires o == Outcome4(f, tcp, http) && o.decided == TlsHello && |o.flow.reasm| == |tcp.payload|
    ensures Sni.ParseSni(tcp.payload, 256) == Ok(o.host)
  {
    DecidedHello(f, tcp.seqNo, tcp.payload, http);
    NothingBefore(f.reasm, tcp.payload);
  }

  lemma NothingBefore<T>(a: seq<T>, b: seq<T>)
    requires |a + b| == |b|
    ensures a + b == b
  {
  }

  /** An accepted packet is delivered whatever became of the sends. A dropped one is delivered when its
      pieces went out, unless pieces are to open the connection or end the stream; and a receiver ends as
      after the packet itself exactly when `Arrives` says so. */
  ghost predicate ReceivedRight(raw: bytes, shape: Shape, v: Verdict, wire: seq<bytes>, acts: seq<Act>)
    requires Read4(raw).Ok?
  {
    var k := Read4(raw).value;
    WellFormed(k) && if v == Accept then Receiver.Delivers(k, WentOut(acts) + [raw]) else DropReceivedRight(k, shape, wire, acts)
  }

  ghost predicate DropReceivedRight(k: Packet4, shape: Shape, wire: seq<bytes>, acts: seq<Act>)
    requires WellFormed(k)
  {
    && AllSends(acts)
    && (PiecesOut(shape, acts) && (shape.JustFragment? || !Bounds(k)) ==> Receiver.Delivers(k, WentOut(acts)))
    && forall checks: bool :: Receiver.Equals(k, WentOut(acts), checks) <==> Arrives(k, shape, wire, acts, checks)
  }

  /** A packet that passes with nothing sent is delivered. */
  lemma PassedThrough(raw: bytes, shape: Shape)
    requires Read4(raw).Ok?
    ensures WellFormed(Read4(raw).value) && ReceivedRight(raw, shape, Accept, [], [])
  {
    ReadWellFormed(raw);
    OriginalLast(Read4(raw).value, raw, []);
    assert WentOut([]) == Receiver.OnTheWire([]);
  }

  lemma ChainGiven(raw: bytes, ttl: byte, o: Outcome, chain: Chain, v: Verdict, cut: nat, wire: seq<bytes>, acts: seq<Act>)
    requires Read4(raw).Ok? && WellFormed(Read4(raw).value) && Eligible(o, chain, |Read4(raw).value.data|) && cut == CutOf(Read4(raw).value.data)
    requires PutsOut(Read4(raw).value, ttl, ShapeOf(chain), cut, wire) && Attempted(ShapeOf(chain), wire, acts)
    requires v == Drop <==> Replaces(Read4(raw).value, ShapeOf(chain), cut)
    ensures HandledRight(raw, ttl, o, chain, v, wire, acts) && ReceivedRight(raw, ShapeOf(chain), v, wire, acts)
  {
    Received(raw, ttl, ShapeOf(chain), v, wire, acts);
  }

  lemma Received(raw: bytes, ttl: byte, shape: Shape, v: Verdict, wire: seq<bytes>, acts: seq<Act>)
    requires Read4(raw).Ok? && WellFormed(Read4(raw).value) && Executed(Read4(raw).value, ttl, shape, v, wire, acts)
    ensures ReceivedRight(raw, shape, v, wire, acts)
  {
    var k := Read4(raw).value;
    var at := CutOf(k.data);
    if v == Accept {
      AcceptedDelivers(k, raw, ttl, shape, at, wire, acts);
    } else {
      DropReceived(k, ttl, shape, at, wire, acts);
    }
  }

  lemma DropReceived(k: Packet4, ttl: byte, shape: Shape, at: nat, wire: seq<bytes>, acts: seq<Act>)
    requires WellFormed(k) && (at == 0 || at < |k.data|) && Replaces(k, shape, at)
    requires PutsOut(k, ttl, shape, at, wire) && Attempted(shape, wire, acts)
    ensures DropReceivedRight(k, shape, wire, acts)
  {
    PiecesSuffice(k, ttl, shape, at, wire, acts);
    forall checks: bool
      ensures Receiver.Equals(k, WentOut(acts), checks) <==> Arrives(k, shape, wire, acts, checks)
    {
      ReplacementArrives(k, ttl, shape, at, wire, acts, checks);
    }
  }

  lemma MetIs(s: seq<Entry>, p: Arrival, slot: nat, e: Entry)
    requires UniqueKeys(s) && slot < |s|
    requires Live(s, p.key, slot) ==> e == if BareSyn(p.tcp) then Reset(p.key, p.now) else s[slot].(lastSeen := p.now)
    requires !Live(s, p.key, slot) ==> e == Reset(p.key, p.now)
    ensures e == Met(s, p, slot)
  {
  }

  /** The segment a packet carries, told from the packet that it reads as. */
  ghost function ArrivalOf(raw: bytes, now: int): (p: Option<Arrival>)
  {
    if Read4(raw).Ok? && WellFormed(Read4(raw).value) then
      var k := Read4(raw).value;
      Some(Arrival(Key(4, k.ip[12..16], k.ip[16..20], Be16(k.tcp, 0), Be16(k.tcp, 2)),
                   TcpView(|k.tcp|, SeqNo(k), Be32(k.tcp, 8), k.tcp[13], k.data), now))
    else if Read6(raw).Ok? && WellFormed6(Read6(raw).value) then
      var k := Read6(raw).value;
      Some(Arrival(Key(6, k.ip[8..24], k.ip[24..40], Be16(k.tcp, 0), Be16(k.tcp, 2)),
                   TcpView(|k.tcp|, SeqNo6(k), Be32(k.tcp, 8), k.tcp[13], k.data), now))
    else None
  }

  lemma Identified4(raw: bytes, now: int, p: Arrival)
    requires Read4(raw).Ok? && p.now == now
    requires var seg := ParseIpv4(raw).value.payload;
      p.key == Key(4, raw[12..16], raw[16..20], Be16(seg, 0), Be16(seg, 2)) && p.tcp == ParseTcp(seg).value
    ensures ArrivalOf(raw, now) == Some(p)
  {
    ReadWellFormed(raw);
    var k, seg := Read4(raw).value, ParseIpv4(raw).value.payload;
    assert k.ip == raw[..|k.ip|] && k.tcp == seg[..|k.tcp|];
    assert k.ip[12..16] == raw[12..16] && k.ip[16..20] == raw[16..20];
    SameFields(k.tcp, seg);
  }

  /** The fields of a header are those of the segment that begins with it. */
  lemma SameFields(th: bytes, seg: bytes)
    requires 20 <= |th| <= |seg| && th == seg[..|th|]
    ensures Be16(th, 0) == Be16(seg, 0) && Be16(th, 2) == Be16(seg, 2)
    ensures Be32(th, 4) == Be32(seg, 4) && Be32(th, 8) == Be32(seg, 8) && th[13] == seg[13]
  {
  }

  lemma Identified6(raw: bytes, now: int, p: Arrival)
    requires Read4(raw).Err? && Read6(raw).Ok? && p.now == now
    requires var seg := ParseIpv6(raw).value.payload;
      p.key == Key(6, raw[8..24], raw[24..40], Be16(seg, 0), Be16(seg, 2)) && p.tcp == ParseTcp(seg).value
    ensures ArrivalOf(raw, now) == Some(p)
  {
    ReadIsPrefix6(raw);
    var k, seg := Read6(raw).value, ParseIpv6(raw).value.payload;
    assert k.ip == raw[..40] && k.tcp == seg[..|k.tcp|];
    assert k.ip[8..24] == raw[8..24] && k.ip[24..40] == raw[24..40];
    SameFields(k.tcp, seg);
  }

  lemma ReadWellFormed(raw: bytes)
    requires Read4(raw).Ok?
    ensures WellFormed(Read4(raw).value)
  {
    ParsedHeader(raw);
    ParsedTcp(ParseIpv4(raw).value.payload);
  }

  lemma PiecesPutOut(k: Packet4, ttl: byte, shape: Shape, at: nat, w1: bytes, w2: bytes, s2: Packet4)
    requires WellFormed(k) && 0 < at < |k.data| && PieceOf(k, 0, at, w1) && w2 == Wire4(s2) && Splitter.IsPiece(k, at, |k.data|, s2)
    ensures shape.JustSplit? ==> PutsOut(k, ttl, shape, at, [w1, w2])
    ensures shape.JustDisorder? ==> PutsOut(k, ttl, shape, at, [w2, w1])
  {
    assert PieceOf(k, at, |k.data|, w2);
  }

  lemma DecoysPutOut(k: Packet4, ttl: byte, shape: Shape, at: nat, decoy: bytes, w1: bytes, w2: bytes, s2: Packet4)
    requires WellFormed(k) && 0 < at < |k.data| && PieceOf(k, 0, at, w1) && w2 == Wire4(s2) && Splitter.IsPiece(k, at, |k.data|, s2)
    requires DecoyOf(if shape.FakeThenSplit? then k else s2, ttl, decoy)
    ensures shape.FakeThenSplit? ==> PutsOut(k, ttl, shape, at, [decoy, w1, w2])
    ensures shape.SplitThenFake? ==> PutsOut(k, ttl, shape, at, [w1, decoy, w2])
  {
    assert PieceOf(k, at, |k.data|, w2);
    assert shape.SplitThenFake? ==> DecoyedPiece(k, at, ttl, decoy, w2);
  }

  lemma FragmentsBuilt(k: Packet4, at: nat, r: Result<(nat, nat)>, o1: bytes, o2: bytes)
    requires WellFormed(k) && 0 < at < |k.data| && Fragmenter.Fragmented(k, at, r, o1, o2)
    ensures r.Ok? <==> Fragmenter.RoundUp(|k.tcp| + at) < |k.tcp| + |k.data|
    ensures r.Ok? ==> r.value.0 <= |o1| && r.value.1 <= |o2| && Fragments(k, at, o1[..r.value.0], o2[..r.value.1])
  {
  }

  /** The sends, and the drop of a packet that was replaced. */
  function Ended(acts: seq<Act>, handled: bool): (r: seq<Act>)
  {
    if handled then acts + [Gave(Drop)] else acts
  }

  /** Whether a send succeeds is the environment's choice for it. */
  ghost predicate OkBy(acts: seq<Act>, sendOk: nat -> bool, from: nat)
  {
    forall i :: 0 <= i < |acts| ==> acts[i].Sent? && acts[i].ok == sendOk(from + i)
  }
}
