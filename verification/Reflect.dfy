/** src/transparent/platform_windows.c, the packet path: an application's packets are turned around to
    the local listeners and the listeners' answers back to the application. Ports are in host byte
    order; the lists of addresses with QUIC refused and memory are left to the environment. */
module Reflect {
  import opened Bytes
  import opened Nat

  datatype Flags = Flags(syn: bool, ack: bool, fin: bool, rst: bool)

  /** An IP packet with a TCP or UDP header; the flags mean nothing on UDP. */
  datatype Pkt = Pkt(family: nat, proto: Proto, src: bytes, sport: u16, dst: bytes, dport: u16, flags: Flags, payload: bytes)

  datatype Config = Config(port: u16, dnsPort: u16, ipv6: bool)

  function Alen(family: nat): nat
  {
    if family == 6 then 16 else 4
  }

  predicate Parsed(p: Pkt)
  {
    (p.family == 4 || p.family == 6) && |p.src| == Alen(p.family) && |p.dst| == Alen(p.family)
  }

  predicate PrivateV4(a: bytes)
    requires |a| == 4
  {
    || a[0] == 0 || a[0] == 10 || a[0] == 127 || a[0] >= 224
    || (a[0] == 100 && a[1] / 64 == 1)
    || (a[0] == 169 && a[1] == 254)
    || (a[0] == 172 && a[1] / 16 == 1)
    || (a[0] == 192 && a[1] == 168)
  }

  predicate PrivateV6(a: bytes)
    requires |a| == 16
  {
    || a[0] / 2 == 126
    || (a[0] == 254 && a[1] / 64 == 2)
    || a[0] == 255
    || a == [0, 0, 0, 0, 0, 0, 0, 0, 0, 0, 0, 0, 0, 0, 0, 1]
  }

  predicate OwnPort(port: u16)
  {
    OWN_PORT_LO <= port <= OWN_PORT_HI
  }

  /** The service a packet from one of the listeners' ports is an answer of. */
  function AnswerService(c: Config, p: Pkt): (r: Option<u16>)
  {
    if p.sport == c.port && p.proto == Tcp then Some(443)
    else if c.dnsPort > 0 && p.sport == c.dnsPort then Some(53)
    else None
  }

  predicate Quic(p: Pkt)
  {
    p.proto == Udp && p.dport == 443
  }

  /** The service an application's packet is to be turned around for. */
  function AppService(c: Config, p: Pkt): (r: Option<u16>)
    requires Parsed(p)
  {
    if OwnPort(p.sport) then None
    else if p.dport == 443 && p.proto == Tcp then
      if (p.family == 4 && PrivateV4(p.dst)) || (p.family == 6 && (PrivateV6(p.dst) || !c.ipv6)) then None else Some(443)
    else if !(p.dport == 53 && c.dnsPort > 0) || (p.family == 6 && !c.ipv6) then None
    else Some(53)
  }

  /** The flow an application's packet belongs to. */
  function AppKey(p: Pkt, svc: u16): (k: Key)
  {
    Key(p.proto, p.family, p.src, p.sport, p.dst, svc)
  }

  /** The flow a listener's packet answers. */
  function AnswerKey(p: Pkt, svc: u16): (k: Key)
  {
    Key(p.proto, p.family, p.src, p.dport, p.dst, svc)
  }

  predicate Opens(p: Pkt)
  {
    p.proto == Udp || (p.flags.syn && !p.flags.ack)
  }

  predicate Closes(p: Pkt)
  {
    p.proto == Tcp && (p.flags.fin || p.flags.rst)
  }

  function Seen(s: Info, p: Pkt, now: int): (r: Info)
  {
    Info(s.closing || Closes(p), now)
  }

  function Turned(p: Pkt): (r: Pkt)
  {
    p.(src := p.dst, dst := p.src)
  }

  /** The packet sent on, if any, and whether it was redirected inbound. */
  datatype Verdict = Verdict(sent: Option<Pkt>, turned: bool)

  /** What the environment contributes to one packet. */
  datatype Env = Env(quicRefused: bool, canAllocate: bool, now: int)

  function Answered(c: Config, m: Flows, p: Pkt, svc: u16, e: Env): (r: (Flows, Verdict))
  {
    var k := AnswerKey(p, svc);
    if k !in m then (m, Verdict(Some(p), false))
    else (m[k := Seen(m[k], p, e.now)], Verdict(Some(Turned(p).(sport := svc)), true))
  }

  function Diverted(c: Config, m: Flows, p: Pkt, svc: u16, e: Env): (r: (Flows, Verdict))
  {
    var k := AppKey(p, svc);
    if k !in m && !(Opens(p) && e.canAllocate) then (m, Verdict(Some(p), false))
    else
      var s := if k in m then m[k] else Info(false, e.now);
      (m[k := Seen(s, p, e.now)], Verdict(Some(Turned(p).(dport := if svc == 443 then c.port else c.dnsPort)), true))
  }

  /** One packet against the set of flows. */
  function Step(c: Config, m: Flows, p: Pkt, e: Env): (r: (Flows, Verdict))
    requires Parsed(p)
  {
    if AnswerService(c, p).Some? then Answered(c, m, p, AnswerService(c, p).value, e)
    else if Quic(p) then
      (m, Verdict(if |p.payload| > 0 && p.payload[0] >= 0xC0 && e.quicRefused then None else Some(p), false))
    else if AppService(c, p).None? then (m, Verdict(Some(p), false))
    else Diverted(c, m, p, AppService(c, p).value, e)
  }

  // ---- handle, on the table ----

  /** A flow looked up by its full key and, when it is there, marked as seen. */
  method Meet(t: FlowTable, k: Key, p: Pkt, now: int) returns (found: bool)
    requires t.Valid()
    modifies t, t.chains
    ensures t.Valid() && found == (k in old(t.flows))
    ensures t.flows == if found then old(t.flows)[k := Seen(old(t.flows)[k], p, now)] else old(t.flows)
  {
    var b, i := t.Find(k.proto, k.family, Some(k.local), k.lport, k.remote, k.oport);
    assert t.Matches(k, k.proto, k.family, Some(k.local), k.lport, k.remote, k.oport);
    found := i.Some?;
    if i.Some? {
      assert t.chains[b][i.value].key == k;
      t.Touch(b, i.value, Seen(t.chains[b][i.value].info, p, now));
    }
  }

  method Handle(t: FlowTable, c: Config, p: Pkt, e: Env) returns (v: Verdict)
    requires t.Valid() && Parsed(p)
    modifies t, t.chains
    ensures t.Valid() && (t.flows, v) == Step(c, old(t.flows), p, e)
  {
    var answer := AnswerService(c, p);
    if answer.Some? {
      var found := Meet(t, AnswerKey(p, answer.value), p, e.now);
      return if found then Verdict(Some(Turned(p).(sport := answer.value)), true) else Verdict(Some(p), false);
    }
    if Quic(p) {
      return Verdict(if |p.payload| > 0 && p.payload[0] >= 0xC0 && e.quicRefused then None else Some(p), false);
    }
    var svc := AppService(c, p);
    if svc.None? {
      return Verdict(Some(p), false);
    }
    v := HandleApp(t, c, p, svc.value, e);
  }

  method HandleApp(t: FlowTable, c: Config, p: Pkt, svc: u16, e: Env) returns (v: Verdict)
    requires t.Valid() && Parsed(p)
    modifies t, t.chains
    ensures t.Valid() && (t.flows, v) == Diverted(c, old(t.flows), p, svc, e)
  {
    var k := AppKey(p, svc);
    ghost var m := t.flows;
    var found := Meet(t, k, p, e.now);
    if !found && Opens(p) {
      t.Add(k, e.now, e.canAllocate);
      found := Meet(t, k, p, e.now);
      assert found ==> m[k := Info(false, e.now)][k := Seen(Info(false, e.now), p, e.now)] == m[k := Seen(Info(false, e.now), p, e.now)];
    }
    if !found {
      return Verdict(Some(p), false);
    }
    return Verdict(Some(Turned(p).(dport := if svc == 443 then c.port else c.dnsPort)), true);
  }

  // ---- what the two rewrites make together ----

  /** A packet from the listener to whoever it takes the sender of `q` to be. */
  predicate Replies(q: Pkt, r: Pkt)
  {
    r.family == q.family && r.proto == q.proto
    && r.src == q.dst && r.sport == q.dport && r.dst == q.src && r.dport == q.sport
  }

  /** A packet of the application that the daemon turned around for a service. */
  ghost predicate Reflected(c: Config, m: Flows, p: Pkt, e: Env)
    requires Parsed(p)
  {
    AnswerService(c, p).None? && !Quic(p) && AppService(c, p).Some? && Step(c, m, p, e).1.turned
  }

  /** TCP to port 53 while both listeners share a port. */
  predicate Ambiguous(c: Config, p: Pkt)
  {
    p.proto == Tcp && p.dport == 53 && c.port == c.dnsPort
  }

  /** Reply `r` reaches the application inbound as an answer to `p`, otherwise as the listener sent it. */
  predicate ComesHome(p: Pkt, r: Pkt, v: Verdict)
  {
    && v.turned && v.sent.Some? && Replies(p, v.sent.value)
    && v.sent.value.(src := r.src, sport := r.sport, dst := r.dst) == r
  }

  /** The reply leaves as the original destination's own answer exactly when the listener that got the
      packet can be told apart; no assumption is made on the daemon's own ports. */
  lemma RoundTrip(c: Config, m: Flows, p: Pkt, e: Env, later: Flows, r: Pkt, e2: Env)
    requires Parsed(p) && Reflected(c, m, p, e)
    requires Replies(Step(c, m, p, e).1.sent.value, r)
    requires AppKey(p, p.dport) in later
    ensures Parsed(r) && AppKey(p, p.dport) in Step(c, m, p, e).0
    ensures ComesHome(p, r, Step(c, later, r, e2).1) <==> !Ambiguous(c, p)
  {
    var svc := AppService(c, p).value;
    assert svc == p.dport;
    if Ambiguous(c, p) {
      assert AnswerService(c, r) == Some(443);
    } else {
      assert AnswerService(c, r) == Some(svc);
      assert AnswerKey(r, svc) == AppKey(p, svc);
    }
  }

  predicate SameEnds(p: Pkt, q: Pkt)
  {
    p.family == q.family && p.proto == q.proto && p.src == q.src && p.sport == q.sport && p.dst == q.dst && p.dport == q.dport
  }

  /** Packets that look alike to a listener are of the same flow, whenever they come. */
  lemma DistinctAtListener(c: Config, m: Flows, p: Pkt, e: Env, m2: Flows, p2: Pkt, e2: Env)
    requires Parsed(p) && Parsed(p2) && Reflected(c, m, p, e) && Reflected(c, m2, p2, e2)
    requires !Ambiguous(c, p) && !Ambiguous(c, p2)
    ensures SameEnds(Step(c, m, p, e).1.sent.value, Step(c, m2, p2, e2).1.sent.value) <==> SameEnds(p, p2)
  {
    assert AppService(c, p).value == p.dport && AppService(c, p2).value == p2.dport;
  }

  /** With one port for both listeners, flows of the two services over TCP can collide there. */
  lemma SharedPortCollides()
    ensures exists c, p, p2, e ::
      Parsed(p) && Parsed(p2) && Reflected(c, map[], p, e) && Reflected(c, map[], p2, e) && !SameEnds(p, p2)
      && SameEnds(Step(c, map[], p, e).1.sent.value, Step(c, map[], p2, e).1.sent.value)
  {
    var c := Config(8443, 8443, false);
    var p := Pkt(4, Tcp, [192, 168, 1, 2], 50000, [1, 1, 1, 1], 443, Flags(true, false, false, false), []);
    var p2 := p.(dport := 53);
    var e := Env(false, true, 0);
    assert Reflected(c, map[], p, e) && Reflected(c, map[], p2, e);
  }

  // ---- what the listeners learn ----

  /** tpp_original_dst for a connection accepted from `peer` on `self`. */
  method OriginalDst(t: FlowTable, family: nat, peer: bytes, port: u16, self: bytes) returns (dst: Option<(bytes, u16)>)
    requires t.Valid()
    ensures dst == if Key(Tcp, family, self, port, peer, 443) in t.flows then Some((peer, 443)) else None
  {
    var b, i := t.Find(Tcp, family, Some(self), port, peer, 443);
    assert t.Matches(Key(Tcp, family, self, port, peer, 443), Tcp, family, Some(self), port, peer, 443);
    return if i.Some? then Some((peer, 443)) else None;
  }

  /** tpp_dns_peer_ok: the peer is in some flow, whatever the application's own address. */
  method DnsPeerOk(t: FlowTable, proto: Proto, family: nat, peer: bytes, port: u16) returns (ok: bool)
    requires t.Valid()
    ensures ok <==> exists a: bytes :: Key(proto, family, a, port, peer, 53) in t.flows
  {
    var b, i := t.Find(proto, family, None, port, peer, 53);
    ok := i.Some?;
    if ok {
      assert t.chains[b][i.value].key in t.flows;
    } else {
      assert forall a: bytes :: t.Matches(Key(proto, family, a, port, peer, 53), proto, family, None, port, peer, 53);
    }
  }

  // ---- runs ----

  datatype Event = Packet(p: Pkt, e: Env) | Sweeping(now: int)

  predicate Sound(v: Event)
  {
    v.Packet? ==> Parsed(v.p)
  }

  function TimeOf(v: Event): int
  {
    if v.Packet? then v.e.now else v.now
  }

  function Next(c: Config, m: Flows, v: Event): (r: Flows)
    requires Sound(v)
  {
    if v.Packet? then Step(c, m, v.p, v.e).0 else Live(m, v.now)
  }

  function After(c: Config, vs: seq<Event>): (r: Flows)
    requires forall i :: 0 <= i < |vs| ==> Sound(vs[i])
  {
    if |vs| == 0 then map[] else Next(c, After(c, vs[..|vs| - 1]), vs[|vs| - 1])
  }

  /** A packet of an application that opens flow `k`. */
  predicate Opener(c: Config, p: Pkt, k: Key)
  {
    Parsed(p) && Opens(p) && AppService(c, p) == Some(k.oport) && AppKey(p, k.oport) == k && k.oport == p.dport
  }

  /** In every run, each flow was opened by an application's own packet to that destination and port. */
  lemma {:induction false} FlowsAreOpened(c: Config, vs: seq<Event>, k: Key)
    requires forall i :: 0 <= i < |vs| ==> Sound(vs[i])
    requires k in After(c, vs)
    ensures exists i :: 0 <= i < |vs| && vs[i].Packet? && Opener(c, vs[i].p, k)
  {
    var n := |vs| - 1;
    var before := After(c, vs[..n]);
    if k in before {
      FlowsAreOpened(c, vs[..n], k);
      var i :| 0 <= i < n && vs[..n][i].Packet? && Opener(c, vs[..n][i].p, k);
      assert vs[i] == vs[..n][i];
    } else {
      assert vs[n].Packet? && Opener(c, vs[n].p, k);
    }
  }

  predicate GoesTo(p: Pkt, self: bytes, port: u16, peer: bytes)
  {
    p.proto == Tcp && p.src == self && p.sport == port && p.dst == peer && p.dport == 443
  }

  /** So an address recovered for an accepted connection is where an application meant to go. */
  lemma OriginalDstIsTrue(c: Config, vs: seq<Event>, family: nat, peer: bytes, port: u16, self: bytes)
    requires forall i :: 0 <= i < |vs| ==> Sound(vs[i])
    requires Key(Tcp, family, self, port, peer, 443) in After(c, vs)
    ensures exists i :: 0 <= i < |vs| && vs[i].Packet? && GoesTo(vs[i].p, self, port, peer)
  {
    FlowsAreOpened(c, vs, Key(Tcp, family, self, port, peer, 443));
  }

  /** Time does not run backwards, and a sweep comes within the limit of a flow last seen at `t`. */
  predicate Within(vs: seq<Event>, t: int, limit: int)
  {
    forall i :: 0 <= i < |vs| ==> Sound(vs[i]) && t <= TimeOf(vs[i]) <= t + limit
  }

  function From(c: Config, m: Flows, vs: seq<Event>): (r: Flows)
    requires forall i :: 0 <= i < |vs| ==> Sound(vs[i])
    decreases |vs|
  {
    if |vs| == 0 then m else From(c, Next(c, m, vs[0]), vs[1..])
  }

  predicate NoClose(vs: seq<Event>)
  {
    forall i :: 0 <= i < |vs| ==> vs[i].Packet? ==> !Closes(vs[i].p)
  }

  /** Whatever else happens, a flow outlives its limit counted from when it was last seen: the short one
      once either side closes, else the full one. */
  lemma {:induction false} FlowPersists(c: Config, m: Flows, vs: seq<Event>, k: Key, t: int, limit: int)
    requires k in m && m[k].last >= t
    requires limit <= (if k.proto == Udp then UDP_IDLE_MS else if !m[k].closing && NoClose(vs) then TCP_IDLE_MS else TCP_CLOSING_MS)
    requires Within(vs, t, limit)
    ensures k in From(c, m, vs)
    decreases |vs|
  {
    if |vs| > 0 {
      var m2 := Next(c, m, vs[0]);
      NextKeeps(c, m, vs[0], k, t, limit);
      assert forall i :: 0 <= i < |vs[1..]| ==> vs[1..][i] == vs[i + 1];
      FlowPersists(c, m2, vs[1..], k, t, limit);
    }
  }

  lemma NextKeeps(c: Config, m: Flows, v: Event, k: Key, t: int, limit: int)
    requires k in m && m[k].last >= t && Sound(v) && t <= TimeOf(v) <= t + limit
    requires limit <= Limit(k, m[k])
    ensures k in Next(c, m, v) && Next(c, m, v)[k].last >= t
    ensures m[k].closing || (v.Packet? && Closes(v.p)) || !Next(c, m, v)[k].closing
  {
  }

  /** A reply within the flow's limit of the packet it answers comes home, whatever happened in between,
      unless the listeners cannot be told apart; and then never. */
  lemma RepliesComeHome(c: Config, m: Flows, p: Pkt, e: Env, vs: seq<Event>, r: Pkt, e2: Env, limit: int)
    requires Parsed(p) && Reflected(c, m, p, e)
    requires Replies(Step(c, m, p, e).1.sent.value, r)
    requires limit <= FlowLimit(p, Step(c, m, p, e).0, vs) && Within(vs, e.now, limit)
    ensures Parsed(r)
    ensures ComesHome(p, r, Step(c, From(c, Step(c, m, p, e).0, vs), r, e2).1) <==> !Ambiguous(c, p)
  {
    var m2 := Step(c, m, p, e).0;
    assert AppService(c, p).value == p.dport;
    FlowPersists(c, m2, vs, AppKey(p, p.dport), e.now, limit);
    RoundTrip(c, m, p, e, From(c, m2, vs), r, e2);
  }

  function FlowLimit(p: Pkt, m: Flows, vs: seq<Event>): int
  {
    var k := AppKey(p, p.dport);
    if p.proto == Udp then UDP_IDLE_MS
    else if k in m && !m[k].closing && NoClose(vs) then TCP_IDLE_MS
    else TCP_CLOSING_MS
  }
}
