/** src/transparent/platform_windows.c: which packets are turned around, told from the packet alone, and what
    becomes of them and of the flows. */
module ReflectRules {
  import opened Bytes
  import opened Nat
  import opened Reflect

  /** Addresses that are never intercepted: this network, private, shared, loopback, link-local and
      multicast ranges. */
  predicate Local(p: Pkt)
    requires Parsed(p)
  {
    if p.family == 4 then
      var n := Be32(p.dst, 0);
      || n <= 0x00FF_FFFF
      || 0x0A00_0000 <= n <= 0x0AFF_FFFF
      || 0x6440_0000 <= n <= 0x647F_FFFF
      || 0x7F00_0000 <= n <= 0x7FFF_FFFF
      || 0xA9FE_0000 <= n <= 0xA9FE_FFFF
      || 0xAC10_0000 <= n <= 0xAC1F_FFFF
      || 0xC0A8_0000 <= n <= 0xC0A8_FFFF
      || 0xE000_0000 <= n
    else
      var n := Be16(p.dst, 0);
      || 0xFC00 <= n <= 0xFDFF
      || 0xFE80 <= n <= 0xFEBF
      || 0xFF00 <= n
      || ((forall i :: 0 <= i < 15 ==> p.dst[i] == 0) && p.dst[15] == 1)
  }

  /** The packet comes from one of the two listeners. */
  predicate FromListener(c: Config, p: Pkt)
  {
    (p.proto == Tcp && p.sport == c.port) || (c.dnsPort > 0 && p.sport == c.dnsPort)
  }

  /** Whose it then is: that of the connections to 443, or of DNS. */
  function ListenerOf(c: Config, p: Pkt): (svc: u16)
  {
    if p.proto == Tcp && p.sport == c.port then 443 else 53
  }

  /** An application's packet to a service that is intercepted: not from the daemon's own ports, TLS to an
      address that is not local or DNS with a listener for it, and IPv6 only where that is on. */
  predicate ToService(c: Config, p: Pkt)
    requires Parsed(p)
  {
    && !FromListener(c, p) && !(45000 <= p.sport <= 45999)
    && ((p.proto == Tcp && p.dport == 443 && !Local(p)) || (p.dport == 53 && c.dnsPort > 0))
    && (p.family == 6 ==> c.ipv6)
  }

  /** The first packet of a conversation. */
  predicate First(p: Pkt)
  {
    p.proto == Udp || (p.flags.syn && !p.flags.ack)
  }

  /** A packet is turned around exactly when it is a listener's answer within a flow, or an application's
      to an intercepted service within a flow or opening one. */
  lemma TurnedExactly(c: Config, m: Flows, p: Pkt, e: Env)
    requires Parsed(p)
    ensures Step(c, m, p, e).1.turned
       <==> if FromListener(c, p) then Key(p.proto, p.family, p.src, p.dport, p.dst, ListenerOf(c, p)) in m
            else ToService(c, p)
                 && (Key(p.proto, p.family, p.src, p.sport, p.dst, p.dport) in m || (First(p) && e.canAllocate))
  {
    LocalIsPrivate(p);
  }

  lemma LocalIsPrivate(p: Pkt)
    requires Parsed(p)
    ensures Local(p) <==> if p.family == 4 then PrivateV4(p.dst) else PrivateV6(p.dst)
  {
    if p.family == 6 {
      if (forall i :: 0 <= i < 15 ==> p.dst[i] == 0) && p.dst[15] == 1 {
        assert p.dst == [0, 0, 0, 0, 0, 0, 0, 0, 0, 0, 0, 0, 0, 0, 0, 1];
      }
    }
  }

  /** What a packet that is turned around becomes: the addresses exchanged, and an answer's port that of the
      service, an application's that of the listener. Its flow is seen now, and closing from the first
      FIN or RST on. */
  lemma TurnedBecomes(c: Config, m: Flows, p: Pkt, e: Env)
    requires Parsed(p) && Step(c, m, p, e).1.turned
    ensures var v := Step(c, m, p, e).1;
      v.sent == Some(
        if FromListener(c, p) then p.(src := p.dst, dst := p.src, sport := ListenerOf(c, p))
        else p.(src := p.dst, dst := p.src, dport := if p.dport == 443 then c.port else c.dnsPort))
    ensures var k := if FromListener(c, p) then Key(p.proto, p.family, p.src, p.dport, p.dst, ListenerOf(c, p))
                     else Key(p.proto, p.family, p.src, p.sport, p.dst, p.dport);
      Step(c, m, p, e).0 == m[k := Info((k in m && m[k].closing) || (p.proto == Tcp && (p.flags.fin || p.flags.rst)), e.now)]
  {
  }

  /** Every other packet leaves the flows as they are and goes on as it is, but for the first packet of a QUIC
      connection to an address where that is refused. */
  lemma OthersPass(c: Config, m: Flows, p: Pkt, e: Env)
    requires Parsed(p) && !Step(c, m, p, e).1.turned
    ensures Step(c, m, p, e).0 == m
    ensures Step(c, m, p, e).1.sent
         == if !FromListener(c, p) && p.proto == Udp && p.dport == 443 && |p.payload| > 0 && p.payload[0] >= 0xC0 && e.quicRefused
            then None else Some(p)
  {
  }

  /** So the daemon's own connections, which answer for no listener, are never turned around: no loop. */
  lemma OwnAreLeftAlone(c: Config, m: Flows, p: Pkt, e: Env)
    requires Parsed(p) && 45000 <= p.sport <= 45999 && !FromListener(c, p)
    ensures Step(c, m, p, e).0 == m && !Step(c, m, p, e).1.turned
    ensures p.proto == Tcp ==> Step(c, m, p, e).1.sent == Some(p)
  {
    TurnedExactly(c, m, p, e);
    OthersPass(c, m, p, e);
  }

  /** A sweep keeps exactly the flows seen within two hours, half a minute once closing, a minute for UDP. */
  lemma SweptExactly(c: Config, m: Flows, now: int, k: Key)
    ensures var after := Next(c, m, Sweeping(now));
      && (k in after <==> k in m && now - m[k].last <= if k.proto == Udp then 60_000 else if m[k].closing then 30_000 else 7_200_000)
      && (k in after ==> after[k] == m[k])
  {
  }
}
