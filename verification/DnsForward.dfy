/** src/dns/dns.c: dns_exchange, a client's own query passed on to the trusted servers. */
module DnsForward {
  import opened Bytes
  import opened DnsName
  import opened DnsReply
  import opened DnsTransport
  import opened Resolver

  // ---- which reply belongs to a query ----

  /** The end of an uncompressed name, or -1. */
  function NameEndAt(pkt: bytes, pos: nat): (r: int)
    ensures r == -1 || r >= pos
    decreases |pkt| - pos
  {
    if pos >= |pkt| || pkt[pos] == 0 then pos else if pkt[pos] >= 64 then -1 else NameEndAt(pkt, pos + 1 + pkt[pos])
  }

  function QuestionLen(pkt: bytes): (n: nat)
    ensures n > 0 ==> 12 + n <= |pkt|
  {
    var e := NameEndAt(pkt, 12);
    if e < 0 || e + 5 > |pkt| then 0 else e + 5 - 12
  }

  predicate ReplyMatches(query: bytes, reply: bytes)
  {
    var n := QuestionLen(query);
    && 0 < n && 12 + n <= |reply|
    && Be16(reply, 0) == Be16(query, 0) && reply[2] >= 128 && Be16(reply, 4) == 1
    && Lower(reply[12..12 + n]) == Lower(query[12..12 + n])
  }

  /** A matching reply that does not say SERVFAIL or REFUSED. */
  predicate Acceptable(query: bytes, reply: Net)
  {
    reply.Packet? && |reply.octets| > 0 && ReplyMatches(query, reply.octets)
    && reply.octets[3] % 16 != 2 && reply.octets[3] % 16 != 5
  }

  method FindQuestionLen(pkt: bytes) returns (n: nat)
    ensures n == QuestionLen(pkt)
  {
    var pos := 12;
    while pos < |pkt| && pkt[pos] != 0
      invariant pos >= 12 && NameEndAt(pkt, 12) == NameEndAt(pkt, pos)
      decreases |pkt| - pos
    {
      if pkt[pos] >= 64 {
        return 0;
      }
      pos := pos + 1 + pkt[pos];
    }
    return if pos + 5 > |pkt| then 0 else pos + 5 - 12;
  }

  method CheckReply(query: bytes, reply: bytes) returns (ok: bool)
    ensures ok == ReplyMatches(query, reply)
  {
    var n := FindQuestionLen(query);
    if n == 0 || |reply| < 12 + n || Be16(reply, 0) != Be16(query, 0) || reply[2] < 128 || Be16(reply, 4) != 1 {
      return false;
    }
    ok := SameLetters(reply, 12, query[12..12 + n]);
  }

  // ---- the walk over the servers ----

  /** The query was passed to the first servers of the order, and none had an acceptable reply. */
  ghost predicate NoneAcceptable(who: nat, order: seq<nat>, query: bytes, calls: seq<Call>)
  {
    |calls| <= |order|
    && forall j :: 0 <= j < |calls| ==> calls[j] == Call(who, order[j], query, calls[j].reply) && !Acceptable(query, calls[j].reply)
  }

  /** What an exchange that passed the query to the first `asked` servers did: these are the calls, each
      server is judged by its reply, the last one's is acceptable and is the result, or all failed. */
  ghost predicate Forwarded(who: nat, order: seq<nat>, query: bytes, now: int, d: Deeds, asked: nat, reply: Option<bytes>)
  {
    && asked <= |order| && |d.calls| == asked && d.said == []
    && d.judged == Verdicts(who, order, asked, reply.Some?, now)
    && if reply.None? then NoneAcceptable(who, order, query, d.calls)
       else asked > 0 && NoneAcceptable(who, order, query, d.calls[..asked - 1])
            && d.calls[asked - 1] == Call(who, order[asked - 1], query, Packet(reply.value)) && Acceptable(query, Packet(reply.value))
  }

  /** One server is passed the query and judged, other threads being at work before and in between. */
  method TryServer(r: Resolver, who: nat, server: nat, query: bytes, now: int, early: seq<Section>, late: seq<Section>) returns (reply: Net, ok: bool)
    requires r.Valid() && server < r.serverCount
    requires (forall k :: 0 <= k < |early| ==> r.Possible(early[k], who)) && forall k :: 0 <= k < |late| ==> r.Possible(late[k], who)
    modifies r, r.net`log, r.cache, r.cache.entries, r.health
    ensures r.Valid() && ok == Acceptable(query, reply)
    ensures r.Done(who) == Plus(old(r.Done(who)), Deeds([Call(who, server, query, reply)], [Outcome(who, server, ok, now)], []))
    ensures early == [] && late == [] ==>
      r.AllDone() == Plus(old(r.AllDone()), Deeds([Call(who, server, query, reply)], [Outcome(who, server, ok, now)], []))
      && r.cache.entries[..] == old(r.cache.entries[..]) && r.nextId == old(r.nextId)
  {
    ghost var before, all := r.Done(who), r.AllDone();
    r.Others(early, who);
    reply := CallServer(r, who, server, query);
    ok := Accept(query, reply);
    JudgeLater(r, who, server, ok, now, late);
    ghost var more := Deeds([Call(who, server, query, reply)], [Outcome(who, server, ok, now)], []);
    CallThenSection(before, more.calls, more);
    CallThenSection(all, more.calls, more);
  }

  method JudgeLater(r: Resolver, who: nat, server: nat, ok: bool, now: int, late: seq<Section>)
    requires r.Valid() && server < r.serverCount && forall k :: 0 <= k < |late| ==> r.Possible(late[k], who)
    modifies r, r.net`log, r.cache, r.cache.entries, r.health
    ensures r.Valid() && r.Done(who) == Plus(old(r.Done(who)), Deeds([], [Outcome(who, server, ok, now)], []))
    ensures late == [] ==> r.AllDone() == Plus(old(r.AllDone()), Deeds([], [Outcome(who, server, ok, now)], []))
    ensures late == [] ==> r.cache.entries[..] == old(r.cache.entries[..]) && r.nextId == old(r.nextId)
  {
    r.Others(late, who);
    JudgeServer(r, who, server, ok, now);
  }

  method CallServer(r: Resolver, who: nat, server: nat, query: bytes) returns (reply: Net)
    requires r.Valid()
    modifies r.net`log
    ensures r.Valid() && r.Done(who) == Plus(old(r.Done(who)), Deeds([Call(who, server, query, reply)], [], []))
    ensures r.AllDone() == Plus(old(r.AllDone()), Deeds([Call(who, server, query, reply)], [], []))
  {
    ghost var log, d := r.net.log, r.Done(who);
    PlusEmpty(r.outcomes);
    PlusEmpty(r.cache.said);
    reply := r.net.Exchange(who, server, query);
    CallsByMore(log, Call(who, server, query, reply), who);
    CalledMore(r.cache.said, log, Call(who, server, query, reply));
    PlusEmpty(d.judged);
    PlusEmpty(d.said);
  }

  method JudgeServer(r: Resolver, who: nat, server: nat, ok: bool, now: int)
    requires r.Valid() && server < r.serverCount
    modifies r`outcomes, r.health
    ensures r.Valid() && r.Done(who) == Plus(old(r.Done(who)), Deeds([], [Outcome(who, server, ok, now)], []))
    ensures r.AllDone() == Plus(old(r.AllDone()), Deeds([], [Outcome(who, server, ok, now)], []))
  {
    ghost var judged, d := r.outcomes, r.Done(who);
    PlusEmpty(r.net.log);
    PlusEmpty(r.cache.said);
    r.Judge(who, server, ok, now);
    OutcomesMore(judged, Outcome(who, server, ok, now), server, who);
    PlusEmpty(d.calls);
    PlusEmpty(d.said);
  }

  method Accept(query: bytes, reply: Net) returns (ok: bool)
    ensures ok == Acceptable(query, reply)
  {
    if !reply.Packet? || |reply.octets| == 0 {
      return false;
    }
    ok := CheckReply(query, reply.octets);
    ok := ok && reply.octets[3] % 16 != 2 && reply.octets[3] % 16 != 5;
  }

  /** The reply of the first server, in the resolver's order, that has an acceptable one; a query
      without a readable question is passed to nobody. `others(2 * j)` is what other threads do before
      server `j` of the order is called, and `others(2 * j + 1)` between that and its judgement. */
  method DnsExchange(r: Resolver, who: nat, query: bytes, now: int, others: nat -> seq<Section>)
    returns (reply: Option<bytes>, order: seq<nat>, asked: nat, ghost d: Deeds)
    requires r.Valid() && forall j, k :: 0 <= k < |others(j)| ==> r.Possible(others(j)[k], who)
    modifies r, r.net`log, r.cache, r.cache.entries, r.health
    ensures r.Valid()
    ensures QuestionLen(query) == 0 ==> reply.None? && r.AllDone() == old(r.AllDone())
    ensures QuestionLen(query) == 0 || Alone(others) ==> r.cache.entries[..] == old(r.cache.entries[..]) && r.nextId == old(r.nextId)
    ensures QuestionLen(query) > 0 ==> HealthyFirst(old(r.health[..]), r.serverCount, now, order)
    ensures QuestionLen(query) > 0 ==> r.Done(who) == Plus(old(r.Done(who)), d) && Forwarded(who, order, query, now, d, asked, reply)
    ensures QuestionLen(query) > 0 && reply.None? ==> asked == |order|
    ensures QuestionLen(query) > 0 && Alone(others) ==> r.AllDone() == Plus(old(r.AllDone()), d)
  {
    var n := FindQuestionLen(query);
    reply, order, asked, d := None, [], 0, Deeds([], [], []);
    if |query| < 12 || n == 0 {
      return;
    }
    order := r.ListServers(now);
    ghost var before, all := r.Done(who), r.AllDone();
    PlusNothing(before);
    PlusNothing(all);
    while asked < |order| && reply.None?
      invariant asked <= |order| && r.Valid() && r.Done(who) == Plus(before, d)
      invariant Forwarded(who, order, query, now, d, asked, reply)
      invariant Alone(others) ==> r.AllDone() == Plus(all, d) && r.cache.entries[..] == old(r.cache.entries[..]) && r.nextId == old(r.nextId)
    {
      var got, ok := TryServer(r, who, order[asked], query, now, others(2 * asked), others(2 * asked + 1));
      ghost var more := Deeds([Call(who, order[asked], query, got)], [Outcome(who, order[asked], ok, now)], []);
      PlusAssoc(before, d, more);
      PlusAssoc(all, d, more);
      OneMoreForwarded(who, order, query, now, d, asked, got, ok);
      d := Plus(d, more);
      asked := asked + 1;
      if ok {
        reply := Some(got.octets);
      }
    }
  }

  lemma OneMoreForwarded(who: nat, order: seq<nat>, query: bytes, now: int, d: Deeds, j: nat, got: Net, ok: bool)
    requires j < |order| && Forwarded(who, order, query, now, d, j, None) && ok == Acceptable(query, got)
    ensures var d2 := Plus(d, Deeds([Call(who, order[j], query, got)], [Outcome(who, order[j], ok, now)], []));
      Forwarded(who, order, query, now, d2, j + 1, if ok then Some(got.octets) else None)
  {
    var c := Call(who, order[j], query, got);
    assert (d.calls + [c])[..j] == d.calls;
  }

  // ---- the same question, up to letter case ----

  lemma {:induction false} NameEndIs(pkt: bytes, pos: nat, ls: seq<bytes>, rest: bytes)
    requires Labels(ls) && pos <= |pkt| && pkt[pos..] == EncodeLabels(ls) + rest
    ensures NameEndAt(pkt, pos) == pos + |EncodeLabels(ls)| - 1
    decreases |ls|
  {
    if |ls| > 0 {
      FirstLabel(pkt, pos, ls, rest);
      NameEndIs(pkt, pos + 1 + |ls[0]|, ls[1..], rest);
    } else {
      assert pkt[pos] == ([0] + rest)[0];
    }
  }

  function Ask(ls: seq<bytes>, t: u16, c: u16): (r: bytes)
    requires Labels(ls)
  {
    EncodeLabels(ls) + (Enc16(t) + Enc16(c))
  }

  predicate Folded(a: u16, b: u16)
  {
    Lower(Enc16(a)) == Lower(Enc16(b))
  }

  /** Two questions compare equal exactly when their names do but for letter case, and their types and
      classes do with their octets folded like letters. */
  lemma SameQuestion(ls: seq<bytes>, t: u16, c: u16, ks: seq<bytes>, t2: u16, c2: u16, rest: bytes)
    requires Labels(ls) && Labels(ks)
    ensures var q, d := Ask(ls, t, c), Ask(ks, t2, c2) + rest;
      |q| <= |d| && Lower(d[..|q|]) == Lower(q) <==> Lowered(ls) == Lowered(ks) && Folded(t, t2) && Folded(c, c2)
  {
    var q, d := Ask(ls, t, c), Ask(ks, t2, c2) + rest;
    LoweredAsk(ls, t, c);
    LoweredAsk(ks, t2, c2);
    LowerConcat(Ask(ks, t2, c2), rest);
    var x, y := Lower(Enc16(t)) + Lower(Enc16(c)), Lower(Enc16(t2)) + Lower(Enc16(c2));
    if |q| <= |d| && Lower(d[..|q|]) == Lower(q) {
      LowerFront(d, q);
      var more := Lower(d[|q|..]);
      Assoc(EncodeLabels(Lowered(ls)), x, more);
      Assoc(EncodeLabels(Lowered(ks)), y, Lower(rest));
      PrefixFree(Lowered(ls), Lowered(ks), x + more, y + Lower(rest));
      FourAlike(t, c, t2, c2, more, Lower(rest));
    }
    if Lowered(ls) == Lowered(ks) && Folded(t, t2) && Folded(c, c2) {
      assert |Lower(q)| == |Lower(Ask(ks, t2, c2))|;
      assert d[..|q|] == Ask(ks, t2, c2);
    }
  }

  lemma LoweredAsk(ls: seq<bytes>, t: u16, c: u16)
    requires Labels(ls)
    ensures Labels(Lowered(ls)) && Lower(Ask(ls, t, c)) == EncodeLabels(Lowered(ls)) + (Lower(Enc16(t)) + Lower(Enc16(c)))
  {
    LoweredLabels(ls);
    LowerConcat(EncodeLabels(ls), Enc16(t) + Enc16(c));
    LowerConcat(Enc16(t), Enc16(c));
  }

  lemma FourAlike(t: u16, c: u16, t2: u16, c2: u16, a: bytes, b: bytes)
    requires Lower(Enc16(t)) + Lower(Enc16(c)) + a == Lower(Enc16(t2)) + Lower(Enc16(c2)) + b
    ensures Folded(t, t2) && Folded(c, c2)
  {
    var d, e := Lower(Enc16(t)) + Lower(Enc16(c)) + a, Lower(Enc16(t2)) + Lower(Enc16(c2)) + b;
    assert d[0..2] == Lower(Enc16(t)) && e[0..2] == Lower(Enc16(t2));
    assert d[2..4] == Lower(Enc16(c)) && e[2..4] == Lower(Enc16(c2));
  }

  /** Exactly which well-formed replies are taken for a well-formed query's. */
  lemma MatchingReplies(h: bytes, ls: seq<bytes>, t: u16, c: u16, more: bytes, h2: bytes, ks: seq<bytes>, t2: u16, c2: u16, rest: bytes)
    requires |h| == 12 && |h2| == 12 && Labels(ls) && Labels(ks)
    ensures ReplyMatches(h + (Ask(ls, t, c) + more), h2 + (Ask(ks, t2, c2) + rest))
       <==> Be16(h, 0) == Be16(h2, 0) && h2[2] >= 128 && Be16(h2, 4) == 1
            && Lowered(ls) == Lowered(ks) && Folded(t, t2) && Folded(c, c2)
  {
    var q, r := h + (Ask(ls, t, c) + more), h2 + (Ask(ks, t2, c2) + rest);
    QuestionLenIs(h, ls, t, c, more);
    Sections(h, Ask(ls, t, c), more);
    Sections(h2, Ask(ks, t2, c2) + rest, []);
    PlusEmpty(Ask(ks, t2, c2) + rest);
    Questions(r, Ask(ks, t2, c2) + rest, |Ask(ls, t, c)|);
    SameQuestion(ls, t, c, ks, t2, c2, rest);
  }

  lemma Sections(h: bytes, q: bytes, more: bytes)
    requires |h| == 12
    ensures var p := h + (q + more);
      p[12..12 + |q|] == q && p[12..] == q + more && Be16(p, 0) == Be16(h, 0) && p[2] == h[2] && Be16(p, 4) == Be16(h, 4)
  {
  }

  lemma Questions(r: bytes, d: bytes, n: nat)
    requires |r| >= 12 && r[12..] == d
    ensures 12 + n <= |r| <==> n <= |d|
    ensures 12 + n <= |r| ==> r[12..12 + n] == d[..n]
  {
  }

  lemma QuestionLenIs(h: bytes, ls: seq<bytes>, t: u16, c: u16, more: bytes)
    requires |h| == 12 && Labels(ls)
    ensures QuestionLen(h + (Ask(ls, t, c) + more)) == |Ask(ls, t, c)|
  {
    var q := h + (Ask(ls, t, c) + more);
    Assoc(EncodeLabels(ls), Enc16(t) + Enc16(c), more);
    assert q[12..] == EncodeLabels(ls) + (Enc16(t) + Enc16(c) + more);
    NameEndIs(q, 12, ls, Enc16(t) + Enc16(c) + more);
  }

  predicate Letter(b: byte)
  {
    65 <= b <= 90 || 97 <= b <= 122
  }

  /** The number with the case of its lower or its upper octet changed. */
  function OtherCase(b: byte): (r: byte)
    requires Letter(b)
  {
    if b <= 90 then b + 32 else b - 32
  }

  /** Folding confuses a type with no other exactly when neither of its octets is a letter: so A and
      AAAA are safe, while HTTPS (65) is taken for 97. */
  lemma ExactTypes(a: u16)
    ensures (forall b: u16 :: Folded(a, b) ==> a == b) <==> !Letter(a / 0x100) && !Letter(a % 0x100)
  {
    var hi: byte, lo: byte := a / 0x100, a % 0x100;
    if Letter(hi) {
      FoldedOctets(a, OtherCase(hi) * 0x100 + lo);
    } else if Letter(lo) {
      FoldedOctets(a, hi * 0x100 + OtherCase(lo));
    } else {
      forall b: u16 | Folded(a, b)
        ensures a == b
      {
        FoldedOctets(a, b);
      }
    }
  }

  lemma FoldedOctets(a: u16, b: u16)
    ensures Folded(a, b) <==> LowerByte(a / 0x100) == LowerByte(b / 0x100) && LowerByte(a % 0x100) == LowerByte(b % 0x100)
  {
    var x, y := Lower(Enc16(a)), Lower(Enc16(b));
    assert x == [x[0], x[1]] && y == [y[0], y[1]];
    assert x == y <==> x[0] == y[0] && x[1] == y[1];
  }

  /** A reply about type 97 is taken for the answer to a query for type 65, HTTPS. */
  lemma HttpsIsConfused(query: bytes, reply: bytes)
    requires query == [0, 7, 1, 0, 0, 1, 0, 0, 0, 0, 0, 0] + (Ask([[97]], 65, 1) + [])
    requires reply == [0, 7, 129, 128, 0, 1, 0, 0, 0, 0, 0, 0] + (Ask([[97]], 97, 1) + [])
    ensures ReplyMatches(query, reply)
  {
    var h: bytes, h2: bytes := [0, 7, 1, 0, 0, 1, 0, 0, 0, 0, 0, 0], [0, 7, 129, 128, 0, 1, 0, 0, 0, 0, 0, 0];
    FoldedOctets(65, 97);
    MatchingReplies(h, [[97]], 65, 1, [], h2, [[97]], 97, 1, []);
  }
}
