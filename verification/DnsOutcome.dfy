/** src/dns/dns.c: which replies end a lookup, which send it on to the next server, and how the servers are
    judged by them. */
module DnsOutcome {
  import opened Bytes
  import opened DnsName
  import opened DnsQuery
  import opened DnsReply
  import opened DnsTransport
  import opened DnsCache
  import opened Resolver

  /** What the walks of Resolver.Walked depend on. */
  datatype Lookup = Lookup(who: nat, order: seq<nat>, id: u16, name: bytes, qtype: u16, now: int)

  datatype Result = Result(d: Deeds, asked: nat, st: Status, a: Answer)

  ghost predicate IsWalk(l: Lookup, r: Result)
  {
    Walked(l.who, l.order, l.id, l.name, l.qtype, l.now, r.d, r.asked, r.st, r.a)
  }

  /** The walk ended with its call `j`: this is the result, the server is judged well, and the answer is on
      record with the packet. */
  ghost predicate EndsWith(l: Lookup, r: Result, j: nat, st: Status, a: Answer, octets: bytes)
  {
    && j + 1 == r.asked == |r.d.judged| == |r.d.calls| && j < |l.order| && (r.st, r.a) == (st, a)
    && r.d.judged[j] == Outcome(l.who, l.order[j], true, l.now)
    && r.d.said == [Said(l.who, l.order[j], (l.id + j) % 0x1_0000, l.name, l.qtype, octets, st, a, l.now)]
  }

  /** The walk went on from its call `j`, to the next server or to the end of the list: the server is judged
      to have failed. */
  ghost predicate GoesOnFrom(l: Lookup, r: Result, j: nat)
  {
    && j < |r.d.judged| == r.asked && j < |l.order| && r.d.judged[j] == Outcome(l.who, l.order[j], false, l.now)
    && (j + 1 < r.asked || (r.asked == |l.order| && r.st == AllFailed && r.d.said == []))
  }

  lemma {:induction false} VerdictAt(who: nat, order: seq<nat>, asked: nat, usable: bool, now: int, j: nat)
    requires j < asked <= |order|
    ensures |Verdicts(who, order, asked, usable, now)| == asked
    ensures Verdicts(who, order, asked, usable, now)[j] == Outcome(who, order[j], usable && j == asked - 1, now)
  {
    if j < asked - 1 {
      VerdictAt(who, order, asked - 1, false, now, j);
    } else if asked > 1 {
      VerdictAt(who, order, asked - 1, false, now, 0);
    }
  }

  lemma {:induction false} NoneUsableAt(who: nat, order: seq<nat>, id: u16, name: bytes, qtype: u16, calls: seq<Call>, j: nat) returns (st: Status, a: Answer)
    requires NoneUsable(who, order, id, name, qtype, calls) && j < |calls|
    ensures (st, a) == Heard(calls[j].reply, IdAt(id, j), name, qtype) && st != Ok && st != NoData && st != NxDomain
    decreases |calls|
  {
    if j < |calls| - 1 {
      st, a := NoneUsableAt(who, order, id, name, qtype, calls[..|calls| - 1], j);
    } else {
      var heard := Heard(calls[j].reply, IdAt(id, j), name, qtype);
      st, a := heard.0, heard.1;
    }
  }

  ghost predicate Decided(l: Lookup, r: Result, j: nat, st: Status, a: Answer)
  {
    j < |r.d.calls|
    && if st == Ok || st == NoData || st == NxDomain
       then r.d.calls[j].reply.Packet? && EndsWith(l, r, j, st, a, r.d.calls[j].reply.octets)
       else GoesOnFrom(l, r, j)
  }

  /** Each call of a walk: an answer, also one that there is no such name or no such address, ends it there;
      anything else sends it on. */
  lemma CallDecides(l: Lookup, r: Result, j: nat) returns (st: Status, a: Answer)
    requires IsWalk(l, r) && j < |r.d.calls|
    ensures (st, a) == Heard(r.d.calls[j].reply, IdAt(l.id, j), l.name, l.qtype) && Decided(l, r, j, st, a)
  {
    if !UsableStatus(r.st) {
      st, a := AllGoOn(l, r, j);
    } else if j + 1 < r.asked {
      st, a := EarlierGoOn(l, r, j);
    } else {
      st, a := LastEnds(l, r, j);
    }
  }

  lemma UsableIs(st: Status)
    ensures UsableStatus(st) <==> st == Ok || st == NoData || st == NxDomain
  {
  }

  lemma LastEnds(l: Lookup, r: Result, j: nat) returns (st: Status, a: Answer)
    requires IsWalk(l, r) && UsableStatus(r.st) && r.asked - 1 <= j < |r.d.calls|
    ensures (st, a) == Heard(r.d.calls[j].reply, IdAt(l.id, j), l.name, l.qtype) && Decided(l, r, j, st, a)
  {
    st, a := r.st, r.a;
    UsableIs(st);
    LastCall(r.d.calls, j);
    Ends(l, r, j, r.d.calls[j]);
  }

  lemma Ends(l: Lookup, r: Result, j: nat, call: Call)
    requires r.asked == j + 1 <= |l.order| && |r.d.calls| == j + 1 && call == r.d.calls[j] && UsableStatus(r.st)
    requires r.d.judged == Verdicts(l.who, l.order, r.asked, true, l.now)
    requires KeptIt(l.who, l.order[j], IdAt(l.id, j), l.name, l.qtype, r.st, r.a, l.now, r.d.said) && BroughtIt([call], r.d.said)
    ensures call.reply.Packet? && EndsWith(l, r, j, r.st, r.a, call.reply.octets)
  {
    VerdictAt(l.who, l.order, r.asked, true, l.now, j);
    Recorded(l, j, r.st, r.a, call, r.d.said);
  }

  lemma Recorded(l: Lookup, j: nat, st: Status, a: Answer, call: Call, said: seq<Said>)
    requires j < |l.order| && UsableStatus(st) && KeptIt(l.who, l.order[j], IdAt(l.id, j), l.name, l.qtype, st, a, l.now, said)
    requires BroughtIt([call], said)
    ensures call.reply.Packet?
    ensures said == [Said(l.who, l.order[j], (l.id + j) % 0x1_0000, l.name, l.qtype, call.reply.octets, st, a, l.now)]
  {
    OneOf(said);
  }

  lemma OneOf<T>(s: seq<T>)
    requires |s| == 1
    ensures s == [s[0]]
  {
  }

  lemma EarlierGoOn(l: Lookup, r: Result, j: nat) returns (st: Status, a: Answer)
    requires IsWalk(l, r) && UsableStatus(r.st) && j + 1 < r.asked && j < |r.d.calls|
    ensures (st, a) == Heard(r.d.calls[j].reply, IdAt(l.id, j), l.name, l.qtype) && Decided(l, r, j, st, a)
  {
    VerdictAt(l.who, l.order, r.asked, true, l.now, j);
    st, a := NoneUsableAt(l.who, l.order, l.id, l.name, l.qtype, r.d.calls[..r.asked - 1], j);
  }

  lemma AllGoOn(l: Lookup, r: Result, j: nat) returns (st: Status, a: Answer)
    requires IsWalk(l, r) && !UsableStatus(r.st) && j < |r.d.calls|
    ensures (st, a) == Heard(r.d.calls[j].reply, IdAt(l.id, j), l.name, l.qtype) && Decided(l, r, j, st, a)
  {
    VerdictAt(l.who, l.order, r.asked, false, l.now, j);
    st, a := NoneUsableAt(l.who, l.order, l.id, l.name, l.qtype, r.d.calls, j);
  }

  lemma LastCall(calls: seq<Call>, n: nat)
    requires |calls| == n + 1
    ensures calls[n..] == [calls[n]]
  {
  }

  // ---- the replies of servers ----

  /** A server's reply to a query: header octets, the other counts, the name in the question, the records and
      what follows them. */
  datatype Response = Response(b2: byte, b3: byte, counts: bytes, ks: seq<bytes>, rs: seq<Record>, rest: bytes)

  /** It says reply and not truncated, and its question is about the name made of labels `ls`. */
  predicate RepliesTo(x: Response, ls: seq<bytes>)
  {
    && x.b2 >= 128 && x.b2 / 2 % 2 == 0 && |x.counts| == 4 && Labels(x.ks) && OnWire(x.rs) && |x.rs| < 0x1_0000
    && Lowered(x.ks) == Lowered(ls)
  }

  function Octets(x: Response, id: u16, qtype: u16): (d: bytes)
    requires |x.counts| == 4 && Labels(x.ks) && OnWire(x.rs) && |x.rs| < 0x1_0000
  {
    Reply(id, x.b2, x.b3, x.counts, x.ks, qtype, x.rs, x.rest)
  }

  /** What a response code makes of the addresses in the records. */
  predicate ReadsAs(rcode: nat, found: Answer, st: Status, a: Answer)
  {
    && (st == NxDomain <==> rcode == 3)
    && (st == NoData <==> rcode == 0 && found.addrs == [])
    && (st == Ok <==> rcode == 0 && found.addrs != [])
    && (rcode == 0 ==> a == found) && (rcode != 0 ==> a.addrs == [])
  }

  lemma HeardReply(x: Response, id: u16, ls: seq<bytes>, qtype: u16) returns (st: Status, a: Answer)
    requires Labels(ls) && |ls| > 0 && |Join(ls)| <= 253 && RepliesTo(x, ls)
    ensures (st, a) == Heard(Packet(Octets(x, id, qtype)), id, Join(ls), qtype) && ReadsAs(x.b3 % 16, Collected(x.rs, qtype), st, a)
  {
    var heard := Heard(Packet(Octets(x, id, qtype)), id, Join(ls), qtype);
    st, a := heard.0, heard.1;
    ReplyIsRead(id, x.b2, x.b3, x.counts, x.ks, qtype, x.rs, x.rest, id, ls, qtype);
  }

  /** Response code 3 ends the lookup with the news that there is no such name, code 0 with the addresses
      in the records or the news that there are none; any other code sends it on. */
  lemma ReplyDecides(l: Lookup, r: Result, j: nat, ls: seq<bytes>, x: Response)
    requires IsWalk(l, r) && j < |r.d.calls| && Labels(ls) && |ls| > 0 && l.name == Join(ls) && |l.name| <= 253
    requires RepliesTo(x, ls) && r.d.calls[j].reply == Packet(Octets(x, IdAt(l.id, j), l.qtype))
    ensures CodeDecided(l, r, j, x.b3 % 16, Collected(x.rs, l.qtype), r.d.calls[j].reply.octets)
  {
    var st, a := HeardReply(x, IdAt(l.id, j), ls, l.qtype);
    var st2, a2 := CallDecides(l, r, j);
    assert (st2, a2) == (st, a);
    CodeDecides(l, r, j, x.b3 % 16, Collected(x.rs, l.qtype), st, a);
  }

  ghost predicate CodeDecided(l: Lookup, r: Result, j: nat, rcode: nat, found: Answer, octets: bytes)
  {
    if rcode == 3 then EndsWith(l, r, j, NxDomain, r.a, octets) && r.a.addrs == []
    else if rcode == 0 then EndsWith(l, r, j, if found.addrs == [] then NoData else Ok, found, octets)
    else GoesOnFrom(l, r, j)
  }

  lemma CodeDecides(l: Lookup, r: Result, j: nat, rcode: nat, found: Answer, st: Status, a: Answer)
    requires Decided(l, r, j, st, a) && ReadsAs(rcode, found, st, a) && r.d.calls[j].reply.Packet?
    ensures CodeDecided(l, r, j, rcode, found, r.d.calls[j].reply.octets)
  {
  }

  lemma HeardNothing(reply: Net, id: u16, name: bytes, qtype: u16) returns (st: Status, a: Answer)
    requires reply.Packet? ==> Parse(reply.octets, id, name, qtype).0 == Malformed
    ensures (st, a) == Heard(reply, id, name, qtype) && st != Ok && st != NoData && st != NxDomain
  {
    var heard := Heard(reply, id, name, qtype);
    st, a := heard.0, heard.1;
  }

  /** Silence, a local error and a packet that is no reply to the query send it on. */
  lemma NoReplyGoesOn(l: Lookup, r: Result, j: nat)
    requires IsWalk(l, r) && j < |r.d.calls|
    requires r.d.calls[j].reply.Packet? ==> Parse(r.d.calls[j].reply.octets, IdAt(l.id, j), l.name, l.qtype).0 == Malformed
    ensures GoesOnFrom(l, r, j)
  {
    var st, a := HeardNothing(r.d.calls[j].reply, IdAt(l.id, j), l.name, l.qtype);
    var st2, a2 := CallDecides(l, r, j);
    assert (st2, a2) == (st, a);
  }
}
