/** src/dns/dns.c: query_server, one query to one server over the transport the caller supplies. */
module DnsTransport {
  import opened Bytes
  import opened DnsName
  import opened DnsQuery
  import opened DnsReply

  /** What the transport brings back from a server. */
  datatype Net = NoReply | LocalError | Packet(octets: bytes)

  /** One use of the transport: on whose behalf, to which server, and what came back. */
  datatype Call = Call(who: nat, server: nat, query: bytes, reply: Net)

  /** The line to the servers, with a log of its use. What the n-th call brings is up to the network. */
  class Transport {
    const network: (nat, nat, bytes) -> Net
    var log: seq<Call>

    constructor (network: (nat, nat, bytes) -> Net)
      ensures this.network == network && log == []
    {
      this.network, log := network, [];
    }

    method Exchange(who: nat, server: nat, query: bytes) returns (reply: Net)
      modifies `log
      ensures log == old(log) + [Call(who, server, query, reply)] && reply == network(|old(log)|, server, query)
    {
      reply := network(|log|, server, query);
      log := log + [Call(who, server, query, reply)];
    }
  }

  /** The calls made on someone's behalf, in order. */
  function CallsBy(log: seq<Call>, who: nat): (r: seq<Call>)
  {
    if |log| == 0 then []
    else CallsBy(log[..|log| - 1], who) + if log[|log| - 1].who == who then [log[|log| - 1]] else []
  }

  lemma CallsByMore(log: seq<Call>, c: Call, who: nat)
    ensures CallsBy(log + [c], who) == if c.who == who then CallsBy(log, who) + [c] else CallsBy(log, who)
  {
    assert (log + [c])[..|log|] == log;
  }

  /** The query for a name, when it has one that fits the 512 octets allowed for it. */
  function QueryFor(id: u16, name: bytes, qtype: u16): (r: Option<bytes>)
  {
    var enc := Encoding(name, 496);
    if enc.None? then None else Some(Query(id, enc.value, qtype))
  }

  function Heard(reply: Net, id: u16, name: bytes, qtype: u16): (r: (Status, Answer))
  {
    match reply
    case NoReply => (Timeout, Answer([], TTL_MAX))
    case LocalError => (ServFail, Answer([], TTL_MAX))
    case Packet(octets) => Parse(octets, id, name, qtype)
  }

  predicate UsableStatus(st: Status)
  {
    st == Ok || st == NoData || st == NxDomain
  }

  method BuildQuery(id: u16, name: bytes, qtype: u16) returns (q: Option<bytes>)
    ensures q == QueryFor(id, name, qtype)
  {
    var buffer := new byte[512];
    var n := DnsBuildQuery(id, name, qtype, buffer);
    return if n == 0 then None else Some(buffer[..n]);
  }

  method Hear(reply: Net, id: u16, name: bytes, qtype: u16) returns (st: Status, a: Answer)
    ensures (st, a) == Heard(reply, id, name, qtype)
  {
    match reply
    case NoReply => return Timeout, Answer([], TTL_MAX);
    case LocalError => return ServFail, Answer([], TTL_MAX);
    case Packet(octets) => st, a := DnsParseResponse(octets, id, name, qtype);
  }

  /** query_server: one call with the query for the name, or none when there is no such query. */
  method QueryServer(net: Transport, who: nat, server: nat, id: u16, name: bytes, qtype: u16)
    returns (st: Status, a: Answer, ghost reply: Net)
    modifies net`log
    ensures QueryFor(id, name, qtype).None? ==> st == Malformed && net.log == old(net.log)
    ensures QueryFor(id, name, qtype).Some? ==>
      net.log == old(net.log) + [Call(who, server, QueryFor(id, name, qtype).value, reply)]
    ensures QueryFor(id, name, qtype).Some? ==> (st, a) == Heard(reply, id, name, qtype)
  {
    var q := BuildQuery(id, name, qtype);
    if q.None? {
      return Malformed, Answer([], TTL_MAX), NoReply;
    }
    var got := net.Exchange(who, server, q.value);
    reply := got;
    st, a := Hear(got, id, name, qtype);
  }
}
