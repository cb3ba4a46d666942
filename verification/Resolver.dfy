/** src/dns/dns.c: the trusted resolver, its servers' health, its cache and the walk over the servers.
    Other threads' locked sections may come between those of a lookup. */
module Resolver {
  import opened Bytes
  import opened DnsName
  import opened DnsQuery
  import opened DnsReply
  import opened DnsTransport
  import opened DnsCache

  const MAX_SERVERS: nat := 12
  const FAIL_LIMIT: nat := 3
  const BACKOFF_SECONDS: nat := 60

  // ---- health ----

  datatype Health = Health(failing: nat, skipUntil: int)

  /** One query's outcome. */
  function Judged(h: Health, ok: bool, now: int): (r: Health)
  {
    if ok then Health(0, 0)
    else Health(h.failing + 1, if h.failing + 1 >= FAIL_LIMIT then now + BACKOFF_SECONDS else h.skipUntil)
  }

  /** How a query went, by the judgement of whoever made it. */
  datatype Outcome = Outcome(who: nat, server: nat, ok: bool, at: int)

  function HealthAfter(os: seq<Outcome>): (h: Health)
  {
    if |os| == 0 then Health(0, 0) else Judged(HealthAfter(os[..|os| - 1]), os[|os| - 1].ok, os[|os| - 1].at)
  }

  function FailuresInARow(os: seq<Outcome>): (n: nat)
    ensures n <= |os|
  {
    if |os| == 0 || os[|os| - 1].ok then 0 else 1 + FailuresInARow(os[..|os| - 1])
  }

  /** A server is backed off exactly for a minute after the latest of three or more failures in a row. */
  lemma {:induction false} BackedOffExactly(os: seq<Outcome>, now: int)
    requires now >= 0
    ensures HealthAfter(os).skipUntil > now
       <==> FailuresInARow(os) >= 3 && now < os[|os| - 1].at + 60
  {
    FailingCounts(os);
  }

  lemma {:induction false} FailingCounts(os: seq<Outcome>)
    ensures HealthAfter(os).failing == FailuresInARow(os)
    ensures HealthAfter(os).skipUntil == if FailuresInARow(os) >= FAIL_LIMIT then os[|os| - 1].at + BACKOFF_SECONDS else 0
  {
    if |os| > 0 {
      FailingCounts(os[..|os| - 1]);
    }
  }

  /** The outcomes of one server's queries, and of one thread's. */
  function OutcomesOf(os: seq<Outcome>, server: nat): (r: seq<Outcome>)
  {
    if |os| == 0 then []
    else OutcomesOf(os[..|os| - 1], server) + if os[|os| - 1].server == server then [os[|os| - 1]] else []
  }

  function OutcomesBy(os: seq<Outcome>, who: nat): (r: seq<Outcome>)
  {
    if |os| == 0 then []
    else OutcomesBy(os[..|os| - 1], who) + if os[|os| - 1].who == who then [os[|os| - 1]] else []
  }

  lemma OutcomesMore(os: seq<Outcome>, o: Outcome, server: nat, who: nat)
    ensures OutcomesOf(os + [o], server) == if o.server == server then OutcomesOf(os, server) + [o] else OutcomesOf(os, server)
    ensures OutcomesBy(os + [o], who) == if o.who == who then OutcomesBy(os, who) + [o] else OutcomesBy(os, who)
  {
    assert (os + [o])[..|os|] == os;
  }

  lemma HealthAfterMore(os: seq<Outcome>, o: Outcome)
    ensures HealthAfter(os + [o]) == Judged(HealthAfter(os), o.ok, o.at)
  {
    assert (os + [o])[..|os|] == os;
  }

  // ---- the order of asking ----

  predicate Skipped(h: seq<Health>, i: nat, now: int)
    requires i < |h|
  {
    h[i].skipUntil > now
  }

  /** The first `n` servers that are skipped, or those that are not, in list order. */
  function Pass(h: seq<Health>, n: nat, now: int, skipped: bool): (r: seq<nat>)
    requires n <= |h|
  {
    if n == 0 then [] else Pass(h, n - 1, now, skipped) + (if Skipped(h, n - 1, now) == skipped then [n - 1] else [])
  }

  function Order(h: seq<Health>, n: nat, now: int): (r: seq<nat>)
    requires n <= |h|
  {
    Pass(h, n, now, false) + Pass(h, n, now, true)
  }

  predicate Before(h: seq<Health>, now: int, i: nat, j: nat)
    requires i < |h| && j < |h|
  {
    if Skipped(h, i, now) == Skipped(h, j, now) then i < j else Skipped(h, j, now)
  }

  /** A stable, healthy-first arrangement of all `n` servers. */
  ghost predicate HealthyFirst(h: seq<Health>, n: nat, now: int, r: seq<nat>)
    requires n <= |h|
  {
    && |r| == n
    && (forall k :: 0 <= k < |r| ==> r[k] < n)
    && (forall i :: 0 <= i < n ==> i in r)
    && forall j, k :: 0 <= j < k < |r| ==> r[j] < n && r[k] < n && Before(h, now, r[j], r[k])
  }

  ghost predicate OnePass(h: seq<Health>, n: nat, now: int, skipped: bool, r: seq<nat>)
    requires n <= |h|
  {
    && (forall k :: 0 <= k < |r| ==> r[k] < n && Skipped(h, r[k], now) == skipped)
    && (forall i :: 0 <= i < n && Skipped(h, i, now) == skipped ==> i in r)
    && forall j, k :: 0 <= j < k < |r| ==> r[j] < r[k]
  }

  lemma OneMore(h: seq<Health>, n: nat, now: int, skipped: bool, r: seq<nat>, r2: seq<nat>)
    requires n < |h| && OnePass(h, n, now, skipped, r)
    requires r2 == if Skipped(h, n, now) == skipped then r + [n] else r
    ensures OnePass(h, n + 1, now, skipped, r2)
  {
    forall k | 0 <= k < |r2|
      ensures r2[k] < n + 1 && Skipped(h, r2[k], now) == skipped
    {
      assert r2[k] == if k < |r| then r[k] else n;
    }
    forall i | 0 <= i < n + 1 && Skipped(h, i, now) == skipped
      ensures i in r2
    {
      assert i == n || i in r;
    }
    forall j, k | 0 <= j < k < |r2|
      ensures r2[j] < r2[k]
    {
      assert r2[j] == r[j] && r2[k] == if k < |r| then r[k] else n;
    }
  }

  lemma PassMore(h: seq<Health>, n: nat, now: int, skipped: bool, r: seq<nat>)
    requires n < |h| && r == Pass(h, n, now, skipped)
    ensures Pass(h, n + 1, now, skipped) == if Skipped(h, n, now) == skipped then r + [n] else r
  {
  }

  lemma {:induction false} PassHolds(h: seq<Health>, n: nat, now: int, skipped: bool)
    requires n <= |h|
    ensures OnePass(h, n, now, skipped, Pass(h, n, now, skipped))
  {
    if n > 0 {
      var r := Pass(h, n - 1, now, skipped);
      PassHolds(h, n - 1, now, skipped);
      PassMore(h, n - 1, now, skipped, r);
      OneMore(h, n - 1, now, skipped, r, Pass(h, n, now, skipped));
    }
  }

  lemma {:induction false} PassSizes(h: seq<Health>, n: nat, now: int)
    requires n <= |h|
    ensures |Pass(h, n, now, false)| + |Pass(h, n, now, true)| == n
  {
    if n > 0 {
      PassSizes(h, n - 1, now);
    }
  }

  lemma OrderHealthyFirst(h: seq<Health>, n: nat, now: int)
    requires n <= |h|
    ensures HealthyFirst(h, n, now, Order(h, n, now))
  {
    PassHolds(h, n, now, false);
    PassHolds(h, n, now, true);
    PassSizes(h, n, now);
  }

  /** And there is only one such arrangement. */
  lemma {:induction false} HealthyFirstIsUnique(h: seq<Health>, n: nat, now: int, r: seq<nat>, s: seq<nat>)
    requires n <= |h| && HealthyFirst(h, n, now, r) && HealthyFirst(h, n, now, s)
    ensures r == s
  {
    if r != s {
      var k := FirstDifference(r, s);
      var a := IndexOf(s, r[k]);
      var b := IndexOf(r, s[k]);
    }
  }

  lemma FirstDifference(r: seq<nat>, s: seq<nat>) returns (k: nat)
    requires |r| == |s| && r != s
    ensures k < |r| && r[k] != s[k] && r[..k] == s[..k]
  {
    k := 0;
    while k < |r| && r[k] == s[k]
      invariant k <= |r| && r[..k] == s[..k]
    {
      k := k + 1;
    }
  }

  lemma IndexOf(s: seq<nat>, x: nat) returns (a: nat)
    requires x in s
    ensures a < |s| && s[a] == x
  {
    a :| a < |s| && s[a] == x;
  }

  /** Two passes over the servers: the healthy ones, then those backed off. */
  method Arrange(health: array<Health>, count: nat, now: int) returns (order: seq<nat>)
    requires count <= health.Length
    ensures order == Order(health[..], count, now)
  {
    order := [];
    var pass := 0;
    while pass < 2
      invariant pass <= 2
      invariant order == if pass == 0 then [] else if pass == 1 then Pass(health[..], count, now, false) else Order(health[..], count, now)
    {
      var i := 0;
      ghost var before := order;
      while i < count
        invariant i <= count && order == before + Pass(health[..], i, now, pass == 1)
      {
        if (health[i].skipUntil > now) == (pass == 1) {
          order := order + [i];
        }
        i := i + 1;
      }
      pass := pass + 1;
    }
  }

  // ---- a walk over the servers ----

  predicate Encodes(name: bytes)
  {
    Encoding(name, 496).Some?
  }

  /** The identifier of the j-th query of a lookup. */
  function IdAt(id: u16, j: nat): (r: u16)
  {
    (id + j) % 0x1_0000
  }

  /** The j-th call of a lookup goes to the j-th server of its order, with the query for its name. */
  ghost predicate RightCall(who: nat, order: seq<nat>, id: u16, name: bytes, qtype: u16, j: nat, c: Call)
  {
    j < |order| && c.who == who && c.server == order[j] && QueryFor(IdAt(id, j), name, qtype) == Some(c.query)
  }

  /** The first calls of a lookup, none of which brought a usable answer. */
  ghost predicate NoneUsable(who: nat, order: seq<nat>, id: u16, name: bytes, qtype: u16, calls: seq<Call>)
  {
    if |calls| == 0 then true
    else
      var j := |calls| - 1;
      && NoneUsable(who, order, id, name, qtype, calls[..j])
      && RightCall(who, order, id, name, qtype, j, calls[j])
      && !UsableStatus(Heard(calls[j].reply, IdAt(id, j), name, qtype).0)
  }

  /** What a thread did: its calls, its judgements of servers and the answers it put on record. */
  datatype Deeds = Deeds(calls: seq<Call>, judged: seq<Outcome>, said: seq<Said>)

  function Plus(a: Deeds, b: Deeds): (r: Deeds)
  {
    Deeds(a.calls + b.calls, a.judged + b.judged, a.said + b.said)
  }

  /** A walk that the first `asked` servers of the order failed: each was called once, with no usable
      answer (nobody for a name that has no query), each was judged so, and nothing went on record. */
  ghost predicate Unsuccessful(who: nat, order: seq<nat>, id: u16, name: bytes, qtype: u16, now: int, d: Deeds, asked: nat)
  {
    && asked <= |order| && |d.calls| == (if Encodes(name) then asked else 0)
    && NoneUsable(who, order, id, name, qtype, d.calls)
    && d.judged == Verdicts(who, order, asked, false, now) && d.said == []
  }

  /** A walk that ended with the last of `asked` servers, the first to have a usable answer: it is that
      of its reply, it is judged well, and the answer is on record with the reply. */
  ghost predicate Successful(who: nat, order: seq<nat>, id: u16, name: bytes, qtype: u16, now: int, d: Deeds, asked: nat, st: Status, a: Answer)
  {
    && 0 < asked <= |order| && |d.calls| == asked
    && NoneUsable(who, order, id, name, qtype, d.calls[..asked - 1])
    && RightCall(who, order, id, name, qtype, asked - 1, d.calls[asked - 1])
    && (st, a) == Heard(d.calls[asked - 1].reply, IdAt(id, asked - 1), name, qtype) && UsableStatus(st)
    && d.judged == Verdicts(who, order, asked, true, now)
    && KeptIt(who, order[asked - 1], IdAt(id, asked - 1), name, qtype, st, a, now, d.said) && BroughtIt(d.calls[asked - 1..], d.said)
  }

  ghost predicate StandsSo(who: nat, order: seq<nat>, id: u16, name: bytes, qtype: u16, now: int, d: Deeds, asked: nat, st: Status, a: Answer)
  {
    if UsableStatus(st) then Successful(who, order, id, name, qtype, now, d, asked, st, a)
    else Unsuccessful(who, order, id, name, qtype, now, d, asked)
  }

  /** A lookup: the first usable answer in the order, or none when all servers failed. */
  ghost predicate Walked(who: nat, order: seq<nat>, id: u16, name: bytes, qtype: u16, now: int, d: Deeds, asked: nat, st: Status, a: Answer)
  {
    if UsableStatus(st) then Successful(who, order, id, name, qtype, now, d, asked, st, a)
    else st == AllFailed && a.addrs == [] && asked == |order| && Unsuccessful(who, order, id, name, qtype, now, d, asked)
  }

  /** How the servers asked were judged: failed, but for the last if its answer was usable. */
  ghost function Verdicts(who: nat, order: seq<nat>, asked: nat, usable: bool, now: int): (r: seq<Outcome>)
    requires asked <= |order|
  {
    if asked == 0 then [] else Verdicts(who, order, asked - 1, false, now) + [Outcome(who, order[asked - 1], usable, now)]
  }

  // ---- the resolver ----

  /** What another thread does between lock and unlock, or its use of the transport outside. */
  datatype Section =
    | Looking(name: bytes, qtype: u16, now: int)
    | Calling(who: nat, server: nat, query: bytes)
    | Concluding(who: nat, server: nat, id: u16, name: bytes, qtype: u16, call: nat, now: int)
    | Judging(who: nat, server: nat, ok: bool, now: int)

  /** The call that brought a reply. */
  ghost predicate WasCalled(s: Said, log: seq<Call>)
  {
    var q := QueryFor(s.id, s.asked, s.qtype);
    q.Some? && Call(s.who, s.server, q.value, Packet(s.reply)) in log
  }

  ghost predicate AllCalled(said: seq<Said>, log: seq<Call>)
  {
    forall i :: 0 <= i < |said| ==> WasCalled(said[i], log)
  }

  lemma CalledMore(said: seq<Said>, log: seq<Call>, c: Call)
    requires AllCalled(said, log)
    ensures AllCalled(said, log + [c])
  {
    forall i | 0 <= i < |said|
      ensures WasCalled(said[i], log + [c])
    {
      assert WasCalled(said[i], log);
    }
  }

  /** The calls of one query: one, and what came of its reply, or none for a name that has no query. */
  ghost predicate Exchanged(who: nat, server: nat, id: u16, name: bytes, qtype: u16, calls: seq<Call>, st: Status, a: Answer)
  {
    var q := QueryFor(id, name, qtype);
    if q.None? then calls == [] && !UsableStatus(st)
    else |calls| == 1 && calls[0] == Call(who, server, q.value, calls[0].reply) && (st, a) == Heard(calls[0].reply, id, name, qtype)
  }

  /** A usable answer is stored; any other leaves the cache as it was. */
  ghost predicate CacheAfter(c: seq<Entry>, name: bytes, qtype: u16, st: Status, a: Answer, now: int, d: seq<Entry>)
  {
    if UsableStatus(st) then StoredIn(c, name, qtype, st, a, now, d) else d == c
  }

  /** What goes on record of one query: a usable answer, with its reply. */
  ghost predicate KeptIt(who: nat, server: nat, id: u16, name: bytes, qtype: u16, st: Status, a: Answer, now: int, said: seq<Said>)
  {
    if UsableStatus(st) then |said| == 1 && said[0] == Said(who, server, id, name, qtype, said[0].reply, st, a, now) else said == []
  }

  /** No other thread is at work. */
  ghost predicate Alone(others: nat -> seq<Section>)
  {
    forall j :: others(j) == []
  }

  /** What goes on record is the packet that the call brought. */
  ghost predicate BroughtIt(calls: seq<Call>, said: seq<Said>)
  {
    |said| > 0 ==> |calls| == 1 && calls[0].reply == Packet(said[0].reply)
  }

  class Resolver {
    const net: Transport
    const cache: Cache
    const health: array<Health>
    const serverCount: nat
    var nextId: u16
    ghost var outcomes: seq<Outcome>

    /** The health of each server is that of its outcomes, and every answer in the cache came in a call. */
    ghost predicate Valid()
      reads this, net, cache, cache.entries, health
    {
      && cache.Valid() && health.Length == MAX_SERVERS && serverCount <= MAX_SERVERS
      && (forall i :: 0 <= i < MAX_SERVERS ==> health[i] == HealthAfter(OutcomesOf(outcomes, i)))
      && AllCalled(cache.said, net.log)
    }

    constructor (count: nat, seed: u16, network: (nat, nat, bytes) -> Net)
      ensures Valid() && fresh(net) && fresh(cache) && fresh(cache.entries) && fresh(health)
      ensures cache.said == [] && net.log == [] && outcomes == []
      ensures serverCount == (if count > MAX_SERVERS then MAX_SERVERS else count) && nextId == seed
    {
      net := new Transport(network);
      cache := new Cache();
      health := new Health[MAX_SERVERS](i => Health(0, 0));
      serverCount := if count > MAX_SERVERS then MAX_SERVERS else count;
      nextId := seed;
      outcomes := [];
    }

    /** In every run, a server is backed off exactly for a minute after the latest of three or more
        failures in a row. */
    lemma BackedOff(i: nat, now: int)
      requires Valid() && i < MAX_SERVERS && now >= 0
      ensures var os := OutcomesOf(outcomes, i);
        health[i].skipUntil > now <==> FailuresInARow(os) >= 3 && now < os[|os| - 1].at + 60
    {
      BackedOffExactly(OutcomesOf(outcomes, i), now);
    }

    method ListServers(now: int) returns (order: seq<nat>)
      requires Valid()
      ensures order == Order(health[..], serverCount, now) && HealthyFirst(health[..], serverCount, now, order)
    {
      order := Arrange(health, serverCount, now);
      OrderHealthyFirst(health[..], serverCount, now);
    }

    /** The first locked section of a lookup. Only the time a served entry was last used changes. */
    method Begin(name: bytes, qtype: u16, now: int) returns (hit: Option<(Status, Answer)>, order: seq<nat>, id: u16)
      requires Valid()
      modifies `nextId, cache.entries
      ensures Valid() && id == old(nextId)
      ensures hit.Some? <==> old(InDate(cache.entries[..], name, qtype, now))
      ensures hit.Some? ==> ServesLatest(cache.said, name, qtype, now, hit.value) && nextId == old(nextId)
      ensures hit.None? ==> HealthyFirst(health[..], serverCount, now, order) && nextId == (old(nextId) + serverCount) % 0x1_0000
      ensures Touched(old(cache.entries[..]), name, qtype, now, hit.Some?, cache.entries[..])
    {
      hit := cache.Fetch(name, qtype, now);
      order, id := [], nextId;
      if hit.None? {
        order := ListServers(now);
        nextId := (nextId + serverCount) % 0x1_0000;
      }
    }

    /** server_result */
    method Judge(who: nat, server: nat, ok: bool, now: int)
      requires Valid() && server < serverCount
      modifies `outcomes, health
      ensures Valid() && outcomes == old(outcomes) + [Outcome(who, server, ok, now)]
    {
      ghost var o := Outcome(who, server, ok, now);
      forall i | 0 <= i < MAX_SERVERS
        ensures OutcomesOf(outcomes + [o], i) == if server == i then OutcomesOf(outcomes, i) + [o] else OutcomesOf(outcomes, i)
      {
        OutcomesMore(outcomes, o, i, who);
      }
      HealthAfterMore(OutcomesOf(outcomes, server), o);
      health[server] := Judged(health[server], ok, now);
      outcomes := outcomes + [o];
    }

    /** The locked section after a server was asked: it takes a usable answer only with the reply that
        says so, brought by a call to that server with the query for that name. */
    method Conclude(who: nat, server: nat, name: bytes, qtype: u16, st: Status, a: Answer, now: int, ghost s: Said)
      requires Valid() && server < serverCount
      requires UsableStatus(st) ==>
        Genuine(s) && WasCalled(s, net.log) && s == Said(who, server, s.id, name, qtype, s.reply, st, a, now)
      modifies `outcomes, cache, cache.entries, health
      ensures Valid() && outcomes == old(outcomes) + [Outcome(who, server, UsableStatus(st), now)]
      ensures cache.said == old(cache.said) + if UsableStatus(st) then [s] else []
      ensures CacheAfter(old(cache.entries[..]), name, qtype, st, a, now, cache.entries[..])
    {
      Judge(who, server, UsableStatus(st), now);
      if UsableStatus(st) {
        cache.Store(name, qtype, st, a, now, s);
      }
    }

    predicate Possible(s: Section, me: nat)
    {
      s.Looking? || (s.who != me && s.server < serverCount)
    }

    /** A section of another thread. A thread concludes only on a reply of a call that it made. */
    method Other(s: Section, ghost me: nat)
      requires Valid() && Possible(s, me)
      modifies this, net`log, cache, cache.entries, health
      ensures Valid() && old(net.log) <= net.log
      ensures CallsBy(net.log, me) == old(CallsBy(net.log, me)) && SaidTo(cache.said, me) == old(SaidTo(cache.said, me))
      ensures OutcomesBy(outcomes, me) == old(OutcomesBy(outcomes, me))
    {
      match s
      case Looking(name, qtype, now) =>
        var hit, order, id := Begin(name, qtype, now);
      case Calling(who, server, query) =>
        var reply := net.Exchange(who, server, query);
        CallsByMore(old(net.log), net.log[|old(net.log)|], me);
        CalledMore(cache.said, old(net.log), net.log[|old(net.log)|]);
      case Judging(who, server, ok, now) =>
        OutcomesMore(outcomes, Outcome(who, server, ok, now), server, me);
        Judge(who, server, ok, now);
      case Concluding(who, server, id, name, qtype, call, now) =>
        OtherConcludes(who, server, id, name, qtype, call, now, me);
    }

    method OtherConcludes(who: nat, server: nat, id: u16, name: bytes, qtype: u16, call: nat, now: int, ghost me: nat)
      requires Valid() && server < serverCount && who != me
      modifies `outcomes, cache, cache.entries, health
      ensures Valid() && SaidTo(cache.said, me) == old(SaidTo(cache.said, me))
      ensures OutcomesBy(outcomes, me) == old(OutcomesBy(outcomes, me))
    {
      var q := BuildQuery(id, name, qtype);
      if q.Some? && call < |net.log| && net.log[call].reply.Packet? && net.log[call] == Call(who, server, q.value, net.log[call].reply) {
        var reply := net.log[call].reply;
        var st, a := Hear(reply, id, name, qtype);
        ghost var s := Said(who, server, id, name, qtype, reply.octets, st, a, now);
        OutcomesMore(outcomes, Outcome(who, server, UsableStatus(st), now), server, me);
        SaidToMore(cache.said, s, me);
        Conclude(who, server, name, qtype, st, a, now, s);
        assert old(cache.said) + [] == old(cache.said);
      }
    }

    method Others(ss: seq<Section>, ghost me: nat)
      requires Valid() && forall i :: 0 <= i < |ss| ==> Possible(ss[i], me)
      modifies this, net`log, cache, cache.entries, health
      ensures Valid() && old(net.log) <= net.log && Done(me) == old(Done(me))
      ensures ss == [] ==> AllDone() == old(AllDone()) && cache.entries[..] == old(cache.entries[..]) && nextId == old(nextId)
    {
      for i := 0 to |ss|
        invariant Valid() && (i == 0 ==> AllDone() == old(AllDone()) && cache.entries[..] == old(cache.entries[..]) && nextId == old(nextId))
        invariant old(net.log) <= net.log && Done(me) == old(Done(me))
      {
        Other(ss[i], me);
      }
    }

    /** The call, outside the lock, and what it would put on record. */
    method CallOne(who: nat, server: nat, id: u16, name: bytes, qtype: u16, ghost now: int)
      returns (st: Status, a: Answer, ghost calls: seq<Call>, ghost s: Said)
      requires Valid()
      modifies net`log
      ensures Valid() && Exchanged(who, server, id, name, qtype, calls, st, a)
      ensures s == Said(who, server, id, name, qtype, s.reply, st, a, now) && (UsableStatus(st) ==> Genuine(s) && WasCalled(s, net.log))
      ensures UsableStatus(st) ==> BroughtIt(calls, [s])
      ensures Done(who) == Plus(old(Done(who)), Deeds(calls, [], [])) && AllDone() == Plus(old(AllDone()), Deeds(calls, [], []))
    {
      ghost var d, all := Done(who), AllDone();
      ghost var reply;
      st, a, reply := QueryServer(net, who, server, id, name, qtype);
      calls := net.log[|old(net.log)|..];
      s := Said(who, server, id, name, qtype, if reply.Packet? then reply.octets else [], st, a, now);
      if |calls| > 0 {
        CalledMore(cache.said, old(net.log), calls[0]);
      }
      OwnCalls(old(net.log), who, server, id, name, qtype, calls, st, a);
      PlusCalls(d, calls);
      PlusCalls(all, calls);
    }

    /** The section after it, as seen on the record. */
    method ConcludeOne(who: nat, server: nat, name: bytes, qtype: u16, st: Status, a: Answer, now: int, ghost s: Said) returns (ghost said: seq<Said>)
      requires Valid() && server < serverCount && s == Said(who, server, s.id, name, qtype, s.reply, st, a, now)
      requires UsableStatus(st) ==> Genuine(s) && WasCalled(s, net.log)
      modifies `outcomes, cache, cache.entries, health
      ensures Valid() && KeptIt(who, server, s.id, name, qtype, st, a, now, said) && said == if UsableStatus(st) then [s] else []
      ensures var more := Deeds([], [Outcome(who, server, UsableStatus(st), now)], said);
        Done(who) == Plus(old(Done(who)), more) && AllDone() == Plus(old(AllDone()), more)
      ensures CacheAfter(old(cache.entries[..]), name, qtype, st, a, now, cache.entries[..])
    {
      said := if UsableStatus(st) then [s] else [];
      ghost var told, judged, d := cache.said, outcomes, Done(who);
      Conclude(who, server, name, qtype, st, a, now, s);
      OutcomesMore(judged, Outcome(who, server, UsableStatus(st), now), server, who);
      OwnSaid(told, who, server, s.id, name, qtype, st, a, now, said);
      PlusEmpty(net.log);
      PlusEmpty(d.calls);
    }

    /** A server is asked, other threads being at work before the call and between it and the section
        after it: what this adds on `who`'s behalf. */
    method Try(who: nat, server: nat, id: u16, name: bytes, qtype: u16, now: int, early: seq<Section>, late: seq<Section>)
      returns (st: Status, a: Answer, ghost more: Deeds)
      requires Valid() && server < serverCount
      requires (forall k :: 0 <= k < |early| ==> Possible(early[k], who)) && forall k :: 0 <= k < |late| ==> Possible(late[k], who)
      modifies this, net`log, cache, cache.entries, health
      ensures Valid() && Done(who) == Plus(old(Done(who)), more)
      ensures Exchanged(who, server, id, name, qtype, more.calls, st, a) && KeptIt(who, server, id, name, qtype, st, a, now, more.said)
      ensures more.judged == [Outcome(who, server, UsableStatus(st), now)] && BroughtIt(more.calls, more.said)
      ensures early == [] && late == [] ==> AllDone() == Plus(old(AllDone()), more) && nextId == old(nextId)
      ensures early == [] && late == [] ==> CacheAfter(old(cache.entries[..]), name, qtype, st, a, now, cache.entries[..])
    {
      ghost var before, all := Done(who), AllDone();
      ghost var calls, s;
      st, a, calls, s := TryCall(who, server, id, name, qtype, now, early);
      ghost var said := TryConclude(who, server, name, qtype, st, a, now, late, s);
      more := Deeds(calls, [Outcome(who, server, UsableStatus(st), now)], said);
      CallThenSection(before, calls, more);
      CallThenSection(all, calls, more);
    }

    method TryCall(who: nat, server: nat, id: u16, name: bytes, qtype: u16, ghost now: int, early: seq<Section>)
      returns (st: Status, a: Answer, ghost calls: seq<Call>, ghost s: Said)
      requires Valid() && forall k :: 0 <= k < |early| ==> Possible(early[k], who)
      modifies this, net`log, cache, cache.entries, health
      ensures Valid() && Exchanged(who, server, id, name, qtype, calls, st, a)
      ensures s == Said(who, server, id, name, qtype, s.reply, st, a, now) && (UsableStatus(st) ==> Genuine(s) && WasCalled(s, net.log))
      ensures UsableStatus(st) ==> BroughtIt(calls, [s])
      ensures Done(who) == Plus(old(Done(who)), Deeds(calls, [], []))
      ensures early == [] ==> AllDone() == Plus(old(AllDone()), Deeds(calls, [], []))
      ensures early == [] ==> cache.entries[..] == old(cache.entries[..]) && nextId == old(nextId)
    {
      Others(early, who);
      st, a, calls, s := CallOne(who, server, id, name, qtype, now);
    }

    method TryConclude(who: nat, server: nat, name: bytes, qtype: u16, st: Status, a: Answer, now: int, late: seq<Section>, ghost s: Said)
      returns (ghost said: seq<Said>)
      requires Valid() && server < serverCount && forall k :: 0 <= k < |late| ==> Possible(late[k], who)
      requires s == Said(who, server, s.id, name, qtype, s.reply, st, a, now) && (UsableStatus(st) ==> Genuine(s) && WasCalled(s, net.log))
      modifies this, net`log, cache, cache.entries, health
      ensures Valid() && KeptIt(who, server, s.id, name, qtype, st, a, now, said) && said == if UsableStatus(st) then [s] else []
      ensures Done(who) == Plus(old(Done(who)), Deeds([], [Outcome(who, server, UsableStatus(st), now)], said))
      ensures late == [] ==> AllDone() == Plus(old(AllDone()), Deeds([], [Outcome(who, server, UsableStatus(st), now)], said))
      ensures late == [] ==> CacheAfter(old(cache.entries[..]), name, qtype, st, a, now, cache.entries[..]) && nextId == old(nextId)
    {
      ghost var log := net.log;
      Others(late, who);
      if UsableStatus(st) {
        StillCalled(s, log, net.log);
      }
      said := ConcludeOne(who, server, name, qtype, st, a, now, s);
    }

    /** All that was done, by anyone. */
    ghost function AllDone(): (d: Deeds)
      reads this, net, cache
    {
      Deeds(net.log, outcomes, cache.said)
    }

    /** What was done in `who`'s name. */
    ghost function Done(who: nat): (d: Deeds)
      reads this, net, cache
    {
      Deeds(CallsBy(net.log, who), OutcomesBy(outcomes, who), SaidTo(cache.said, who))
    }

    /** Where a lookup stands that began after `before`, `all`, the cache `c` and the identifier `next`. */
    ghost predicate Midway(who: nat, order: seq<nat>, id: u16, name: bytes, qtype: u16, now: int, alone: bool,
                           before: Deeds, all: Deeds, c: seq<Entry>, next: u16, d: Deeds, asked: nat, st: Status, a: Answer)
      reads this, net, cache, cache.entries
    {
      && Done(who) == Plus(before, d)
      && StandsSo(who, order, id, name, qtype, now, d, asked, st, a)
      && (alone ==> AllDone() == Plus(all, d) && CacheAfter(c, name, qtype, st, a, now, cache.entries[..]) && nextId == next)
    }

    lemma Starts(who: nat, order: seq<nat>, id: u16, name: bytes, qtype: u16, now: int, alone: bool, a: Answer)
      ensures Midway(who, order, id, name, qtype, now, alone, Done(who), AllDone(), cache.entries[..], nextId, Deeds([], [], []), 0, AllFailed, a)
    {
      PlusNothing(Done(who));
      PlusNothing(AllDone());
    }

    /** The next server of the order. */
    method TryNext(who: nat, order: seq<nat>, j: nat, id: u16, name: bytes, qtype: u16, now: int, early: seq<Section>, late: seq<Section>,
                   ghost alone: bool, ghost before: Deeds, ghost all: Deeds, ghost c: seq<Entry>, ghost next: u16, ghost d: Deeds, ghost st0: Status, ghost a0: Answer)
      returns (st: Status, a: Answer, ghost d2: Deeds)
      requires Valid() && j < |order| && order[j] < serverCount
      requires (forall k :: 0 <= k < |early| ==> Possible(early[k], who)) && forall k :: 0 <= k < |late| ==> Possible(late[k], who)
      requires Midway(who, order, id, name, qtype, now, alone, before, all, c, next, d, j, st0, a0) && !UsableStatus(st0)
      requires alone ==> early == [] && late == []
      modifies this, net`log, cache, cache.entries, health
      ensures Valid() && Midway(who, order, id, name, qtype, now, alone, before, all, c, next, d2, j + 1, st, a)
    {
      ghost var more;
      st, a, more := Try(who, order[j], IdAt(id, j), name, qtype, now, early, late);
      d2 := Plus(d, more);
      PlusAssoc(before, d, more);
      PlusAssoc(all, d, more);
      OneMoreDeed(who, order, id, name, qtype, now, d, j, more, st, a);
    }

    /** The servers are asked in turn until one has a usable answer. */
    method AskInTurn(who: nat, order: seq<nat>, id: u16, name: bytes, qtype: u16, now: int, others: nat -> seq<Section>,
                     ghost alone: bool, ghost before: Deeds, ghost all: Deeds, ghost c: seq<Entry>, ghost next: u16)
      returns (st: Status, a: Answer, asked: nat, ghost d: Deeds)
      requires Valid() && forall k :: 0 <= k < |order| ==> order[k] < serverCount
      requires forall j, k :: 0 <= k < |others(j)| ==> Possible(others(j)[k], who)
      requires before == Done(who) && all == AllDone() && c == cache.entries[..] && next == nextId && alone == Alone(others)
      modifies this, net`log, cache, cache.entries, health
      ensures Valid() && (asked >= |order| || UsableStatus(st))
      ensures Midway(who, order, id, name, qtype, now, alone, before, all, c, next, d, asked, st, a)
    {
      asked, d, st, a := 0, Deeds([], [], []), AllFailed, Answer([], TTL_MAX);
      Starts(who, order, id, name, qtype, now, alone, a);
      while asked < |order| && !UsableStatus(st)
        invariant Valid() && Midway(who, order, id, name, qtype, now, alone, before, all, c, next, d, asked, st, a)
        decreases |order| - asked
      {
        var early, late := others(2 * asked), others(2 * asked + 1);
        assert order[asked] < serverCount && (alone ==> early == [] && late == []);
        assert (forall k :: 0 <= k < |early| ==> Possible(early[k], who)) && forall k :: 0 <= k < |late| ==> Possible(late[k], who);
        st, a, d := TryNext(who, order, asked, id, name, qtype, now, early, late, alone, before, all, c, next, d, st, a);
        asked := asked + 1;
      }
    }

    /** And when none has, the lookup failed. */
    method Walk(who: nat, order: seq<nat>, id: u16, name: bytes, qtype: u16, now: int, others: nat -> seq<Section>)
      returns (st: Status, a: Answer, asked: nat, ghost d: Deeds)
      requires Valid() && forall k :: 0 <= k < |order| ==> order[k] < serverCount
      requires forall j, k :: 0 <= k < |others(j)| ==> Possible(others(j)[k], who)
      modifies this, net`log, cache, cache.entries, health
      ensures Valid() && Done(who) == Plus(old(Done(who)), d)
      ensures Walked(who, order, id, name, qtype, now, d, asked, st, a)
      ensures Alone(others) ==> AllDone() == Plus(old(AllDone()), d)
      ensures Alone(others) ==> CacheAfter(old(cache.entries[..]), name, qtype, st, a, now, cache.entries[..]) && nextId == old(nextId)
    {
      st, a, asked, d := AskInTurn(who, order, id, name, qtype, now, others, Alone(others), Done(who), AllDone(), cache.entries[..], nextId);
      if !UsableStatus(st) {
        st, a := AllFailed, Answer([], TTL_MAX);
      }
    }

    /** dns_resolve: `others(2 * j)` is what other threads do before server `j` of the order is called, and
        `others(2 * j + 1)` what they do between that call and the section after it.
        A hit asks nobody. Otherwise the calls made, the judgements passed and the answer put on record
        in `who`'s name are exactly those of one walk, and all there are when nobody else is at work. */
    method DnsResolve(who: nat, name: bytes, qtype: u16, now: int, others: nat -> seq<Section>)
      returns (st: Status, a: Answer, hit: bool, order: seq<nat>, asked: nat, ghost d: Deeds)
      requires Valid() && forall j, k :: 0 <= k < |others(j)| ==> Possible(others(j)[k], who)
      modifies this, net`log, cache, cache.entries, health
      ensures Valid()
      ensures hit <==> old(InDate(cache.entries[..], name, qtype, now))
      ensures hit ==> ServesLatest(old(cache.said), name, qtype, now, (st, a))
      ensures hit ==> AllDone() == old(AllDone()) && nextId == old(nextId) && Touched(old(cache.entries[..]), name, qtype, now, true, cache.entries[..])
      ensures !hit ==> HealthyFirst(old(health[..]), serverCount, now, order)
      ensures !hit ==> Done(who) == Plus(old(Done(who)), d) && Walked(who, order, old(nextId), name, qtype, now, d, asked, st, a)
      ensures !hit && Alone(others) ==>
        AllDone() == Plus(old(AllDone()), d) && CacheAfter(old(cache.entries[..]), name, qtype, st, a, now, cache.entries[..])
        && nextId == (old(nextId) + serverCount) % 0x1_0000
    {
      var cached, id;
      cached, order, id := Begin(name, qtype, now);
      hit, asked, d := cached.Some?, 0, Deeds([], [], []);
      if cached.Some? {
        st, a := cached.value.0, cached.value.1;
      } else {
        st, a, asked, d := Walk(who, order, id, name, qtype, now, others);
      }
    }
  }

  lemma PlusCalls(d: Deeds, calls: seq<Call>)
    ensures Plus(d, Deeds(calls, [], [])) == d.(calls := d.calls + calls)
  {
    PlusEmpty(d.judged);
    PlusEmpty(d.said);
  }

  /** What a call and then its section did. */
  lemma CallThenSection(d: Deeds, calls: seq<Call>, more: Deeds)
    requires more.calls == calls
    ensures Plus(Plus(d, Deeds(calls, [], [])), more.(calls := [])) == Plus(d, more)
  {
    PlusCalls(d, calls);
    PlusEmpty(d.calls + calls);
  }

  lemma StillCalled(s: Said, log: seq<Call>, more: seq<Call>)
    requires WasCalled(s, log) && log <= more
    ensures WasCalled(s, more)
  {
  }

  lemma OwnCalls(log: seq<Call>, who: nat, server: nat, id: u16, name: bytes, qtype: u16, calls: seq<Call>, st: Status, a: Answer)
    requires Exchanged(who, server, id, name, qtype, calls, st, a)
    ensures CallsBy(log + calls, who) == CallsBy(log, who) + calls
  {
    if |calls| == 1 {
      assert calls == [calls[0]];
      CallsByMore(log, calls[0], who);
    } else {
      assert log + calls == log;
    }
  }

  lemma OwnSaid(told: seq<Said>, who: nat, server: nat, id: u16, name: bytes, qtype: u16, st: Status, a: Answer, now: int, said: seq<Said>)
    requires KeptIt(who, server, id, name, qtype, st, a, now, said)
    ensures SaidTo(told + said, who) == SaidTo(told, who) + said
  {
    if |said| == 1 {
      assert said == [said[0]];
      SaidToMore(told, said[0], who);
    } else {
      assert told + said == told;
    }
  }

  lemma OneMoreDeed(who: nat, order: seq<nat>, id: u16, name: bytes, qtype: u16, now: int, d: Deeds, j: nat, more: Deeds, st: Status, a: Answer)
    requires j < |order| && Unsuccessful(who, order, id, name, qtype, now, d, j)
    requires Exchanged(who, order[j], IdAt(id, j), name, qtype, more.calls, st, a)
    requires more.judged == [Outcome(who, order[j], UsableStatus(st), now)] && KeptIt(who, order[j], IdAt(id, j), name, qtype, st, a, now, more.said)
    requires BroughtIt(more.calls, more.said)
    ensures StandsSo(who, order, id, name, qtype, now, Plus(d, more), j + 1, st, a)
  {
    OneMoreCall(d.calls, more.calls, j);
    OneMoreVerdict(who, order, j, UsableStatus(st), now);
    PlusEmpty(more.said);
    if UsableStatus(st) {
      assert Successful(who, order, id, name, qtype, now, Plus(d, more), j + 1, st, a);
    } else {
      assert Unsuccessful(who, order, id, name, qtype, now, Plus(d, more), j + 1);
    }
  }

  lemma OneMoreVerdict(who: nat, order: seq<nat>, j: nat, usable: bool, now: int)
    requires j < |order|
    ensures Verdicts(who, order, j + 1, usable, now) == Verdicts(who, order, j, false, now) + [Outcome(who, order[j], usable, now)]
  {
  }

  lemma OneMoreCall(calls: seq<Call>, made: seq<Call>, j: nat)
    requires |made| <= 1
    ensures |made| == 1 && |calls| == j ==> |calls + made| == j + 1 && (calls + made)[..j] == calls && (calls + made)[j] == made[0]
    ensures |made| == 0 ==> calls + made == calls
  {
  }

  lemma PlusAssoc(a: Deeds, b: Deeds, c: Deeds)
    ensures Plus(Plus(a, b), c) == Plus(a, Plus(b, c))
  {
    Assoc(a.calls, b.calls, c.calls);
    Assoc(a.judged, b.judged, c.judged);
    Assoc(a.said, b.said, c.said);
  }

  lemma PlusNothing(a: Deeds)
    ensures Plus(a, Deeds([], [], [])) == a
  {
  }

  /** What is served is the latest that was said for the name and type, and has not run out. */
  ghost predicate ServesLatest(said: seq<Said>, name: bytes, qtype: u16, now: int, r: (Status, Answer))
  {
    var s := Latest(said, Lower(name), qtype);
    s.Some? && r == Served(s.value) && now < Until(s.value)
  }

  /** `r` is what `s` said, with its time to live held within half a minute and an hour, half a minute for a
      negative answer, and not run out. */
  predicate SameNews(s: Said, now: int, r: (Status, Answer))
  {
    && r.0 == s.status && r.1.addrs == s.answer.addrs && now < s.at + r.1.ttl
    && r.1.ttl == if s.status != Ok then 30 else if s.answer.ttl < 30 then 30 else if s.answer.ttl > 3600 then 3600 else s.answer.ttl
  }

  /** So a server replied it to a query for that name and type, less than its time to live ago: the
      packet it sent, in a call on the transport's log, reads as exactly that. */
  lemma ServedWasSaid(said: seq<Said>, log: seq<Call>, name: bytes, qtype: u16, now: int, r: (Status, Answer)) returns (s: Said)
    requires AllGenuine(said) && AllCalled(said, log) && ServesLatest(said, name, qtype, now, r)
    ensures s in said && Lower(s.asked) == Lower(name) && s.qtype == qtype && SameNews(s, now, r)
    ensures UsableStatus(s.status) && Parse(s.reply, s.id, s.asked, qtype) == (s.status, s.answer)
    ensures QueryFor(s.id, s.asked, qtype).Some?
    ensures Call(s.who, s.server, QueryFor(s.id, s.asked, qtype).value, Packet(s.reply)) in log
  {
    s := Latest(said, Lower(name), qtype).value;
    LatestWasSaid(said, Lower(name), qtype);
    var i :| 0 <= i < |said| && said[i] == s;
    assert Genuine(said[i]) && WasCalled(said[i], log);
  }
}
