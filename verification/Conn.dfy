/** src/transparent/conn.c: one intercepted connection's attempt loop, with what each server does left
    to the environment. */
module Conn {
  import opened Bytes
  import opened Plan
  import Relay
  import Strategies
  import Tls
  import Records

  datatype Ip = Ip(family: nat, addr: bytes)

  datatype SockAddr = SockAddr(ip: Ip, port: u16)

  /** How an attempt that was made can end. */
  type Outcome = r: Result | r != Skipped witness Ok

  /** The buffer for a ClientHello. */
  type Hello = h: bytes | |h| <= Relay.BUFFER_SIZE

  /** What a server does once it has the hello: nothing in time, a failed read, or bytes (none: it closed). */
  datatype Reply = Silent | Failed | Replied(octets: bytes)

  /** A server that cannot be connected to, or how the sends to it end and what it replies. */
  datatype Server = Unreachable | Reached(script: seq<Relay.SendResult>, reply: Reply)

  /** How the first bytes of a server are judged. */
  function Judged(reply: Reply): (r: Outcome)
  {
    match reply
    case Silent => Timeout
    case Failed => Reset
    case Replied(octets) =>
      if |octets| == 0 then Closed
      else if octets[0] == 0x16 then Ok
      else if octets[0] == 0x15 then Alert
      else NotTls
  }

  /** The first bytes on a connection, and where the sender paused to end a segment. */
  datatype Flight = Flight(octets: bytes, pauses: seq<nat>)

  /** What a step makes of the hello: with either bypass, two records divided at the split point, and a
      segment that ends with the first of them or inside its header; else the hello as it is. */
  function Sent(hello: bytes, s: Step): (r: Flight)
  {
    var at := Tls.RecordSplitPoint(hello);
    if s.strategy == Strategies.TlsRec && Tls.Splittable(hello, at) then Flight(Tls.Fragmented(hello, at), [5 + at])
    else if s.strategy == Strategies.TlsRecSplit && Tls.Splittable(hello, at) then Flight(Tls.Fragmented(hello, at), [3])
    else Flight(hello, [])
  }

  /** An attempt that put `wire` on the wire ended like this: only a whole hello can be answered. */
  predicate EndsSo(hello: bytes, s: Step, server: Server, wire: Flight, r: Outcome)
  {
    if server.Unreachable? then wire == Flight([], []) && r == ConnectFail
    else
      && wire.octets <= Sent(hello, s).octets
      && if wire.octets == Sent(hello, s).octets then wire == Sent(hello, s) && r == Judged(server.reply) else r == Reset
  }

  /** The attempts on record sent this, in order, and ended so. */
  ghost predicate TriedSo(hello: bytes, server: nat -> Server, from: nat, tried: seq<Attempt>, wires: seq<Flight>)
  {
    |wires| == from + |tried|
    && (|tried| > 0 ==>
          var n := |tried| - 1;
          && tried[n].result != Skipped && EndsSo(hello, tried[n].step, server(from + n), wires[from + n], tried[n].result)
          && TriedSo(hello, server, from, tried[..n], wires[..from + n]))
  }

  lemma OneMoreTried(hello: bytes, server: nat -> Server, from: nat, tried: seq<Attempt>, wires: seq<Flight>, s: Step, wire: Flight, r: Outcome)
    requires TriedSo(hello, server, from, tried, wires) && EndsSo(hello, s, server(|wires|), wire, r)
    ensures TriedSo(hello, server, from, tried + [Attempt(s, r)], wires + [wire])
  {
    assert (tried + [Attempt(s, r)])[..|tried|] == tried && (wires + [wire])[..|wires|] == wires;
  }

  /** The step of the last attempt if that was answered. */
  predicate IsLastAnswered(committed: Option<Step>, tried: seq<Attempt>)
  {
    committed == if |tried| > 0 && Answered(tried[|tried| - 1].result) then Some(tried[|tried| - 1].step) else None
  }

  class Conn {
    const original: SockAddr
    var trusted: SockAddr
    var plan: Plan
    /** Every address connected to so far, in order, and what was sent there first. */
    var connects: seq<SockAddr>
    var wires: seq<Flight>
    const hello: Hello
    /** The trusted resolver's addresses for the host (None: no usable answer). */
    const answer: Option<seq<Ip>>
    /** What the n-th connection attempt meets. */
    const server: nat -> Server

    constructor (original: SockAddr, hello: Hello, plan: Plan, answer: Option<seq<Ip>>, server: nat -> Server)
      ensures this.original == original && this.hello == hello && this.plan == plan && this.answer == answer && this.server == server
      ensures connects == [] && wires == [] && trusted == original
    {
      this.original, this.trusted, this.hello, this.plan := original, original, hello, plan;
      this.answer, this.server := answer, server;
      connects, wires := [], [];
    }

    /** The resolver has addresses for the host and the application's is not among them. */
    ghost predicate Disagrees()
    {
      answer.Some? && |answer.value| > 0 && original.ip !in answer.value
    }

    /** resolve_trusted: the opinion is a mismatch exactly when the resolver disagrees, and then the
        trusted address is its first one, at the application's port. */
    method ResolveTrusted()
      modifies `plan, `trusted
      ensures plan == old(plan).(trust := plan.trust) && plan.trust != Unknown
      ensures plan.trust == Mismatch <==> Disagrees()
      ensures plan.trust == Match <==> answer.Some? && original.ip in answer.value
      ensures trusted == if Disagrees() then SockAddr(answer.value[0], original.port) else old(trusted)
    {
      if answer.None? || |answer.value| == 0 {
        plan := plan.(trust := NoAnswer);
        return;
      }
      var i := 0;
      while i < |answer.value|
        invariant i <= |answer.value| && plan == old(plan) && trusted == old(trusted)
        invariant original.ip !in answer.value[..i]
      {
        if answer.value[i] == original.ip {
          plan := plan.(trust := Match);
          return;
        }
        i := i + 1;
      }
      assert answer.value[..i] == answer.value;
      plan := plan.(trust := Mismatch);
      trusted := SockAddr(answer.value[0], original.port);
    }

    /** attempt: connects to the step's address, sends the hello as the step has it and judges the first
        bytes that come back. */
    method DoAttempt(s: Step) returns (r: Outcome)
      requires |wires| == |connects|
      modifies `connects, `wires
      ensures connects == old(connects) + [if s.target == Trusted then trusted else original]
      ensures |wires| == |connects| && wires == old(wires) + [wires[|old(wires)|]]
      ensures EndsSo(hello, s, server(|old(wires)|), wires[|old(wires)|], r)
    {
      var met := server(|connects|);
      connects := connects + [if s.target == Trusted then trusted else original];
      if met.Unreachable? {
        wires := wires + [Flight([], [])];
        return ConnectFail;
      }
      var ok, flight := SendHello(met.script, s);
      wires := wires + [flight];
      if !ok {
        return Reset;
      }
      r := ReadReply(met.reply);
    }

    /** relay_send_first on a new connection. */
    method SendHello(script: seq<Relay.SendResult>, s: Step) returns (ok: bool, flight: Flight)
      ensures flight.octets <= Sent(hello, s).octets && (ok <==> flight.octets == Sent(hello, s).octets) && (ok ==> flight == Sent(hello, s))
    {
      var fd := new Relay.Socket(script);
      ok := Relay.SendFirst(fd, hello, Relay.SplitFor(s.strategy));
      flight := Flight(fd.wire, fd.pauses);
      SentIs(hello, s);
      PlusEmpty(Sent(hello, s).octets);
      PlusEmpty(Sent(hello, s).pauses);
    }

    /** The first bytes that come back, and what they are. */
    method ReadReply(reply: Reply) returns (r: Outcome)
      ensures r == Judged(reply)
    {
      if reply.Silent? {
        return Timeout;
      }
      if reply.Failed? {
        return Reset;
      }
      if |reply.octets| == 0 {
        return Closed;
      }
      r := if reply.octets[0] == 0x16 then Ok else if reply.octets[0] == 0x15 then Alert else NotTls;
    }

    /** Where the attempts on record went: a trusted one to an address the resolver gave and the
        application did not. */
    ghost predicate WentWhereRecorded(from: nat)
      reads this
    {
      && |connects| == from + |plan.tried|
      && (plan.trust == Mismatch ==> Disagrees() && trusted == SockAddr(answer.value[0], original.port))
      && forall i :: 0 <= i < |plan.tried| ==>
           if plan.tried[i].step.target == Trusted
           then plan.trust == Mismatch && connects[from + i] == trusted && trusted.ip != original.ip
           else connects[from + i] == original
    }

    /** run_plan: the loop is a run of the plan, carried on until nothing more is worth trying or an
        attempt was answered, which is then the step to commit. */
    method RunPlan() returns (committed: Option<Step>, ghost events: seq<Event>)
      requires plan.tried == [] && plan.trust == Unknown && |wires| == |connects|
      modifies `plan, `trusted, `connects, `wires
      ensures Follows(old(plan), events, |old(connects)|) && PlanNext(plan) == Done && IsLastAnswered(committed, plan.tried)
    {
      committed, events := None, [];
      var going := true;
      while going
        invariant Follows(old(plan), events, |old(connects)|) && |events| <= MAX_ATTEMPTS + 1
        invariant IsLastAnswered(committed, plan.tried)
        invariant if going then committed.None? else PlanNext(plan) == Done
        decreases going, MAX_ATTEMPTS + 1 - |events|
      {
        going, committed, events := TakeNext(old(plan), events, |old(connects)|);
      }
    }

    /** One turn of the loop. */
    method TakeNext(ghost p: Plan, ghost events: seq<Event>, ghost from: nat)
      returns (going: bool, committed: Option<Step>, ghost longer: seq<Event>)
      requires Follows(p, events, from) && IsLastAnswered(None, plan.tried) && |events| <= MAX_ATTEMPTS + 1
      modifies `plan, `trusted, `connects, `wires
      ensures Follows(p, longer, from) && |events| <= |longer| <= MAX_ATTEMPTS + 1 && IsLastAnswered(committed, plan.tried)
      ensures if going then committed.None? && |events| < |longer| else PlanNext(plan) == Done
    {
      var next := PlanNext(plan);
      going, committed, longer := next != Done, None, events;
      if next == NeedDns {
        longer := TakeLookup(p, events, from);
      } else if next != Done {
        var r;
        r, longer := TakeAttempt(next.step, p, events, from);
        if Answered(r) {
          going, committed := false, Some(next.step);
        }
      }
    }

    /** The loop so far is a run that led to this plan. */
    ghost predicate Follows(p: Plan, events: seq<Event>, from: nat)
      reads this
    {
      IsRun(p, events) && plan == After(p, events) && WentWhereRecorded(from) && TriedSo(hello, server, from, plan.tried, wires)
    }

    method TakeLookup(ghost p: Plan, ghost events: seq<Event>, ghost from: nat) returns (ghost longer: seq<Event>)
      requires Follows(p, events, from) && PlanNext(plan) == NeedDns
      modifies `plan, `trusted
      ensures Follows(p, longer, from) && plan.tried == old(plan).tried
      ensures |events| < |longer| <= MAX_ATTEMPTS + 1
    {
      RunState(p, events);
      Offers(plan);
      NoTrustedYet(p, events);
      ResolveTrusted();
      longer := Extend(p, events, Looked(plan.trust));
    }

    method TakeAttempt(s: Step, ghost p: Plan, ghost events: seq<Event>, ghost from: nat)
      returns (r: Outcome, ghost longer: seq<Event>)
      requires Follows(p, events, from) && PlanNext(plan) == Try(s)
      modifies `plan, `connects, `wires
      ensures Follows(p, longer, from) && plan.tried == old(plan).tried + [Attempt(s, r)]
      ensures |events| < |longer| <= MAX_ATTEMPTS + 1
    {
      r := DoAttempt(s);
      OneMoreTried(hello, server, from, plan.tried, old(wires), s, wires[|old(wires)|], r);
      Applied(plan, Tried(s, r));
      plan := Record(plan, s, r);
      longer := Extend(p, events, Tried(s, r));
    }
  }

  lemma SentIs(hello: bytes, s: Step)
    ensures Sent(hello, s).octets == Relay.OnWire(hello, Relay.SplitFor(s.strategy))
    ensures var p := Relay.PauseAt(hello, Relay.SplitFor(s.strategy)); Sent(hello, s).pauses == if p.Some? then [p.value] else []
  {
  }

  /** An attempt that was answered sent all of the hello. */
  lemma AnsweredHello(hello: bytes, server: nat -> Server, from: nat, tried: seq<Attempt>, wires: seq<Flight>)
    requires TriedSo(hello, server, from, tried, wires) && |tried| > 0 && Answered(tried[|tried| - 1].result)
    ensures wires[|wires| - 1] == Sent(hello, tried[|tried| - 1].step)
  {
  }

  /** So every attempt of a run carries the same content, that of the hello, whatever the client sends
      behind it. */
  lemma SameContent(hello: bytes, s: Step, wire: bytes, cont: bytes)
    requires wire == Sent(hello, s).octets
    ensures Records.Deframe(wire + cont) == Records.Deframe(hello + cont)
  {
    Relay.OnWirePreserves(hello, Relay.SplitFor(s.strategy), cont);
  }

  /** What each attempt sent is a beginning of that, all of it where the server was to reply. */
  lemma {:induction false} EachTriedSo(hello: bytes, server: nat -> Server, from: nat, tried: seq<Attempt>, wires: seq<Flight>, i: nat)
    requires TriedSo(hello, server, from, tried, wires) && i < |tried|
    ensures tried[i].result != Skipped && EndsSo(hello, tried[i].step, server(from + i), wires[from + i], tried[i].result)
  {
    var n := |tried| - 1;
    if i < n {
      EachTriedSo(hello, server, from, tried[..n], wires[..from + n], i);
    }
  }

  /** Before the lookup no attempt went to the trusted address. */
  lemma {:induction false} NoTrustedYet(p: Plan, events: seq<Event>)
    requires IsRun(p, events) && After(p, events).trust == Unknown
    ensures forall i :: 0 <= i < |After(p, events).tried| ==> After(p, events).tried[i].step.target == Original
  {
    if |events| > 0 {
      var shorter := events[..|events| - 1];
      Applied(After(p, shorter), events[|events| - 1]);
      NoTrustedYet(p, shorter);
    }
  }

  lemma Extend(p: Plan, events: seq<Event>, e: Event) returns (longer: seq<Event>)
    requires IsRun(p, events) && Enabled(After(p, events), e)
    ensures IsRun(p, longer) && After(p, longer) == Apply(After(p, events), e) && |longer| == |events| + 1
    ensures |longer| <= MAX_ATTEMPTS + 1
  {
    longer := events + [e];
    assert longer[..|longer| - 1] == events;
    RunState(p, longer);
  }
}
