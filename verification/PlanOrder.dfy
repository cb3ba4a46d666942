/** src/transparent/policy.c: the order in which the attempt planner tries things, as one list for each plan
    of which a run takes the first that is still open. */
module PlanOrder {
  import opened Bytes
  import opened Strategies
  import opened Plan

  datatype Rung = Go(step: Step) | Ask

  /** What a strategy comes to on a stream. */
  function OnStream(s: Strategy): (r: Strategy)
  {
    match s
    case Pass => Pass
    case TlsRecSplit => TlsRecSplit
    case TlsRec => TlsRec
    case Split => TlsRec
    case Disorder => TlsRec
    case Fake => TlsRec
    case Fragment => TlsRec
  }

  /** Both bypasses at an address, the one that last worked on this network first. */
  function Bypasses(p: Plan, t: Target): (r: seq<Rung>)
  {
    if p.preferred == TlsRecSplit then [Go(Step(t, TlsRecSplit)), Go(Step(t, TlsRec))]
    else [Go(Step(t, TlsRec)), Go(Step(t, TlsRecSplit))]
  }

  /** The trusted address counts only where the resolver disagrees. */
  function AtTrusted(trust: Trust, s: Strategy): (r: Rung)
  {
    Go(Step(if trust == Mismatch then Trusted else Original, OnStream(s)))
  }

  function CachedRungs(p: Plan, trust: Trust): (r: seq<Rung>)
  {
    if !p.hasCached then []
    else if p.cached.target == Trusted then [Ask, AtTrusted(trust, p.cached.strategy)]
    else [Go(Step(Original, OnStream(p.cached.strategy)))]
  }

  function LastRungs(p: Plan, trust: Trust): (r: seq<Rung>)
  {
    if trust == Mismatch then [Go(Step(Trusted, Pass))] + Bypasses(p, Trusted) else Bypasses(p, Original)
  }

  /** All that a plan may come to, in order, once it is known what a lookup says. */
  function Rungs(p: Plan, trust: Trust): (r: seq<Rung>)
  {
    if !p.hasHost || (p.hasManual && p.manual == Pass) then [Go(Step(Original, Pass))]
    else if p.inCooldown then if p.listed then Bypasses(p, Original)[..1] else [Go(Step(Original, Pass))]
    else if p.hasManual then [Ask, AtTrusted(trust, p.manual)]
    else
      CachedRungs(p, trust)
      + ((if p.listed then Bypasses(p, Original) else [])
         + ((if p.directBad then [] else [Go(Step(Original, Pass))])
            + ([Ask] + LastRungs(p, trust))))
  }

  /** A step that was not tried, to an address that was not found unreachable; a lookup not yet made. */
  predicate StillOpen(r: Rung, tried: seq<Attempt>, trust: Trust)
  {
    match r
    case Ask => trust == Unknown
    case Go(s) =>
      && (forall i :: 0 <= i < |tried| ==> tried[i].step != s)
      && (s.target == Original ==> forall i :: 0 <= i < |tried| && tried[i].step.target == Original ==> tried[i].result != ConnectFail)
  }

  function FirstOpen(rs: seq<Rung>, tried: seq<Attempt>, trust: Trust): (r: Option<Rung>)
  {
    if |rs| == 0 then None else if StillOpen(rs[0], tried, trust) then Some(rs[0]) else FirstOpen(rs[1..], tried, trust)
  }

  /** A run goes on until four attempts were made, or the last one was answered. */
  predicate GoesOn(tried: seq<Attempt>)
  {
    |tried| < 4 && (|tried| > 0 ==> tried[|tried| - 1].result != Ok && tried[|tried| - 1].result != Alert)
  }

  predicate Does(e: Event, r: Rung)
  {
    match e
    case Tried(s, result) => r == Go(s) && result != Skipped
    case Looked(t) => r == Ask && t != Unknown
  }

  lemma FirstOfTwo(a: seq<Rung>, b: seq<Rung>, tried: seq<Attempt>, trust: Trust)
    ensures FirstOpen(a + b, tried, trust) == if FirstOpen(a, tried, trust).Some? then FirstOpen(a, tried, trust) else FirstOpen(b, tried, trust)
  {
    if |a| == 0 {
      assert a + b == b;
    } else {
      assert (a + b)[1..] == a[1..] + b;
      FirstOfTwo(a[1..], b, tried, trust);
    }
  }

  function Offer(n: Next): (r: Option<Rung>)
  {
    match n
    case Try(s) => Some(Go(s))
    case NeedDns => Some(Ask)
    case Done => None
  }

  lemma FirstOfOne(r: Rung, tried: seq<Attempt>, trust: Trust)
    ensures FirstOpen([r], tried, trust) == if StillOpen(r, tried, trust) then Some(r) else None
  {
    assert [r][1..] == [];
  }

  lemma FirstOfPair(a: Rung, b: Rung, tried: seq<Attempt>, trust: Trust)
    ensures FirstOpen([a, b], tried, trust)
         == if StillOpen(a, tried, trust) then Some(a) else if StillOpen(b, tried, trust) then Some(b) else None
  {
    assert [a, b][1..] == [b];
    FirstOfOne(b, tried, trust);
  }

  lemma OpenIs(q: Plan, s: Step)
    ensures StillOpen(Go(s), q.tried, q.trust) <==> !WasTried(q, s) && (s.target == Original ==> !OriginalUnreachable(q))
  {
  }

  lemma BypassesOpen(q: Plan, t: Target)
    ensures FirstOpen(Bypasses(q, t), q.tried, q.trust)
         == if t == Original && OriginalUnreachable(q) then None else Offer(NextBypass(q, t))
  {
    var r := Bypasses(q, t);
    FirstOfPair(r[0], r[1], q.tried, q.trust);
    OpenIs(q, r[0].step);
    OpenIs(q, r[1].step);
  }

  // ---- what holds in every run ----

  /** The plans that get one attempt at most. */
  predicate Single(p: Plan)
  {
    !p.hasHost || p.hasManual || p.inCooldown
  }

  /** Nothing but the last entry of the list was tried. */
  predicate OnlyLast(q: Plan)
  {
    var rs := Rungs(q, q.trust);
    |q.tried| <= 1 && (|q.tried| == 1 ==> Go(q.tried[0].step) == rs[|rs| - 1] && (|rs| == 2 ==> q.trust != Unknown))
  }

  lemma SingleNext(q: Plan)
    requires Single(q) && OnlyLast(q)
    ensures Offer(PlanNext(q)) == if GoesOn(q.tried) then FirstOpen(Rungs(q, q.trust), q.tried, q.trust) else None
  {
    var rs := Rungs(q, q.trust);
    if |rs| == 1 {
      FirstOfOne(rs[0], q.tried, q.trust);
      assert rs == [rs[0]];
    } else {
      FirstOfPair(rs[0], rs[1], q.tried, q.trust);
      assert rs == [rs[0], rs[1]];
    }
    OpenIs(q, rs[|rs| - 1].step);
  }

  lemma {:induction false} SingleRun(p: Plan, events: seq<Event>)
    requires IsRun(p, events) && Single(p)
    ensures OnlyLast(After(p, events))
  {
    if |events| > 0 {
      var shorter, e := events[..|events| - 1], events[|events| - 1];
      RunState(p, shorter);
      SingleRun(p, shorter);
      Applied(After(p, shorter), e);
      SingleStep(After(p, shorter), e);
    }
  }

  lemma SingleStep(q: Plan, e: Event)
    requires Single(q) && OnlyLast(q) && Enabled(q, e)
    ensures OnlyLast(Apply(q, e))
  {
    Applied(q, e);
  }

  /** The plan is past its decision, if it has one. */
  lemma LadderNext(q: Plan)
    requires !Single(q) && (q.hasCached ==> CachedLed(q))
    ensures Offer(PlanNext(q)) == if GoesOn(q.tried) then FirstOpen(Rungs(q, q.trust), q.tried, q.trust) else None
  {
    var rest := [Ask] + LastRungs(q, q.trust);
    var direct := if q.directBad then [] else [Go(Step(Original, Pass))];
    var listed := if q.listed then Bypasses(q, Original) else [];
    FirstOfTwo(CachedRungs(q, q.trust), listed + (direct + rest), q.tried, q.trust);
    FirstOfTwo(listed, direct + rest, q.tried, q.trust);
    FirstOfTwo(direct, rest, q.tried, q.trust);
    CachedOpen(q);
    BypassesOpen(q, Original);
    FirstOfOne(Go(Step(Original, Pass)), q.tried, q.trust);
    OpenIs(q, DIRECT);
    if WasTried(q, DIRECT) {
      ResultIsRecorded(q.tried, DIRECT);
    }
    RestOpen(q);
  }

  lemma CachedOpen(q: Plan)
    requires !Single(q) && (q.hasCached ==> CachedLed(q))
    ensures FirstOpen(CachedRungs(q, q.trust), q.tried, q.trust)
         == if !q.hasCached then None
            else if q.cached.target == Trusted && q.trust == Unknown then Some(Ask)
            else if !WasTried(q, Normalize(q, q.cached)) then Some(Go(Normalize(q, q.cached)))
            else None
  {
    if q.hasCached {
      var s := Normalize(q, q.cached);
      OpenIs(q, s);
      if |q.tried| > 0 {
        assert WasTried(q, q.tried[0].step);
      }
      if q.cached.target == Trusted {
        FirstOfPair(Ask, AtTrusted(q.trust, q.cached.strategy), q.tried, q.trust);
      } else {
        FirstOfOne(Go(s), q.tried, q.trust);
      }
    }
  }

  lemma RestOpen(q: Plan)
    ensures FirstOpen([Ask] + LastRungs(q, q.trust), q.tried, q.trust)
         == if q.trust == Unknown then Some(Ask)
            else if q.trust == Mismatch then
              if !WasTried(q, Step(Trusted, Pass)) then Some(Go(Step(Trusted, Pass))) else Offer(NextBypass(q, Trusted))
            else if OriginalUnreachable(q) then None
            else Offer(NextBypass(q, Original))
  {
    FirstOfTwo([Ask], LastRungs(q, q.trust), q.tried, q.trust);
    FirstOfOne(Ask, q.tried, q.trust);
    FirstOfTwo([Go(Step(Trusted, Pass))], Bypasses(q, Trusted), q.tried, q.trust);
    FirstOfOne(Go(Step(Trusted, Pass)), q.tried, q.trust);
    OpenIs(q, Step(Trusted, Pass));
    BypassesOpen(q, Trusted);
    BypassesOpen(q, Original);
  }

  // ---- the order of every run ----

  /** What the lookup said, if there was one. */
  function OpinionOf(events: seq<Event>): (t: Trust)
  {
    if |events| == 0 then Unknown
    else if events[|events| - 1].Looked? then events[|events| - 1].trust
    else OpinionOf(events[..|events| - 1])
  }

  lemma {:induction false} OpinionIsTrust(p: Plan, events: seq<Event>)
    requires IsRun(p, events)
    ensures After(p, events).trust == OpinionOf(events)
  {
    if |events| > 0 {
      OpinionIsTrust(p, events[..|events| - 1]);
      Applied(After(p, events[..|events| - 1]), events[|events| - 1]);
    }
  }

  /** A run goes on with an event if and only if it may go on and the event does the first thing on the
      plan's list that is still open. */
  lemma NextRung(p: Plan, events: seq<Event>, e: Event)
    requires IsRun(p, events)
    ensures var tried, trust := AttemptsOf(events), OpinionOf(events);
      var next := FirstOpen(Rungs(p, trust), tried, trust);
      IsRun(p, events + [e]) <==> GoesOn(tried) && next.Some? && Does(e, next.value)
  {
    var q := After(p, events);
    RunState(p, events);
    OpinionIsTrust(p, events);
    assert (events + [e])[..|events|] == events;
    SameRungs(p, q);
    if Single(p) {
      SingleRun(p, events);
      SingleNext(q);
    } else {
      if p.hasCached {
        CachedFirst(p, events);
      }
      LadderNext(q);
    }
  }

  lemma SameRungs(p: Plan, q: Plan)
    requires q == p.(trust := q.trust, tried := q.tried)
    ensures forall t: Trust :: Rungs(q, t) == Rungs(p, t)
  {
  }

  // ---- what comes first ----

  lemma FirstEvent(p: Plan, events: seq<Event>)
    requires IsRun(p, events) && |events| > 0
    ensures Enabled(p, events[0]) && p.tried == [] && p.trust == Unknown
  {
    Prefix(p, events, 0);
    assert events[..0] == [];
  }

  lemma SecondEvent(p: Plan, events: seq<Event>)
    requires IsRun(p, events) && |events| > 1
    ensures Enabled(p, events[0]) && Enabled(Apply(p, events[0]), events[1])
  {
    FirstEvent(p, events);
    Prefix(p, events, 1);
    assert events[..1][..0] == [] && events[..1][0] == events[0];
    assert After(p, events[..1]) == Apply(After(p, []), events[0]);
  }

  /** A listed host without rule, decision or cooldown: both bypasses at the application's own address, the
      preferred one first, before anything else, unless that address is unreachable. */
  lemma ListedFirst(p: Plan, events: seq<Event>)
    requires IsRun(p, events) && p.hasHost && p.listed && !p.hasManual && !p.hasCached && !p.inCooldown
    ensures var (first, second) := if p.preferred == TlsRecSplit then (TlsRecSplit, TlsRec) else (TlsRec, TlsRecSplit);
      && (|events| > 0 ==> events[0].Tried? && events[0].step == Step(Original, first))
      && (|events| > 1 && events[0].result != ConnectFail ==> events[1].Tried? && events[1].step == Step(Original, second))
  {
    if |events| > 0 {
      FirstEvent(p, events);
      ListedNext(p);
    }
    if |events| > 1 && events[0].result != ConnectFail {
      SecondEvent(p, events);
      Applied(p, events[0]);
      ListedSecond(Apply(p, events[0]), events[0].result, events[1]);
    }
  }

  lemma ListedNext(p: Plan)
    requires p.hasHost && p.listed && !p.hasManual && !p.hasCached && !p.inCooldown && p.tried == []
    ensures PlanNext(p) == Try(Step(Original, if p.preferred == TlsRecSplit then TlsRecSplit else TlsRec))
  {
  }

  lemma ListedSecond(q: Plan, r: Result, e: Event)
    requires q.hasHost && q.listed && !q.hasManual && !q.hasCached && !q.inCooldown && r != ConnectFail && Enabled(q, e)
    requires q.tried == [Attempt(Step(Original, if q.preferred == TlsRecSplit then TlsRecSplit else TlsRec), r)]
    ensures e.Tried? && e.step == Step(Original, if q.preferred == TlsRecSplit then TlsRec else TlsRecSplit)
  {
    assert WasTried(q, q.tried[0].step);
    assert !OriginalUnreachable(q);
  }

  /** A host with a rule gets one lookup and one attempt, with the rule's strategy as it is on a stream, at the
      trusted address exactly when the resolver disagrees; a rule to pass gets a plain attempt alone. */
  lemma ManualRun(p: Plan, events: seq<Event>)
    requires IsRun(p, events) && p.hasHost && p.hasManual && !p.inCooldown
    ensures p.manual == Pass ==> |events| <= 1 && (|events| == 1 ==> events[0].Tried? && events[0].step == Step(Original, Pass))
    ensures p.manual != Pass ==> |events| <= 2 && (|events| > 0 ==> events[0].Looked?)
    ensures p.manual != Pass && |events| == 2 ==>
      events[1].Tried?
      && events[1].step == Step(if events[0].trust == Mismatch then Trusted else Original,
                                if p.manual == TlsRecSplit then TlsRecSplit else TlsRec)
  {
    RunState(p, events);
    SingleRun(p, events);
    if |events| > 0 {
      FirstEvent(p, events);
    }
    if |events| > 1 {
      SecondEvent(p, events);
    }
  }

  /** A host in cooldown gets one attempt at its own address: the preferred bypass if it is listed, else a
      plain one, as do connections without a host and hosts with a rule to pass. */
  lemma CooldownRun(p: Plan, events: seq<Event>)
    requires IsRun(p, events) && (!p.hasHost || p.inCooldown || (p.hasManual && p.manual == Pass))
    ensures |events| <= 1
    ensures |events| == 1 ==>
      events[0].Tried?
      && events[0].step == Step(Original,
           if !p.hasHost || !p.listed || (p.hasManual && p.manual == Pass) then Pass
           else if p.preferred == TlsRecSplit then TlsRecSplit else TlsRec)
  {
    RunState(p, events);
    SingleRun(p, events);
    if |events| > 0 {
      FirstEvent(p, events);
    }
  }

  /** A host with a decision: that step comes first, as it is on a stream, at the trusted address only after
      a lookup and where the resolver disagrees. */
  lemma DecisionFirst(p: Plan, events: seq<Event>)
    requires IsRun(p, events) && p.hasHost && !p.hasManual && !p.inCooldown && p.hasCached
    ensures p.cached.target == Original && |events| > 0 ==>
      events[0].Tried? && events[0].step == Step(Original, OnStream(p.cached.strategy))
    ensures p.cached.target == Trusted && |events| > 0 ==> events[0].Looked?
    ensures p.cached.target == Trusted && |events| > 1 ==>
      events[1].Tried? && events[1].step == Step(if events[0].trust == Mismatch then Trusted else Original, OnStream(p.cached.strategy))
  {
    if |events| > 0 {
      FirstEvent(p, events);
    }
    if |events| > 1 {
      SecondEvent(p, events);
    }
  }
}
