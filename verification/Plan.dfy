/** src/transparent/policy.c: the attempt planner. */
module Plan {
  import opened Strategies

  const MAX_ATTEMPTS: nat := 4

  datatype Target = Original | Trusted

  datatype Step = Step(target: Target, strategy: Strategy)

  datatype Result = Ok | Alert | ConnectFail | Reset | Closed | Timeout | NotTls | Skipped

  datatype Trust = Unknown | NoAnswer | Match | Mismatch

  datatype Attempt = Attempt(step: Step, result: Result)

  /** One connection's plan: what was known when it was filled, and what has happened since. */
  datatype Plan = Plan(hasHost: bool, listed: bool, preferred: Strategy, hasManual: bool, manual: Strategy,
                       hasCached: bool, cached: Step, inCooldown: bool, directBad: bool,
                       trust: Trust, tried: seq<Attempt>)

  datatype Next = Try(step: Step) | NeedDns | Done

  const DIRECT: Step := Step(Original, Pass)

  function StreamStrategy(s: Strategy): Strategy
  {
    if s == Pass || s == TlsRecSplit then s else TlsRec
  }

  function FirstBypass(p: Plan): Strategy
  {
    if p.preferred == TlsRecSplit then TlsRecSplit else TlsRec
  }

  function SecondBypass(p: Plan): Strategy
  {
    if FirstBypass(p) == TlsRec then TlsRecSplit else TlsRec
  }

  function Normalize(p: Plan, s: Step): Step
  {
    Step(if s.target == Trusted && p.trust != Mismatch then Original else s.target, StreamStrategy(s.strategy))
  }

  predicate WasTried(p: Plan, s: Step)
  {
    exists i :: 0 <= i < |p.tried| && p.tried[i].step == s
  }

  /** An attempt to the application's own address failed to even connect. */
  predicate OriginalUnreachable(p: Plan)
  {
    exists i :: 0 <= i < |p.tried| && p.tried[i].step.target == Original && p.tried[i].result == ConnectFail
  }

  /** The first recorded result of a step. */
  function ResultOf(tried: seq<Attempt>, s: Step): (r: Result)
  {
    if |tried| == 0 then Skipped
    else if tried[0].step == s then tried[0].result
    else ResultOf(tried[1..], s)
  }

  function NextBypass(p: Plan, target: Target): (r: Next)
  {
    if !WasTried(p, Step(target, FirstBypass(p))) then Try(Step(target, FirstBypass(p)))
    else if !WasTried(p, Step(target, SecondBypass(p))) then Try(Step(target, SecondBypass(p)))
    else Done
  }

  predicate Answered(r: Result)
  {
    r == Ok || r == Alert
  }

  predicate Finished(p: Plan)
  {
    |p.tried| >= MAX_ATTEMPTS || (|p.tried| > 0 && Answered(p.tried[|p.tried| - 1].result))
  }

  /** tp_plan_next */
  function PlanNext(p: Plan): (r: Next)
  {
    if Finished(p) then Done
    else if !p.hasHost || (p.hasManual && StreamStrategy(p.manual) == Pass) then
      if |p.tried| == 0 then Try(DIRECT) else Done
    else if p.inCooldown then
      if |p.tried| > 0 then Done
      else if p.listed then Try(Step(Original, FirstBypass(p)))
      else Try(DIRECT)
    else if p.hasManual then
      if |p.tried| > 0 then Done
      else if p.trust == Unknown then NeedDns
      else Try(Normalize(p, Step(Trusted, p.manual)))
    else if p.hasCached && p.cached.target == Trusted && p.trust == Unknown then NeedDns
    else if p.hasCached && !WasTried(p, Normalize(p, p.cached)) then Try(Normalize(p, p.cached))
    else if p.listed && !OriginalUnreachable(p) && NextBypass(p, Original).Try? then NextBypass(p, Original)
    else Ladder(p)
  }

  /** Direct to the original address, then the trusted resolver's opinion, then the rest. */
  function Ladder(p: Plan): (r: Next)
  {
    if !p.directBad && !OriginalUnreachable(p) && !WasTried(p, DIRECT) then Try(DIRECT)
    else if p.trust == Unknown then NeedDns
    else if p.trust == Mismatch then
      if !WasTried(p, Step(Trusted, Pass)) then Try(Step(Trusted, Pass)) else NextBypass(p, Trusted)
    else
      var directResult :=
        if p.directBad then Skipped
        else if OriginalUnreachable(p) && !WasTried(p, DIRECT) then ConnectFail
        else ResultOf(p.tried, DIRECT);
      if directResult == ConnectFail || OriginalUnreachable(p) then Done else NextBypass(p, Original)
  }

  /** tp_plan_record */
  function Record(p: Plan, s: Step, r: Result): (q: Plan)
  {
    if |p.tried| >= MAX_ATTEMPTS then p else p.(tried := p.tried + [Attempt(s, r)])
  }

  datatype Source = NoSource | Manual | Cached | FromLadder | Cooldown

  /** tp_plan_source */
  function PlanSource(p: Plan): (r: Source)
  {
    if !p.hasHost then NoSource
    else if p.hasManual then Manual
    else if p.inCooldown then Cooldown
    else if p.hasCached && |p.tried| <= 1 then Cached
    else FromLadder
  }

  // ---- runs ----

  /** One turn of the connection's loop: an attempt and how it ended, or a lookup and what the
      trusted resolver's answer came to. */
  datatype Event = Tried(step: Step, result: Result) | Looked(trust: Trust)

  /** The plan asks for the event; the environment decides its result. */
  predicate Enabled(p: Plan, e: Event)
  {
    match e
    case Tried(s, r) => PlanNext(p) == Try(s) && r != Skipped
    case Looked(t) => PlanNext(p) == NeedDns && t != Unknown
  }

  function Apply(p: Plan, e: Event): (q: Plan)
  {
    match e
    case Tried(s, r) => Record(p, s, r)
    case Looked(t) => p.(trust := t)
  }

  function After(p: Plan, events: seq<Event>): (q: Plan)
  {
    if |events| == 0 then p else Apply(After(p, events[..|events| - 1]), events[|events| - 1])
  }

  /** A run from a freshly filled plan. */
  predicate IsRun(p: Plan, events: seq<Event>)
  {
    if |events| == 0 then p.tried == [] && p.trust == Unknown
    else IsRun(p, events[..|events| - 1]) && Enabled(After(p, events[..|events| - 1]), events[|events| - 1])
  }

  // ---- what one call promises ----

  /** Every step offered is new, one of the three stream strategies, and goes to the trusted address
      only on a mismatch; a lookup is only asked for while the resolver's opinion is unknown. */
  lemma Offers(p: Plan)
    ensures PlanNext(p).Try? ==>
      var s := PlanNext(p).step;
      && !Finished(p) && !WasTried(p, s)
      && s.strategy in {Pass, TlsRec, TlsRecSplit}
      && (s.target == Trusted ==> p.trust == Mismatch)
    ensures PlanNext(p).NeedDns? ==> p.trust == Unknown
  {
  }

  // ---- what a run remembers ----

  function AttemptsOf(events: seq<Event>): (r: seq<Attempt>)
  {
    if |events| == 0 then []
    else
      var e := events[|events| - 1];
      AttemptsOf(events[..|events| - 1]) + if e.Tried? then [Attempt(e.step, e.result)] else []
  }

  function LookupsOf(events: seq<Event>): (r: nat)
  {
    if |events| == 0 then 0 else LookupsOf(events[..|events| - 1]) + if events[|events| - 1].Looked? then 1 else 0
  }

  /** What stays fixed, and how the plan's memory follows the events. */
  lemma {:induction false} RunState(p: Plan, events: seq<Event>)
    requires IsRun(p, events)
    ensures var q := After(p, events);
      && q == p.(trust := q.trust, tried := AttemptsOf(events))
      && |q.tried| <= MAX_ATTEMPTS
      && LookupsOf(events) == (if q.trust == Unknown then 0 else 1)
      && |events| == |q.tried| + LookupsOf(events)
      && (forall i :: 0 <= i < |q.tried| ==> q.tried[i].result != Skipped)
  {
    RunMemory(p, events);
    RunCounts(p, events);
  }

  lemma {:induction false} RunMemory(p: Plan, events: seq<Event>)
    requires IsRun(p, events)
    ensures var q := After(p, events);
      && q == p.(trust := q.trust, tried := AttemptsOf(events))
      && |q.tried| <= MAX_ATTEMPTS
      && (forall i :: 0 <= i < |q.tried| ==> q.tried[i].result != Skipped)
  {
    if |events| > 0 {
      RunMemory(p, events[..|events| - 1]);
      Applied(After(p, events[..|events| - 1]), events[|events| - 1]);
    }
  }

  lemma {:induction false} RunCounts(p: Plan, events: seq<Event>)
    requires IsRun(p, events)
    ensures LookupsOf(events) == (if After(p, events).trust == Unknown then 0 else 1)
    ensures |events| == |After(p, events).tried| + LookupsOf(events)
  {
    if |events| > 0 {
      RunCounts(p, events[..|events| - 1]);
      Applied(After(p, events[..|events| - 1]), events[|events| - 1]);
    }
  }

  /** One enabled event: the plan remembers it, and nothing else changes. */
  lemma Applied(q: Plan, e: Event)
    requires Enabled(q, e)
    ensures Apply(q, e) == if e.Tried? then q.(tried := q.tried + [Attempt(e.step, e.result)]) else q.(trust := e.trust)
    ensures e.Tried? ==> |q.tried| < MAX_ATTEMPTS && e.result != Skipped && (e.step.target == Trusted ==> q.trust == Mismatch)
    ensures e.Looked? ==> q.trust == Unknown && e.trust != Unknown
  {
    Offers(q);
  }

  lemma {:induction false} Prefix(p: Plan, events: seq<Event>, i: nat)
    requires IsRun(p, events) && i < |events|
    ensures IsRun(p, events[..i]) && Enabled(After(p, events[..i]), events[i])
  {
    if i < |events| - 1 {
      var shorter := events[..|events| - 1];
      assert shorter[..i] == events[..i];
      Prefix(p, shorter, i);
    }
  }

  lemma {:induction false} Remembers(p: Plan, events: seq<Event>, i: nat)
    requires IsRun(p, events) && i < |events|
    ensures match events[i]
      case Tried(s, r) => Attempt(s, r) in After(p, events).tried
      case Looked(t) => After(p, events).trust == t
  {
    var shorter := events[..|events| - 1];
    Applied(After(p, shorter), events[|events| - 1]);
    if i < |events| - 1 {
      assert shorter[i] == events[i];
      Remembers(p, shorter, i);
      LookedOnce(p, shorter, i);
    }
  }

  /** After a lookup the resolver's opinion is known. */
  lemma LookedOnce(p: Plan, events: seq<Event>, i: nat)
    requires IsRun(p, events) && i < |events|
    ensures events[i].Looked? ==> After(p, events).trust != Unknown
  {
    RunCounts(p, events);
    LooksCount(events, i);
  }

  lemma {:induction false} LooksCount(events: seq<Event>, i: nat)
    requires i < |events|
    ensures events[i].Looked? ==> LookupsOf(events) > 0
  {
    if i < |events| - 1 {
      assert events[..|events| - 1][i] == events[i];
      LooksCount(events[..|events| - 1], i);
    }
  }

  /** In the ladder, a cached decision is the first thing tried. */
  predicate CachedLed(q: Plan)
  {
    |q.tried| > 0 ==> q.tried[0].step == Normalize(q, q.cached) && (q.cached.target == Trusted ==> q.trust != Unknown)
  }

  lemma CachedStep(q: Plan, e: Event)
    requires q.hasHost && !q.hasManual && !q.inCooldown && q.hasCached && CachedLed(q) && Enabled(q, e)
    ensures CachedLed(Apply(q, e))
  {
    Offers(q);
    if |q.tried| == 0 {
      assert !WasTried(q, Normalize(q, q.cached));
    }
  }

  lemma {:induction false} CachedFirst(p: Plan, events: seq<Event>)
    requires IsRun(p, events)
    requires p.hasHost && !p.hasManual && !p.inCooldown && p.hasCached
    ensures CachedLed(After(p, events))
  {
    if |events| > 0 {
      var shorter := events[..|events| - 1];
      RunState(p, shorter);
      CachedFirst(p, shorter);
      CachedStep(After(p, shorter), events[|events| - 1]);
    }
  }

  /** No attempt is offered to an address that was already unreachable. */
  lemma NoneToUnreachable(p: Plan, events: seq<Event>)
    requires IsRun(p, events)
    ensures var q := After(p, events);
      PlanNext(q).Try? && PlanNext(q).step.target == Original ==> !OriginalUnreachable(q)
  {
    RunState(p, events);
    var q := After(p, events);
    if p.hasHost && !p.hasManual && !p.inCooldown && p.hasCached {
      CachedFirst(p, events);
      if |q.tried| > 0 {
        assert WasTried(q, q.tried[0].step);
      }
    }
  }

  // ---- main results, for every run ----

  /** A run has at most four attempts and one lookup. */
  lemma RunIsBounded(p: Plan, events: seq<Event>)
    requires IsRun(p, events)
    ensures |AttemptsOf(events)| <= MAX_ATTEMPTS && LookupsOf(events) <= 1
    ensures |events| == |AttemptsOf(events)| + LookupsOf(events)
  {
    RunState(p, events);
  }

  /** No step is tried twice. */
  lemma NoStepTwice(p: Plan, events: seq<Event>, i: nat, j: nat)
    requires IsRun(p, events) && i < j < |events| && events[i].Tried? && events[j].Tried?
    ensures events[i].step != events[j].step
  {
    Prefix(p, events, j);
    Remembers(p, events[..j], i);
    var q := After(p, events[..j]);
    Offers(q);
    var k :| 0 <= k < |q.tried| && q.tried[k] == Attempt(events[i].step, events[i].result);
    assert WasTried(q, events[i].step);
  }

  /** Only stream strategies are tried, and the trusted address only after a lookup that said
      mismatch. */
  lemma TrustedNeedsMismatch(p: Plan, events: seq<Event>, i: nat)
    requires IsRun(p, events) && i < |events| && events[i].Tried?
    ensures events[i].step.strategy in {Pass, TlsRec, TlsRecSplit}
    ensures events[i].step.target == Trusted ==> exists j :: 0 <= j < i && events[j] == Looked(Mismatch)
  {
    Prefix(p, events, i);
    Offers(After(p, events[..i]));
    if events[i].step.target == Trusted {
      var j := TrustHasSource(p, events[..i]);
      assert events[..i][j] == events[j];
    }
  }

  lemma {:induction false} TrustHasSource(p: Plan, events: seq<Event>) returns (j: nat)
    requires IsRun(p, events) && After(p, events).trust != Unknown
    ensures j < |events| && events[j] == Looked(After(p, events).trust)
  {
    if events[|events| - 1].Looked? {
      j := |events| - 1;
    } else {
      j := TrustHasSource(p, events[..|events| - 1]);
    }
  }

  /** After a failed TCP connect to the original address, no later attempt goes there. */
  lemma UnreachableStaysAlone(p: Plan, events: seq<Event>, i: nat, j: nat)
    requires IsRun(p, events) && i < j < |events| && events[j].Tried?
    requires events[i].Tried? && events[i].step.target == Original && events[i].result == ConnectFail
    ensures events[j].step.target == Trusted
  {
    Prefix(p, events, j);
    Remembers(p, events[..j], i);
    var q := After(p, events[..j]);
    var k :| 0 <= k < |q.tried| && q.tried[k] == Attempt(events[i].step, events[i].result);
    assert OriginalUnreachable(q);
    NoneToUnreachable(p, events[..j]);
  }

  /** An answered attempt ends the run. */
  lemma AnswerEndsRun(p: Plan, events: seq<Event>, i: nat)
    requires IsRun(p, events) && i < |events| && events[i].Tried? && Answered(events[i].result)
    ensures i == |events| - 1
  {
    if i + 1 < |events| {
      Prefix(p, events, i + 1);
      Prefix(p, events, i);
      assert false;
    }
  }

  /** A host that is not listed, with no rule, decision, cooldown or mark, gets neither a bypass nor
      a lookup before a direct attempt was made and failed. */
  lemma DirectFirst(p: Plan, events: seq<Event>)
    requires IsRun(p, events) && |events| > 0
    requires p.hasHost && !p.listed && !p.hasManual && !p.hasCached && !p.inCooldown && !p.directBad
    ensures events[0].Tried? && events[0].step == DIRECT
    ensures |events| > 1 ==> !Answered(events[0].result)
  {
    Prefix(p, events, 0);
    assert events[..0] == [];
    if |events| > 1 && Answered(events[0].result) {
      AnswerEndsRun(p, events, 0);
    }
  }

  /** A run for a known host, without a rule or cooldown, that gives up before the attempt limit has
      exhausted what could help: every trusted step when the addresses disagree, and otherwise both
      bypasses at the original address unless it could not even be reached. */
  lemma GivesUpOnlyWhenExhausted(p: Plan, events: seq<Event>)
    requires IsRun(p, events) && PlanNext(After(p, events)) == Done
    requires p.hasHost && !p.hasManual && !p.inCooldown
    requires |AttemptsOf(events)| < MAX_ATTEMPTS
    requires |AttemptsOf(events)| > 0 ==> !Answered(AttemptsOf(events)[|AttemptsOf(events)| - 1].result)
    ensures var q := After(p, events);
      && q.trust != Unknown
      && (q.trust == Mismatch ==> forall s: Strategy :: s in {Pass, TlsRec, TlsRecSplit} ==> WasTried(q, Step(Trusted, s)))
      && (q.trust != Mismatch && !OriginalUnreachable(q) ==>
            WasTried(q, Step(Original, TlsRec)) && WasTried(q, Step(Original, TlsRecSplit)))
      && (WasTried(q, DIRECT) || p.directBad || OriginalUnreachable(q))
  {
    RunState(p, events);
    var q := After(p, events);
    if WasTried(q, DIRECT) {
      ResultIsRecorded(q.tried, DIRECT);
    }
  }

  lemma {:induction false} ResultIsRecorded(tried: seq<Attempt>, s: Step)
    requires exists i :: 0 <= i < |tried| && tried[i].step == s
    ensures exists i :: 0 <= i < |tried| && tried[i].step == s && tried[i].result == ResultOf(tried, s)
  {
    if tried[0].step != s {
      var i :| 0 <= i < |tried| && tried[i].step == s;
      assert tried[1..][i - 1].step == s;
      ResultIsRecorded(tried[1..], s);
      var j :| 0 <= j < |tried[1..]| && tried[1..][j].step == s && tried[1..][j].result == ResultOf(tried[1..], s);
      assert tried[j + 1].step == s;
    }
  }
}
