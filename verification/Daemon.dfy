/** The transparent daemon's shared state under every interleaving of its threads: the connection
    threads (src/transparent/conn.c), the one verifier thread (src/transparent/verify.c) and the
    network watcher (src/transparent/transparent.c). A step is the code between one lock and its
    unlock, or thread-local work between two such sections. */
module Daemon {
  import opened Bytes
  import opened Strategies
  import opened Plan
  import opened Decisions
  import PlanOrder

  const QUEUE_MAX: nat := 16

  datatype Kind = Confirm | CheckDirect

  /** The verifier's handshake: certificate valid for the host, certificate not valid for it, or no
      completed handshake. */
  datatype Probe = Verified | Rejected | NoHandshake

  datatype Job = Job(kind: Kind, key: Key, step: Step)

  /** A connection thread: planning and attempting, committed to an answered attempt, or past it. */
  datatype Thread =
    | Attempting(key: Key, plan: Plan)
    | Committed(key: Key, plan: Plan, step: Step)

  datatype Verifier = Idle | Holding(job: Job) | Probed(job: Job, result: Probe)

  /** What happened, for stating where a decision came from. */
  datatype Fact =
    | Filled(conn: nat, key: Key)
    | Carried(conn: nat, key: Key, step: Step)
    | Checked(job: Job, result: Probe)
    | Learned(key: Key, step: Step, at: int)
    | Marked(key: Key)

  /** An event together with the network fingerprint that was current when it happened. */
  datatype Entry = Entry(net: nat, fact: Fact)

  /** `marks` are the direct-bad marks, `conns` the live connection threads; `log` records history
      and influences nothing. */
  datatype State = State(fp: nat, preferred: Strategy, table: Table, marks: set<Key>,
                         queue: seq<Job>, conns: map<nat, Thread>, verifier: Verifier, log: seq<Entry>)

  function Logged(s: State, e: Fact): State
  {
    s.(log := s.log + [Entry(s.fp, e)])
  }

  datatype Label =
    | NetworkChange(fp: nat)
    | FillPlan(conn: nat, host: string, family: nat, now: int, plan: Plan)
    | Advance(conn: nat, event: Event)
    | Commit(conn: nat, now: int)
    | GiveUp(conn: nat)
    | Submit(conn: nat, kind: Kind)
    | Leave(conn: nat)
    | Take
    | Probe(result: Probe)
    | ApplyResult(now: int)

  // ---- the steps ----

  /** check_network: on a change the marks go (and the last working bypass); decisions stay. */
  ghost predicate DoNetworkChange(s: State, fp: nat, s': State)
  {
    s' == if fp == s.fp then s else s.(fp := fp, preferred := Pass, marks := {})
  }

  /** fill_plan: the fingerprint, the preferred bypass, the fresh decision and the mark are read in
      one locked section. Rule, list and cooldown membership are not constrained. */
  ghost predicate DoFillPlan(s: State, conn: nat, host: string, family: nat, now: int, plan: Plan, s': State)
  {
    var key := Key(Lower(host), s.fp, family);
    && conn !in s.conns
    && plan.hasHost && plan.tried == [] && plan.trust == Unknown && plan.preferred == s.preferred
    && plan.hasCached == LookupIn(s.table, key, now).Some?
    && (plan.hasCached ==> plan.cached == LookupIn(s.table, key, now).value)
    && (plan.directBad ==> key in s.marks && s.fp != UNKNOWN_NETWORK)
    && s' == Logged(s, Filled(conn, key)).(conns := s.conns[conn := Attempting(key, plan)])
  }

  /** An attempt or a lookup, outside any lock. */
  ghost predicate DoAdvance(s: State, conn: nat, e: Event, s': State)
  {
    && conn in s.conns && s.conns[conn].Attempting?
    && Enabled(s.conns[conn].plan, e)
    && s' == s.(conns := s.conns[conn := s.conns[conn].(plan := Apply(s.conns[conn].plan, e))])
  }

  function LastStep(p: Plan): Option<Step>
  {
    if |p.tried| > 0 && Answered(p.tried[|p.tried| - 1].result) then Some(p.tried[|p.tried| - 1].step) else None
  }

  /** commit's locked section: a direct success forgets the decision (unless a rule chose it), a
      bypass becomes the preferred one. */
  ghost predicate DoCommit(s: State, conn: nat, now: int, s': State)
  {
    && conn in s.conns && s.conns[conn].Attempting? && LastStep(s.conns[conn].plan).Some?
    && var t, step := s.conns[conn], LastStep(s.conns[conn].plan).value;
       var s1 := Logged(s, Carried(conn, t.key, step)).(conns := s.conns[conn := Committed(t.key, t.plan, step)]);
       if step == DIRECT then
         && s' == s1.(table := s'.table)
         && if PlanSource(t.plan) != Manual && t.key.fp != UNKNOWN_NETWORK
            then Succeeded(s.table, t.key, now, step, s'.table)
            else s'.table == s.table
       else s' == s1.(preferred := step.strategy)
  }

  /** run_plan's locked section after every attempt failed. */
  ghost predicate DoGiveUp(s: State, conn: nat, s': State)
  {
    && conn in s.conns && s.conns[conn].Attempting?
    && var t := s.conns[conn];
       && PlanNext(t.plan) == Done && LastStep(t.plan).None?
       && s' == s.(conns := s.conns - {conn}, table := if t.plan.hasManual then s.table else s.table - {t.key})
  }

  /** tpd_verify_submit: the bounded queue; a full queue or a recent duplicate drops the job. */
  ghost predicate DoSubmit(s: State, conn: nat, kind: Kind, s': State)
  {
    && conn in s.conns && s.conns[conn].Committed?
    && var t := s.conns[conn];
       && (kind == Confirm ==> t.step != DIRECT && PlanSource(t.plan) != Manual && PlanSource(t.plan) != Cached)
       && (kind == CheckDirect ==> t.step == DIRECT && PlanSource(t.plan) != Manual)
       && (s' == s || (|s.queue| < QUEUE_MAX && s' == s.(queue := s.queue + [Job(kind, t.key, t.step)])))
  }

  ghost predicate DoLeave(s: State, conn: nat, s': State)
  {
    conn in s.conns && s.conns[conn].Committed? && s' == s.(conns := s.conns - {conn})
  }

  ghost predicate DoTake(s: State, s': State)
  {
    s.verifier == Idle && |s.queue| > 0 && s' == s.(verifier := Holding(s.queue[0]), queue := s.queue[1..])
  }

  ghost predicate DoProbe(s: State, result: Probe, s': State)
  {
    s.verifier.Holding? && s' == Logged(s, Checked(s.verifier.job, result)).(verifier := Probed(s.verifier.job, result))
  }

  /** apply_result: acts only on a result whose job's fingerprint is still the current one. */
  ghost predicate DoApply(s: State, now: int, s': State)
  {
    && s.verifier.Probed?
    && var job, r := s.verifier.job, s.verifier.result;
       var idle := s.(verifier := Idle);
       if s.fp == job.key.fp && job.kind == CheckDirect && r == Rejected then
         if job.key.fp == UNKNOWN_NETWORK then s' == idle
         else s' == Logged(idle, Marked(job.key)).(marks := s'.marks) && job.key in s'.marks && s'.marks <= s.marks + {job.key}
       else if s.fp == job.key.fp && job.kind == Confirm && r == Verified then
         if job.key.fp == UNKNOWN_NETWORK then s' == idle
         else s' == Logged(idle, Learned(job.key, job.step, now)).(table := s'.table)
              && Succeeded(s.table, job.key, now, job.step, s'.table)
       else s' == idle
  }

  ghost predicate Next(s: State, l: Label, s': State)
  {
    match l
    case NetworkChange(fp) => DoNetworkChange(s, fp, s')
    case FillPlan(conn, host, family, now, plan) => DoFillPlan(s, conn, host, family, now, plan, s')
    case Advance(conn, e) => DoAdvance(s, conn, e, s')
    case Commit(conn, now) => DoCommit(s, conn, now, s')
    case GiveUp(conn) => DoGiveUp(s, conn, s')
    case Submit(conn, kind) => DoSubmit(s, conn, kind, s')
    case Leave(conn) => DoLeave(s, conn, s')
    case Take => DoTake(s, s')
    case Probe(result) => DoProbe(s, result, s')
    case ApplyResult(now) => DoApply(s, now, s')
  }

  /** Start-up: decisions may have been loaded from the file; nothing else is there yet. */
  ghost predicate Init(s: State)
  {
    s.marks == {} && s.queue == [] && s.conns == map[] && s.verifier == Idle && s.log == []
    && forall k :: k in s.table ==> s.table[k].step != DIRECT && k.fp != UNKNOWN_NETWORK
  }

  ghost predicate IsTrace(ss: seq<State>, ls: seq<Label>)
  {
    |ss| == |ls| + 1 && Init(ss[0]) && forall i :: 0 <= i < |ls| ==> Next(ss[i], ls[i], ss[i + 1])
  }

  // ---- where things come from ----

  ghost predicate At(log: seq<Entry>, i: nat, net: nat, e: Fact)
  {
    i < |log| && log[i] == Entry(net, e)
  }

  /** Some connection whose plan was filled under the key's fingerprint, then current, carried live
      traffic over the step, before position n of the log. */
  ghost predicate CarriedBy(log: seq<Entry>, n: nat, k: Key, step: Step)
  {
    exists a: nat, b: nat, c: nat, net: nat :: a < b < n && At(log, a, k.fp, Filled(c, k)) && At(log, b, net, Carried(c, k, step))
  }

  /** The step carried a live connection, then passed a certificate-verified handshake, and was then
      recorded while the key's fingerprint was the current one. */
  ghost predicate Earned(log: seq<Entry>, k: Key, d: Stored)
  {
    && d.step != DIRECT
    && exists e: nat, f: nat, net: nat ::
         e < f && CarriedBy(log, e, k, d.step)
         && At(log, e, net, Checked(Job(Confirm, k, d.step), Verified))
         && At(log, f, k.fp, Learned(k, d.step, d.at))
  }

  /** A certificate was rejected for the direct address, and the mark was made while the key's
      fingerprint was the current one. */
  ghost predicate Deserved(log: seq<Entry>, k: Key)
  {
    exists e: nat, f: nat, net: nat ::
      e < f && At(log, e, net, Checked(Job(CheckDirect, k, DIRECT), Rejected)) && At(log, f, k.fp, Marked(k))
  }

  // ---- the invariant ----

  ghost predicate JobOk(log: seq<Entry>, n: nat, j: Job)
  {
    match j.kind
    case Confirm => j.step != DIRECT && CarriedBy(log, n, j.key, j.step)
    case CheckDirect => j.step == DIRECT
  }

  ghost predicate ThreadOk(log: seq<Entry>, c: nat, t: Thread)
  {
    match t
    case Attempting(k, _) => exists a: nat :: At(log, a, k.fp, Filled(c, k))
    case Committed(k, _, step) => CarriedBy(log, |log|, k, step)
  }

  ghost predicate VerifierOk(log: seq<Entry>, v: Verifier)
  {
    match v
    case Idle => true
    case Holding(j) => JobOk(log, |log|, j)
    case Probed(j, r) => exists e: nat, net: nat :: At(log, e, net, Checked(j, r)) && JobOk(log, e, j)
  }

  /** Each decision is as loaded at start-up, or earned. */
  ghost predicate TableOk(loaded: Table, log: seq<Entry>, m: Table)
  {
    forall k :: k in m ==> (k in loaded && m[k] == loaded[k]) || Earned(log, k, m[k])
  }

  ghost predicate MarksOk(s: State)
  {
    forall k :: k in s.marks ==> k.fp == s.fp && k.fp != UNKNOWN_NETWORK && Deserved(s.log, k)
  }

  ghost predicate Inv(loaded: Table, s: State)
  {
    && (forall c :: c in s.conns ==> ThreadOk(s.log, c, s.conns[c]))
    && (forall j :: j in s.queue ==> JobOk(s.log, |s.log|, j)) && |s.queue| <= QUEUE_MAX
    && VerifierOk(s.log, s.verifier)
    && TableOk(loaded, s.log, s.table)
    && MarksOk(s)
  }

  // ---- a longer log keeps every explanation ----

  lemma CarriedGrows(log: seq<Entry>, log': seq<Entry>, n: nat, n': nat, k: Key, step: Step)
    requires log <= log' && n <= n' && CarriedBy(log, n, k, step)
    ensures CarriedBy(log', n', k, step)
  {
    var a: nat, b: nat, c: nat, net: nat :|
      a < b < n && At(log, a, k.fp, Filled(c, k)) && At(log, b, net, Carried(c, k, step));
    assert At(log', a, k.fp, Filled(c, k)) && At(log', b, net, Carried(c, k, step));
  }

  lemma JobGrows(log: seq<Entry>, log': seq<Entry>, n: nat, n': nat, j: Job)
    requires log <= log' && n <= n' && JobOk(log, n, j)
    ensures JobOk(log', n', j)
  {
    if j.kind == Confirm {
      CarriedGrows(log, log', n, n', j.key, j.step);
    }
  }

  lemma EarnedGrows(log: seq<Entry>, log': seq<Entry>, k: Key, d: Stored)
    requires log <= log' && Earned(log, k, d)
    ensures Earned(log', k, d)
  {
    var e: nat, f: nat, net: nat :|
      e < f && CarriedBy(log, e, k, d.step)
      && At(log, e, net, Checked(Job(Confirm, k, d.step), Verified)) && At(log, f, k.fp, Learned(k, d.step, d.at));
    CarriedGrows(log, log', e, e, k, d.step);
    assert At(log', e, net, Checked(Job(Confirm, k, d.step), Verified)) && At(log', f, k.fp, Learned(k, d.step, d.at));
  }

  lemma DeservedGrows(log: seq<Entry>, log': seq<Entry>, k: Key)
    requires log <= log' && Deserved(log, k)
    ensures Deserved(log', k)
  {
    var e: nat, f: nat, net: nat :|
      e < f && At(log, e, net, Checked(Job(CheckDirect, k, DIRECT), Rejected)) && At(log, f, k.fp, Marked(k));
    assert At(log', e, net, Checked(Job(CheckDirect, k, DIRECT), Rejected)) && At(log', f, k.fp, Marked(k));
  }

  lemma ThreadGrows(log: seq<Entry>, log': seq<Entry>, c: nat, t: Thread)
    requires log <= log' && ThreadOk(log, c, t)
    ensures ThreadOk(log', c, t)
  {
    match t
    case Attempting(k, _) =>
      var a: nat :| At(log, a, k.fp, Filled(c, k));
      assert At(log', a, k.fp, Filled(c, k));
    case Committed(k, _, step) => CarriedGrows(log, log', |log|, |log'|, k, step);
  }

  lemma VerifierGrows(log: seq<Entry>, log': seq<Entry>, v: Verifier)
    requires log <= log' && VerifierOk(log, v)
    ensures VerifierOk(log', v)
  {
    match v
    case Idle =>
    case Holding(j) => JobGrows(log, log', |log|, |log'|, j);
    case Probed(j, r) =>
      var e: nat, net: nat :| At(log, e, net, Checked(j, r)) && JobOk(log, e, j);
      JobGrows(log, log', e, e, j);
      assert At(log', e, net, Checked(j, r));
  }

  /** The invariant after nothing but logging something more. */
  lemma InvGrows(loaded: Table, s: State, s': State)
    requires Inv(loaded, s) && s.log <= s'.log && s' == s.(log := s'.log)
    ensures Inv(loaded, s')
  {
    forall c | c in s.conns
      ensures ThreadOk(s'.log, c, s.conns[c])
    {
      ThreadGrows(s.log, s'.log, c, s.conns[c]);
    }
    forall j | j in s.queue
      ensures JobOk(s'.log, |s'.log|, j)
    {
      JobGrows(s.log, s'.log, |s.log|, |s'.log|, j);
    }
    VerifierGrows(s.log, s'.log, s.verifier);
    forall k | k in s.table && !(k in loaded && s.table[k] == loaded[k])
      ensures Earned(s'.log, k, s.table[k])
    {
      EarnedGrows(s.log, s'.log, k, s.table[k]);
    }
    forall k | k in s.marks
      ensures Deserved(s'.log, k)
    {
      DeservedGrows(s.log, s'.log, k);
    }
  }

  // ---- each step keeps the invariant ----

  lemma FillPlanKeeps(loaded: Table, s: State, conn: nat, host: string, family: nat, now: int, plan: Plan, s': State)
    requires Inv(loaded, s) && DoFillPlan(s, conn, host, family, now, plan, s')
    ensures Inv(loaded, s')
  {
    var key := Key(Lower(host), s.fp, family);
    InvGrows(loaded, s, Logged(s, Filled(conn, key)));
    assert At(s'.log, |s.log|, key.fp, Filled(conn, key));
  }

  lemma CommitKeeps(loaded: Table, s: State, conn: nat, now: int, s': State)
    requires Inv(loaded, s) && DoCommit(s, conn, now, s')
    ensures Inv(loaded, s')
  {
    var t, step := s.conns[conn], LastStep(s.conns[conn].plan).value;
    var s1 := Logged(s, Carried(conn, t.key, step));
    InvGrows(loaded, s, s1);
    var a: nat :| At(s.log, a, t.key.fp, Filled(conn, t.key));
    assert At(s1.log, a, t.key.fp, Filled(conn, t.key)) && At(s1.log, |s.log|, s.fp, Carried(conn, t.key, step));
    assert CarriedBy(s1.log, |s1.log|, t.key, step);
  }

  lemma TakeKeeps(loaded: Table, s: State, s': State)
    requires Inv(loaded, s) && DoTake(s, s')
    ensures Inv(loaded, s')
  {
  }

  lemma ProbeKeeps(loaded: Table, s: State, result: Probe, s': State)
    requires Inv(loaded, s) && DoProbe(s, result, s')
    ensures Inv(loaded, s')
  {
    var job := s.verifier.job;
    var s1 := Logged(s, Checked(job, result));
    InvGrows(loaded, s, s1);
    assert At(s1.log, |s.log|, s.fp, Checked(job, result));
    JobGrows(s.log, s1.log, |s.log|, |s.log|, job);
  }

  /** What a successful recording leaves is what was there, or the recorded step itself. */
  lemma SucceededEntries(m: Table, k: Key, now: int, step: Step, m': Table)
    requires Succeeded(m, k, now, step, m')
    ensures forall j :: j in m' ==> (j in m && m'[j] == m[j]) || (j == k && step != DIRECT && m'[j] == Stored(step, now))
  {
  }

  lemma ApplyKeeps(loaded: Table, s: State, now: int, s': State)
    requires Inv(loaded, s) && DoApply(s, now, s')
    ensures Inv(loaded, s')
  {
    var job, r := s.verifier.job, s.verifier.result;
    var e: nat, net: nat :| At(s.log, e, net, Checked(job, r)) && JobOk(s.log, e, job);
    InvGrows(loaded, s, s.(log := s'.log));
    if s.fp == job.key.fp != UNKNOWN_NETWORK && job.kind == CheckDirect && r == Rejected {
      assert At(s'.log, e, net, Checked(job, r)) && At(s'.log, |s.log|, job.key.fp, Marked(job.key));
    } else if s.fp == job.key.fp != UNKNOWN_NETWORK && job.kind == Confirm && r == Verified {
      JobGrows(s.log, s'.log, e, e, job);
      assert At(s'.log, e, net, Checked(job, r)) && At(s'.log, |s.log|, job.key.fp, Learned(job.key, job.step, now));
      assert Earned(s'.log, job.key, Stored(job.step, now));
      SucceededEntries(s.table, job.key, now, job.step, s'.table);
    }
  }

  lemma NextKeeps(loaded: Table, s: State, l: Label, s': State)
    requires Inv(loaded, s) && Next(s, l, s')
    ensures Inv(loaded, s')
  {
    match l
    case NetworkChange(fp) =>
    case FillPlan(conn, host, family, now, plan) => FillPlanKeeps(loaded, s, conn, host, family, now, plan, s');
    case Advance(conn, e) =>
    case Commit(conn, now) => CommitKeeps(loaded, s, conn, now, s');
    case GiveUp(conn) =>
    case Submit(conn, kind) =>
    case Leave(conn) =>
    case Take => TakeKeeps(loaded, s, s');
    case Probe(result) => ProbeKeeps(loaded, s, result, s');
    case ApplyResult(now) => ApplyKeeps(loaded, s, now, s');
  }

  lemma {:induction false} TraceKeeps(ss: seq<State>, ls: seq<Label>, n: nat)
    requires IsTrace(ss, ls) && n <= |ls|
    ensures Inv(ss[0].table, ss[n])
  {
    if n > 0 {
      TraceKeeps(ss, ls, n - 1);
      assert Next(ss[n - 1], ls[n - 1], ss[n - 1 + 1]);
      NextKeeps(ss[0].table, ss[n - 1], ls[n - 1], ss[n]);
    }
  }

  // ---- main results, for every interleaving ----

  /** Every decision in the table was loaded at start-up, or is a non-direct step that carried a live
      connection, then passed a certificate-verified handshake, with its fingerprint the current one
      both when that connection's plan was filled and when the result was applied. */
  lemma DecisionsAreEarned(ss: seq<State>, ls: seq<Label>, n: nat, k: Key)
    requires IsTrace(ss, ls) && n <= |ls| && k in ss[n].table
    ensures (k in ss[0].table && ss[n].table[k] == ss[0].table[k]) || Earned(ss[n].log, k, ss[n].table[k])
  {
    TraceKeeps(ss, ls, n);
  }

  /** Every direct-bad mark comes from a certificate rejected on the network the daemon is still on. */
  lemma MarksAreDeserved(ss: seq<State>, ls: seq<Label>, n: nat, k: Key)
    requires IsTrace(ss, ls) && n <= |ls| && k in ss[n].marks
    ensures k.fp == ss[n].fp && Deserved(ss[n].log, k)
  {
    TraceKeeps(ss, ls, n);
  }

  // ---- what the sections are for ----

  /** A step whose certificate was verified while its network is still the current one is the decision from
      then on: every lookup in the next twelve hours that finds the table so finds it. Only memory that
      runs out while there is no decision at all can prevent it. */
  lemma VerifiedIsLearned(loaded: Table, s: State, now: int, s': State, k: Key, step: Step, later: int)
    requires Inv(loaded, s) && Next(s, ApplyResult(now), s')
    requires s.verifier == Probed(Job(Confirm, k, step), Verified) && k.fp == s.fp && k.fp != 0
    requires now <= later < now + 12 * 3600
    ensures LookupIn(s'.table, k, later) == Some(step) || (s.table == map[] && s'.table == map[])
  {
  }

  /** The next connection to that host tries it first: it is in the plan that is filled. */
  lemma LearnedIsPlanned(loaded: Table, s: State, now: int, s1: State, k: Key, step: Step,
                         conn: nat, host: string, later: int, plan: Plan, s2: State)
    requires Inv(loaded, s) && Next(s, ApplyResult(now), s1) && Next(s1, FillPlan(conn, host, k.family, later, plan), s2)
    requires s.verifier == Probed(Job(Confirm, k, step), Verified) && k.fp == s.fp && k.fp != 0 && k.host == Lower(host)
    requires now <= later < now + 12 * 3600 && s.table != map[]
    ensures plan.hasCached && plan.cached == step
  {
    VerifiedIsLearned(loaded, s, now, s1, k, step, later);
  }

  /** And so it is the first attempt of that connection, at the trusted address only where the resolver still
      disagrees, unless a rule or a cooldown decides. */
  lemma LearnedIsTriedFirst(loaded: Table, s: State, now: int, s1: State, k: Key, step: Step,
                            conn: nat, host: string, later: int, plan: Plan, s2: State, events: seq<Event>)
    requires Inv(loaded, s) && Next(s, ApplyResult(now), s1) && Next(s1, FillPlan(conn, host, k.family, later, plan), s2)
    requires s.verifier == Probed(Job(Confirm, k, step), Verified) && k.fp == s.fp && k.fp != 0 && k.host == Lower(host)
    requires now <= later < now + 12 * 3600 && s.table != map[]
    requires !plan.hasManual && !plan.inCooldown && IsRun(plan, events) && |events| > 0
    ensures step.target == Original ==> events[0].Tried? && events[0].step == Step(Original, PlanOrder.OnStream(step.strategy))
    ensures step.target == Trusted ==> events[0].Looked?
    ensures step.target == Trusted && |events| > 1 ==>
      events[1].Tried? && events[1].step == Step(if events[0].trust == Mismatch then Trusted else Original, PlanOrder.OnStream(step.strategy))
  {
    LearnedIsPlanned(loaded, s, now, s1, k, step, conn, host, later, plan, s2);
    PlanOrder.DecisionFirst(plan, events);
  }

  /** A certificate that was rejected for the direct address marks it, on a network that is known and still
      the current one. */
  lemma RejectedIsMarked(s: State, now: int, s': State, k: Key)
    requires Next(s, ApplyResult(now), s')
    requires s.verifier.Probed? && s.verifier.job.kind == CheckDirect && s.verifier.job.key == k && s.verifier.result == Rejected
    ensures k.fp == s.fp && k.fp != 0 ==> k in s'.marks
    ensures k.fp != s.fp || k.fp == 0 ==> s'.marks == s.marks
    ensures s'.table == s.table
  {
  }

  /** Any other result, or one for a network that is no longer current, changes neither table nor marks. */
  lemma OthersChangeNothing(s: State, now: int, s': State)
    requires Next(s, ApplyResult(now), s')
    requires var job, r := s.verifier.job, s.verifier.result;
      job.key.fp != s.fp || r == NoHandshake || (job.kind == Confirm && r == Rejected) || (job.kind == CheckDirect && r == Verified)
    ensures s'.table == s.table && s'.marks == s.marks && s'.verifier == Idle
  {
  }

  /** A connection that got through directly leaves no decision for its host, nor does one that nothing got
      through for; unless a rule chose the way: then no decision changes. */
  lemma DirectForgets(s: State, conn: nat, now: int, s': State)
    requires conn in s.conns && Next(s, Commit(conn, now), s') && s'.conns[conn].Committed? && s'.conns[conn].step == DIRECT
    ensures var t := s.conns[conn];
      s'.table == if (t.plan.hasHost && t.plan.hasManual) || t.key.fp == 0 then s.table else s.table - {t.key}
  {
  }

  lemma FailureForgets(s: State, conn: nat, s': State)
    requires conn in s.conns && Next(s, GiveUp(conn), s')
    ensures var t := s.conns[conn];
      && (forall i :: 0 <= i < |t.plan.tried| ==> i < |t.plan.tried| - 1 || (t.plan.tried[i].result != Ok && t.plan.tried[i].result != Alert))
      && s'.table == if t.plan.hasManual then s.table else s.table - {t.key}
  {
  }

  /** What is put in the verifier's queue: never for a connection that a rule chose the way of; a bypass that
      worked, unless it was the stored decision that worked at once; and a direct success. */
  lemma SubmittedExactly(s: State, conn: nat, kind: Kind, s': State)
    requires Next(s, Submit(conn, kind), s') && s.conns[conn].plan.hasHost
    ensures var t := s.conns[conn];
      && !t.plan.hasManual
      && (kind == Confirm <==> t.step != DIRECT)
      && (kind == Confirm ==> t.plan.inCooldown || !t.plan.hasCached || |t.plan.tried| > 1)
      && (s'.queue == s.queue || s'.queue == s.queue + [Job(kind, t.key, t.step)])
  {
  }

  /** A connection that gets through by a bypass makes it the one to prefer, until the network changes. */
  lemma WorkingIsPreferred(s: State, conn: nat, now: int, s': State)
    requires conn in s.conns && Next(s, Commit(conn, now), s')
    ensures conn in s'.conns && s'.conns[conn].Committed?
    ensures s'.preferred == if s'.conns[conn].step == DIRECT then s.preferred else s'.conns[conn].step.strategy
  {
  }

  lemma ChangeClears(s: State, fp: nat, s': State)
    requires Next(s, NetworkChange(fp), s') && fp != s.fp
    ensures s'.fp == fp && s'.marks == {} && s'.preferred == Pass && s'.table == s.table
  {
  }

  // ---- the life of a connection, and of a job ----

  /** Nothing is left to try. */
  ghost predicate Exhausted(p: Plan)
  {
    forall e: Event :: !Enabled(p, e)
  }

  /** Whatever step any thread takes, a connection stays as it is, makes its next attempt or lookup, commits to
      the attempt that was just answered, gives up with nothing left to try, or leaves after committing. */
  lemma ConnSteps(s: State, l: Label, s': State, c: nat)
    requires Next(s, l, s') && c in s.conns
    ensures if c !in s'.conns then (l == GiveUp(c) && s.conns[c].Attempting? && Exhausted(s.conns[c].plan)) || (l == Leave(c) && s.conns[c].Committed?)
      else
        || s'.conns[c] == s.conns[c]
        || (l.Advance? && l.conn == c && s.conns[c].Attempting? && Enabled(s.conns[c].plan, l.event)
            && s'.conns[c] == Attempting(s.conns[c].key, Apply(s.conns[c].plan, l.event)))
        || (l.Commit? && l.conn == c && s.conns[c].Attempting? && |s.conns[c].plan.tried| > 0
            && (var last := s.conns[c].plan.tried[|s.conns[c].plan.tried| - 1];
                (last.result == Ok || last.result == Alert) && s'.conns[c] == Committed(s.conns[c].key, s.conns[c].plan, last.step)))
  {
  }

  /** The events of a connection so far are a run of the plan that was filled for it. */
  ghost predicate OnItsWay(t: Thread)
  {
    exists p: Plan, events: seq<Event> :: IsRun(p, events) && t.plan == After(p, events)
  }

  lemma {:induction false} ConnsRun(ss: seq<State>, ls: seq<Label>, n: nat, c: nat)
    requires IsTrace(ss, ls) && n <= |ls| && c in ss[n].conns
    ensures OnItsWay(ss[n].conns[c])
  {
    if n > 0 {
      var s, l, s' := ss[n - 1], ls[n - 1], ss[n];
      assert Next(ss[n - 1], ls[n - 1], ss[n - 1 + 1]);
      if c in s.conns {
        ConnsRun(ss, ls, n - 1, c);
        ConnSteps(s, l, s', c);
        if s'.conns[c].plan != s.conns[c].plan {
          GoesOn(s.conns[c], l.event, s'.conns[c]);
        }
      } else {
        assert IsRun(s'.conns[c].plan, []) && s'.conns[c].plan == After(s'.conns[c].plan, []);
      }
    }
  }

  lemma GoesOn(t: Thread, e: Event, t': Thread)
    requires OnItsWay(t) && Enabled(t.plan, e) && t'.plan == Apply(t.plan, e)
    ensures OnItsWay(t')
  {
    var p: Plan, events: seq<Event> :| IsRun(p, events) && t.plan == After(p, events);
    var more := events + [e];
    assert more[..|more| - 1] == events;
    assert IsRun(p, more) && t'.plan == After(p, more);
  }

  /** The verifier takes the first job when it is idle, probes it, and applies the result: no other way round,
      and no other step touches what it is doing. */
  lemma VerifierSteps(s: State, l: Label, s': State)
    requires Next(s, l, s')
    ensures match l
      case Take => s.verifier == Idle && |s.queue| > 0 && s'.verifier == Holding(s.queue[0]) && s'.queue == s.queue[1..]
      case Probe(r) => s.verifier.Holding? && s'.verifier == Probed(s.verifier.job, r)
      case ApplyResult(_) => s.verifier.Probed? && s'.verifier == Idle
      case _ => s'.verifier == s.verifier
  {
  }

  /** And it is never stuck while there is a job. */
  lemma VerifierGoesOn(s: State, r: Probe, now: int)
    requires s.verifier != Idle || |s.queue| > 0
    ensures exists l: Label, s': State :: (l.Take? || l.Probe? || l.ApplyResult?) && Next(s, l, s')
  {
    match s.verifier
    case Idle => assert Next(s, Take, s.(verifier := Holding(s.queue[0]), queue := s.queue[1..]));
    case Holding(job) => assert Next(s, Label.Probe(r), Logged(s, Checked(job, r)).(verifier := Probed(job, r)));
    case Probed(job, result) =>
      var s' := Applied(s, now);
      assert Next(s, ApplyResult(now), s');
  }

  lemma Applied(s: State, now: int) returns (s': State)
    requires s.verifier.Probed?
    ensures DoApply(s, now, s')
  {
    var job, r := s.verifier.job, s.verifier.result;
    s' := s.(verifier := Idle);
    if s.fp == job.key.fp != UNKNOWN_NETWORK && job.kind == CheckDirect && r == Rejected {
      s' := Logged(s', Marked(job.key)).(marks := s.marks + {job.key});
    } else if s.fp == job.key.fp != UNKNOWN_NETWORK && job.kind == Confirm && r == Verified {
      var m := if job.step == DIRECT then s.table - {job.key}
               else if Throttled(s.table, job.key, now, job.step) then s.table
               else s.table[job.key := Stored(job.step, now)];
      s' := Logged(s', Learned(job.key, job.step, now)).(table := m);
    }
  }

  /** A connection that is still attempting can always go on: to its next attempt or lookup, to committing, or to
      giving up. */
  lemma ConnGoesOn(s: State, c: nat, now: int)
    requires c in s.conns && s.conns[c].Attempting?
    ensures exists l: Label, s': State :: (l.Advance? || l.Commit? || l.GiveUp?) && l.conn == c && Next(s, l, s')
  {
    var t := s.conns[c];
    match PlanNext(t.plan)
    case Try(step) =>
      var e := Tried(step, Timeout);
      assert Next(s, Advance(c, e), s.(conns := s.conns[c := Attempting(t.key, Apply(t.plan, e))]));
    case NeedDns =>
      var e := Looked(NoAnswer);
      assert Next(s, Advance(c, e), s.(conns := s.conns[c := Attempting(t.key, Apply(t.plan, e))]));
    case Done =>
      if LastStep(t.plan).None? {
        assert Next(s, GiveUp(c), s.(conns := s.conns - {c}, table := if t.plan.hasManual then s.table else s.table - {t.key}));
      } else {
        var s' := CommitTo(s, c, now);
        assert Next(s, Commit(c, now), s');
      }
  }

  lemma CommitTo(s: State, c: nat, now: int) returns (s': State)
    requires c in s.conns && s.conns[c].Attempting? && LastStep(s.conns[c].plan).Some?
    ensures DoCommit(s, c, now, s')
  {
    var t, step := s.conns[c], LastStep(s.conns[c].plan).value;
    s' := Logged(s, Carried(c, t.key, step)).(conns := s.conns[c := Committed(t.key, t.plan, step)]);
    if step != DIRECT {
      s' := s'.(preferred := step.strategy);
    } else if PlanSource(t.plan) != Manual && t.key.fp != UNKNOWN_NETWORK {
      s' := s'.(table := s.table - {t.key});
    }
  }
}
