/** src/transparent/verify.c: the verifier's bounded queue and its window against duplicates. */
module VerifyQueue {
  import opened Bytes
  import opened Plan
  import opened Decisions
  import opened Daemon

  const RECENT_MAX: nat := 128
  const RECENT_WINDOW: int := 600

  /** What makes two jobs duplicates; the network is not part of it. */
  datatype Id = Id(kind: Kind, host: string, family: nat, step: Step)

  function IdOf(j: Job): Id
  {
    Id(j.kind, j.key.host, j.key.family, j.step)
  }

  /** One remembered submission; time 0 marks an unused slot. */
  datatype Recent = Recent(id: Id, at: int)

  const UNUSED: Recent := Recent(Id(Confirm, "", 0, DIRECT), 0)

  /** Two submissions of the same thing inside the window are at least 128 submissions apart. */
  predicate Spaced(h: seq<Recent>)
  {
    forall i, j :: 0 <= i < j < |h| && h[i].id == h[j].id && h[i].at != 0 && h[j].at - h[i].at < RECENT_WINDOW
                   ==> j - i > RECENT_MAX
  }

  class Queue {
    const jobs: array<Job>
    var len: nat
    const recent: array<Recent>
    var next: nat
    /** Every submission that was accepted, in order. */
    ghost var history: seq<Recent>

    ghost predicate Valid()
      reads this, jobs, recent
    {
      && jobs.Length == QUEUE_MAX && len <= QUEUE_MAX
      && recent.Length == RECENT_MAX && next == |history| % RECENT_MAX
      && (forall i :: 0 <= i < |history| && |history| - i <= RECENT_MAX ==> recent[i % RECENT_MAX] == history[i])
      && (forall s :: 0 <= s < RECENT_MAX && s >= |history| ==> recent[s] == UNUSED)
      && Spaced(history)
    }

    ghost function Waiting(): (r: seq<Job>)
      reads this, jobs
      requires len <= jobs.Length
    {
      jobs[..len]
    }

    constructor (placeholder: Job)
      ensures Valid() && fresh(jobs) && fresh(recent) && Waiting() == [] && history == []
    {
      jobs := new Job[QUEUE_MAX](i => placeholder);
      recent := new Recent[RECENT_MAX](i => UNUSED);
      len, next, history := 0, 0, [];
    }

    /** One of the last 128 accepted submissions was the same, inside the window. */
    ghost predicate Duplicate(id: Id, now: int)
      reads this
    {
      exists i :: 0 <= i < |history| && |history| - i <= 128
                  && history[i].id == id && history[i].at != 0 && now - history[i].at < 600
    }

    /** seen_recently */
    method SeenRecently(id: Id, now: int) returns (seen: bool)
      requires Valid()
      ensures seen <==> Duplicate(id, now)
    {
      var s := 0;
      while s < RECENT_MAX
        invariant s <= RECENT_MAX
        invariant forall t :: 0 <= t < s ==>
          !(recent[t].id == id && recent[t].at != 0 && now - recent[t].at < RECENT_WINDOW)
      {
        if recent[s].at != 0 && now - recent[s].at < RECENT_WINDOW && recent[s].id == id {
          ghost var i := LastAt(|history|, s);
          assert recent[i % RECENT_MAX] == history[i];
          return true;
        }
        s := s + 1;
      }
      return false;
    }

    /** tpd_verify_submit: the job is queued behind the others, or dropped when it is a recent
        duplicate or the queue is full. */
    method Submit(job: Job, now: int) returns (accepted: bool)
      requires Valid()
      modifies this, jobs, recent
      ensures Valid()
      ensures Waiting() == if accepted then old(Waiting()) + [job] else old(Waiting())
      ensures history == if accepted then old(history) + [Recent(IdOf(job), now)] else old(history)
      ensures accepted <==> old(len) < QUEUE_MAX && !old(Duplicate(Id(job.kind, job.key.host, job.key.family, job.step), now))
    {
      var seen := SeenRecently(IdOf(job), now);
      accepted := !seen && len < QUEUE_MAX;
      if accepted {
        ghost var before := Waiting();
        jobs[len] := job;
        len := len + 1;
        assert Waiting() == before + [job];
        Remember(Recent(IdOf(job), now));
      }
    }

    /** The ring always holds the last 128 accepted submissions. */
    method Remember(r: Recent)
      requires Valid()
      requires !Duplicate(r.id, r.at)
      modifies `next, `history, recent
      ensures Valid() && history == old(history) + [r]
    {
      recent[next] := r;
      next := (next + 1) % RECENT_MAX;
      history := history + [r];
    }

    /** The verifier takes the oldest job. */
    method Take() returns (job: Job)
      requires Valid() && len > 0
      modifies `len, jobs
      ensures Valid() && [job] + Waiting() == old(Waiting())
    {
      job := jobs[0];
      var i := 0;
      while i < len - 1
        invariant len == old(len) && 0 <= i <= len - 1
        invariant forall s :: 0 <= s < RECENT_MAX ==> recent[s] == old(recent[s])
        invariant forall k :: 0 <= k < i ==> jobs[k] == old(jobs[k + 1])
        invariant forall k :: i < k < len ==> jobs[k] == old(jobs[k])
      {
        jobs[i] := jobs[i + 1];
        i := i + 1;
      }
      len := len - 1;
    }
  }

  /** The last position before n that falls on ring slot s. */
  lemma LastAt(n: nat, s: nat) returns (i: nat)
    requires s < RECENT_MAX && s < n
    ensures i < n && n - i <= RECENT_MAX && i % RECENT_MAX == s
  {
    var q := (n - 1 - s) / RECENT_MAX;
    i := s + q * RECENT_MAX;
  }
}
