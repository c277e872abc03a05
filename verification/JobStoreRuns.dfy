/** What every run of the job and approval store keeps. */
module JobStoreRuns {
  import opened Prelude
  import opened JobStore

  // --- The job invariant -----------------------------------------------------------

  predicate SoundJob(j: Job) {
    && (j.status == Running <==> j.leaseOwner != "")
    && (j.status == Running <==> j.leaseUntil.Some?)
    && (j.status == Running && j.affinity != "" ==> j.leaseOwner == j.affinity)
    && (j.status == Running ==> 1 <= j.attempts)
    && 0 <= j.attempts <= j.maxAttempts && 0 < j.maxAttempts
  }

  ghost predicate SoundJobs(s: State) {
    forall id :: id in s.jobs ==> s.jobs[id].id == id && SoundJob(s.jobs[id])
  }

  /** No two queued or running jobs share kind, target and affinity. */
  ghost predicate UniqueActive(s: State) {
    forall a, b :: a in s.jobs && b in s.jobs && a != b && Active(s.jobs[a]) && Active(s.jobs[b]) ==>
                     !SameKey(s.jobs[a], s.jobs[b].kind, s.jobs[b].target, s.jobs[b].affinity)
  }

  ghost predicate Inv(s: State) {
    SoundJobs(s) && UniqueActive(s)
  }

  /** The requests and callers of the program: jobs are submitted unstarted, workers are named. */
  predicate Proper(e: Event) {
    match e
    case EnqueueEv(r, id, _) => r.status in {None, Some(Queued)} && 0 <= r.attempts <= NewJob(r, id, 0).maxAttempts
    case LeaseEv(owner, _, _, _, _) => owner != ""
    case CompleteEv(_, owner) => owner != ""
    case FailEv(_, owner, _, _, _, _, _) => owner != ""
    case CreateEv(_, a) => a.status == Pending
    case _ => true
  }

  lemma EnqueueUnique(s: State, r: Request, id: string, now: int)
    requires UniqueActive(s)
    ensures UniqueActive(Enqueue(s, r, id, now))
  {
  }

  /** Accepting a request keeps the invariant exactly when the request describes a job that is
      not running and has attempts to spare. */
  lemma EnqueueKeepsInvIff(s: State, r: Request, id: string, now: int)
    requires Inv(s) && !Conflicts(s, r.kind, r.target, r.affinity) && id !in s.jobs
    ensures Inv(Enqueue(s, r, id, now))
            <==> r.status != Some(Running) && 0 <= r.attempts <= (if r.maxAttempts <= 0 then 5 else r.maxAttempts)
  {
    EnqueueUnique(s, r, id, now);
    var s' := Enqueue(s, r, id, now);
    assert s'.jobs[id] == NewJob(r, id, now);
  }

  lemma LeaseInv(s: State, owner: string, until: int, now: int, limit: int, chosen: set<string>)
    requires Inv(s) && owner != "" && LeaseChoice(s, owner, limit, now, chosen)
    ensures Inv(Lease(s, owner, until, now, chosen))
  {
    var s' := Lease(s, owner, until, now, chosen);
    forall id | id in s'.jobs
      ensures SoundJob(s'.jobs[id]) && s'.jobs[id].id == id
      ensures Active(s'.jobs[id]) ==> Active(s.jobs[id])
      ensures SameKey(s'.jobs[id], s.jobs[id].kind, s.jobs[id].target, s.jobs[id].affinity)
    {
      if id in chosen {
        assert Leasable(s.jobs[id], owner, now);
      }
    }
  }

  lemma RetryInv(s: State, id: string, now: int)
    requires Inv(s)
    ensures Inv(Retry(s, id, now))
  {
    if id in s.jobs {
      assert SoundJob(s.jobs[id]);
    }
  }

  /** Changing one job soundly, without activating it or changing its key, keeps the invariant. */
  lemma OneJobInv(s: State, s': State, id: string)
    requires Inv(s) && s'.jobs.Keys == s.jobs.Keys
    requires forall x :: x in s.jobs && x != id ==> s'.jobs[x] == s.jobs[x]
    requires id in s.jobs ==>
               && s'.jobs[id].id == id && SoundJob(s'.jobs[id]) && (Active(s'.jobs[id]) ==> Active(s.jobs[id]))
               && SameKey(s'.jobs[id], s.jobs[id].kind, s.jobs[id].target, s.jobs[id].affinity)
    ensures Inv(s')
  {
  }

  lemma CompleteInv(s: State, id: string, owner: string)
    requires Inv(s)
    ensures Inv(Complete(s, id, owner))
  {
    OneJobInv(s, Complete(s, id, owner), id);
  }

  lemma FailInv(s: State, id: string, owner: string, seen: int, detail: string, retryAfter: int, now: int)
    requires Inv(s)
    ensures Inv(Fail(s, id, owner, seen, detail, retryAfter, now))
  {
    OneJobInv(s, Fail(s, id, owner, seen, detail, retryAfter, now), id);
  }

  predicate ChangesJobs(e: Event) {
    e.EnqueueEv? || e.LeaseEv? || e.CompleteEv? || e.FailEv? || e.RetryEv?
  }

  lemma ApprovalsOnly(s: State, e: Event)
    requires !ChangesJobs(e)
    ensures Apply(s, e).jobs == s.jobs
  {
  }

  /** Every transaction keeps the invariant. */
  lemma StepKeepsInv(s: State, e: Event)
    requires Inv(s) && Lawful(s, e) && Proper(e)
    ensures Inv(Apply(s, e))
  {
    if e.EnqueueEv? {
      EnqueueKeeps(s, e.request, e.job, e.now);
    } else if e.LeaseEv? {
      LeaseInv(s, e.owner, e.until, e.now, e.limit, e.chosen);
    } else if e.CompleteEv? {
      CompleteInv(s, e.job, e.owner);
    } else if e.FailEv? {
      FailInv(s, e.job, e.owner, e.seen, e.detail, e.retryAfter, e.now);
    } else if e.RetryEv? {
      RetryInv(s, e.job, e.now);
    } else {
      ApprovalsOnly(s, e);
    }
  }

  lemma EnqueueKeeps(s: State, r: Request, id: string, now: int)
    requires Inv(s) && Proper(EnqueueEv(r, id, now))
    ensures Inv(Enqueue(s, r, id, now))
  {
    EnqueueUnique(s, r, id, now);
  }

  ghost predicate ProperRun(states: seq<State>, events: seq<Event>) {
    Run(states, events) && forall e :: e in events ==> Proper(e)
  }

  /** In every run from a sound store, every state is sound. */
  lemma {:induction false} RunKeepsInv(states: seq<State>, events: seq<Event>, i: nat)
    requires ProperRun(states, events) && Inv(states[0]) && i < |states|
    ensures Inv(states[i])
  {
    if i > 0 {
      RunKeepsInv(states, events, i - 1);
      assert events[i - 1] in events;
      StepKeepsInv(states[i - 1], events[i - 1]);
    }
  }

  // --- Exclusive leases ---------------------------------------------------------------

  /** A lease call leaves every unexpired lease, and its job, exactly as it was. */
  lemma UnexpiredLeaseUntouched(s: State, owner: string, limit: int, until: int, now: int, chosen: set<string>, id: string)
    requires LeaseChoice(s, owner, limit, now, chosen)
    requires id in s.jobs && s.jobs[id].status == Running && s.jobs[id].leaseUntil.Some? && now < s.jobs[id].leaseUntil.value
    ensures id !in chosen && Lease(s, owner, until, now, chosen).jobs[id] == s.jobs[id]
  {
    assert !Leasable(s.jobs[id], owner, now);
  }

  predicate GrantsTo(e: Event, id: string, owner: string) {
    e.LeaseEv? && e.owner == owner && id in e.chosen
  }

  lemma NotGrantedNotOwner(s: State, e: Event, id: string, owner: string)
    requires id in s.jobs && s.jobs[id].leaseOwner != owner && owner != ""
    requires !GrantsTo(e, id, owner)
    ensures id in Apply(s, e).jobs && Apply(s, e).jobs[id].leaseOwner != owner
  {
  }

  /** Once another owner holds the job, the displaced one can neither complete nor fail it,
      at any later point of any run, until it is granted the job again. */
  lemma {:induction false} DisplacedOwnerPowerless(states: seq<State>, events: seq<Event>, i: nat, id: string, owner: string,
                                                   seen: int, detail: string, retryAfter: int, now: int)
    requires Run(states, events) && i < |states| && owner != ""
    requires id in states[0].jobs && states[0].jobs[id].leaseOwner != owner
    requires forall e :: e in events[..i] ==> !GrantsTo(e, id, owner)
    ensures id in states[i].jobs && states[i].jobs[id].leaseOwner != owner
    ensures Complete(states[i], id, owner) == states[i]
    ensures Fail(states[i], id, owner, seen, detail, retryAfter, now) == states[i]
  {
    if i > 0 {
      assert events[..i] == events[..i - 1] + [events[i - 1]];
      DisplacedOwnerPowerless(states, events, i - 1, id, owner, seen, detail, retryAfter, now);
      assert events[i - 1] in events[..i];
      NotGrantedNotOwner(states[i - 1], events[i - 1], id, owner);
    }
  }

  // --- Bounded work ---------------------------------------------------------------------

  function Rank(st: JobStatus): nat {
    match st
    case Queued => 1
    case Running => 2
    case _ => 0
  }

  function Work(j: Job): int {
    2 * (j.maxAttempts - j.attempts) + Rank(j.status)
  }

  /** Without an operator retry, any change of a job uses up some of its work. */
  lemma ChangeConsumesWork(s: State, e: Event, id: string)
    requires Inv(s) && Lawful(s, e) && !e.RetryEv? && id in s.jobs
    ensures id in Apply(s, e).jobs
    ensures Apply(s, e).jobs[id] == s.jobs[id] || Work(Apply(s, e).jobs[id]) < Work(s.jobs[id])
    ensures Apply(s, e).jobs[id].maxAttempts == s.jobs[id].maxAttempts
    ensures Apply(s, e).jobs[id].attempts == s.jobs[id].attempts + if e.LeaseEv? && id in e.chosen then 1 else 0
  {
    if e.LeaseEv? {
      assert id in e.chosen ==> Leasable(s.jobs[id], e.owner, e.now);
    }
  }

  /** How often a job changed within the first `n` steps, and how often it was leased. */
  ghost function Changes(states: seq<State>, id: string, n: nat): nat
    requires n < |states| && forall s :: s in states ==> id in s.jobs
  {
    if n == 0 then 0
    else Changes(states, id, n - 1) + if states[n - 1].jobs[id] != states[n].jobs[id] then 1 else 0
  }

  ghost function Leases(events: seq<Event>, id: string, n: nat): nat
    requires n <= |events|
  {
    if n == 0 then 0
    else Leases(events, id, n - 1) + if events[n - 1].LeaseEv? && id in events[n - 1].chosen then 1 else 0
  }

  lemma {:induction false} JobsStay(states: seq<State>, events: seq<Event>, i: nat, j: nat, id: string)
    requires Run(states, events) && i <= j < |states| && id in states[i].jobs
    ensures id in states[j].jobs
    decreases j
  {
    if i < j {
      JobsStay(states, events, i, j - 1, id);
      assert Lawful(states[j - 1], events[j - 1]);
    }
  }

  /** In every run without operator retries, whatever the workers do, a job changes at most
      `2 * maxAttempts + 1` times and is leased at most `maxAttempts` times. */
  lemma BoundedWork(states: seq<State>, events: seq<Event>, id: string)
    requires ProperRun(states, events) && Inv(states[0]) && id in states[0].jobs
    requires forall e :: e in events ==> !e.RetryEv?
    ensures forall s :: s in states ==> id in s.jobs
    ensures Changes(states, id, |events|) <= 2 * states[0].jobs[id].maxAttempts + 1
    ensures Leases(events, id, |events|) <= states[0].jobs[id].maxAttempts
  {
    forall s | s in states ensures id in s.jobs {
      var j :| 0 <= j < |states| && states[j] == s;
      JobsStay(states, events, 0, j, id);
    }
    WorkUsed(states, events, id, |events|);
    RunKeepsInv(states, events, |events|);
    assert SoundJob(states[0].jobs[id]) && SoundJob(states[|events|].jobs[id]);
  }

  lemma {:induction false} WorkUsed(states: seq<State>, events: seq<Event>, id: string, n: nat)
    requires ProperRun(states, events) && Inv(states[0]) && n < |states|
    requires forall s :: s in states ==> id in s.jobs
    requires forall e :: e in events ==> !e.RetryEv?
    ensures Changes(states, id, n) <= Work(states[0].jobs[id]) - Work(states[n].jobs[id])
    ensures Leases(events, id, n) == states[n].jobs[id].attempts - states[0].jobs[id].attempts
    ensures states[n].jobs[id].maxAttempts == states[0].jobs[id].maxAttempts
  {
    if n > 0 {
      WorkUsed(states, events, id, n - 1);
      RunKeepsInv(states, events, n - 1);
      assert events[n - 1] in events;
      ChangeConsumesWork(states[n - 1], events[n - 1], id);
    }
  }

  // --- Approvals ------------------------------------------------------------------------

  predicate Follows(from: ApprovalStatus, to: ApprovalStatus) {
    || from == to
    || (from == Pending && (to == Approved || to == Expired))
    || (from == Approved && to == Scheduled)
    || (from == Scheduled && (to == Approved || to == Executed))
  }

  /** Approvals move only along the workflow, keep their requester and deadline, and never vanish.
      A schedule that takes effect does so before the deadline; an approval that takes effect
      under the distinct-actor rule is not the requester's own. */
  lemma ApprovalStep(s: State, e: Event, a: string)
    requires a in s.approvals
    ensures a in Apply(s, e).approvals
    ensures var x, y := s.approvals[a], Apply(s, e).approvals[a];
            && Follows(x.status, y.status)
            && x.requestedBy == y.requestedBy && x.expires == y.expires
            && (x.status != y.status && y.status == Scheduled ==> e.ScheduleEv? && e.now < x.expires)
            && (x.status == Pending && y.status == Approved ==>
                  e.ApproveEv? && y.approvedBy == e.actor && (e.distinct ==> e.actor != x.requestedBy))
            && (x.status != Pending ==> y.approvedBy == x.approvedBy)
  {
  }

  lemma TerminalStays(s: State, e: Event, a: string)
    requires a in s.approvals && s.approvals[a].status in {Executed, Expired}
    ensures a in Apply(s, e).approvals && Apply(s, e).approvals[a].status == s.approvals[a].status
  {
    ApprovalStep(s, e, a);
  }

  /** Executed and expired approvals stay so for the rest of any run. */
  lemma {:induction false} TerminalApprovals(states: seq<State>, events: seq<Event>, i: nat, j: nat, a: string)
    requires Run(states, events) && i <= j < |states| && a in states[i].approvals
    requires states[i].approvals[a].status in {Executed, Expired}
    ensures a in states[j].approvals && states[j].approvals[a].status == states[i].approvals[a].status
    decreases j
  {
    if i < j {
      TerminalApprovals(states, events, i, j - 1, a);
      TerminalStays(states[j - 1], events[j - 1], a);
    }
  }

  /** A restore that succeeded has used up its approval, and no other restore used the same one. */
  ghost predicate LinearApprovals(s: State) {
    && (forall id :: Restored(s, id) ==>
          var a := Consumes(s.jobs[id]).value; a in s.approvals && s.approvals[a].status == Executed)
    && forall x, y :: Restored(s, x) && Restored(s, y) && Consumes(s.jobs[x]) == Consumes(s.jobs[y]) ==> x == y
  }

  predicate Restored(s: State, id: string) {
    id in s.jobs && s.jobs[id].status == Succeeded && Consumes(s.jobs[id]).Some?
  }

  /** Every approval that left the pending state without expiring was granted by someone else. */
  ghost predicate DistinctApprovals(s: State) {
    forall a :: a in s.approvals && s.approvals[a].status in {Approved, Scheduled, Executed} ==>
                  s.approvals[a].approvedBy != s.approvals[a].requestedBy
  }

  /** No job newly succeeds and no approval leaves the executed state. */
  lemma NothingConsumed(s: State, s': State)
    requires LinearApprovals(s)
    requires forall id :: Restored(s', id) ==> Restored(s, id) && Consumes(s'.jobs[id]) == Consumes(s.jobs[id])
    requires forall a :: a in s.approvals && s.approvals[a].status == Executed ==>
               a in s'.approvals && s'.approvals[a].status == Executed
    ensures LinearApprovals(s')
  {
  }

  lemma CompleteLinear(s: State, id: string, owner: string)
    requires LinearApprovals(s)
    ensures LinearApprovals(Complete(s, id, owner))
  {
  }

  lemma JobsLinear(s: State, e: Event)
    requires LinearApprovals(s) && Lawful(s, e) && Proper(e) && ChangesJobs(e) && !e.CompleteEv?
    ensures LinearApprovals(Apply(s, e))
  {
    if e.LeaseEv? {
      forall id | id in e.chosen ensures s.jobs[id].status != Succeeded {
        assert Leasable(s.jobs[id], e.owner, e.now);
      }
    }
    NothingConsumed(s, Apply(s, e));
  }

  lemma StepKeepsLinear(s: State, e: Event)
    requires LinearApprovals(s) && Lawful(s, e) && Proper(e)
    ensures LinearApprovals(Apply(s, e))
  {
    if e.CompleteEv? {
      CompleteLinear(s, e.job, e.owner);
    } else if ChangesJobs(e) {
      JobsLinear(s, e);
    } else {
      ApprovalsOnly(s, e);
      forall a | a in s.approvals && s.approvals[a].status == Executed
        ensures a in Apply(s, e).approvals && Apply(s, e).approvals[a].status == Executed
      {
        ApprovalStep(s, e, a);
      }
      NothingConsumed(s, Apply(s, e));
    }
  }

  lemma StepKeepsDistinct(s: State, e: Event)
    requires DistinctApprovals(s) && Proper(e) && (e.ApproveEv? ==> e.distinct)
    ensures DistinctApprovals(Apply(s, e))
  {
  }

  /** Over every run from the empty store: at most one restore per approval ever succeeds, and,
      when every approval is given under the distinct-actor rule, nobody approves their own restore. */
  lemma {:induction false} RunKeepsApprovals(states: seq<State>, events: seq<Event>, i: nat)
    requires ProperRun(states, events) && states[0] == EMPTY && i < |states|
    ensures LinearApprovals(states[i])
    ensures (forall e :: e in events ==> e.ApproveEv? ==> e.distinct) ==> DistinctApprovals(states[i])
  {
    if i > 0 {
      RunKeepsApprovals(states, events, i - 1);
      assert events[i - 1] in events;
      StepKeepsLinear(states[i - 1], events[i - 1]);
      if forall e :: e in events ==> e.ApproveEv? ==> e.distinct {
        StepKeepsDistinct(states[i - 1], events[i - 1]);
      }
    }
  }

  /** A restore is only ever scheduled before its deadline: whenever an approval stands as scheduled or
      executed, a schedule call took effect while the deadline, which never moves, lay ahead. */
  lemma {:induction false} ScheduledInTime(states: seq<State>, events: seq<Event>, i: nat, a: string)
    requires ProperRun(states, events) && states[0] == EMPTY && i < |states| && a in states[i].approvals
    requires states[i].approvals[a].status in {Scheduled, Executed}
    ensures exists k :: 0 <= k < i && events[k].ScheduleEv? && events[k].approval == a && events[k].now < states[i].approvals[a].expires
  {
    assert i > 0;
    var e := events[i - 1];
    assert e in events;
    if a in states[i - 1].approvals {
      ApprovalStep(states[i - 1], e, a);
      if states[i - 1].approvals[a].status in {Scheduled, Executed} {
        ScheduledInTime(states, events, i - 1, a);
      }
    }
  }
}
