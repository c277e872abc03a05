/** When jobs run: never before their time, the most urgent first, again after a crash or a retry; and when
    approvals are given (internal/controlplane/sqlstore.go). */
module JobTiming {
  import opened Prelude
  import Finite
  import opened JobStore
  import opened JobStoreRuns

  // --- Filing ---------------------------------------------------------------------------------

  /** Some queued or running job does the same kind of work on the same target for the same agent. */
  ghost predicate Taken(s: State, kind: string, target: string, affinity: string) {
    exists id :: id in s.jobs && s.jobs[id].status in {Queued, Running}
                 && s.jobs[id].kind == kind && s.jobs[id].target == target && s.jobs[id].affinity == affinity
  }

  /** A job is filed exactly when its id is new and no active job has its kind, target and agent; then it waits
      for its time without a lease, with five attempts unless it says otherwise, and all other jobs stay. */
  lemma FiledIff(s: State, r: Request, id: string, now: int)
    requires id !in s.jobs
    ensures id in Enqueue(s, r, id, now).jobs <==> !Taken(s, r.kind, r.target, r.affinity)
    ensures id in Enqueue(s, r, id, now).jobs ==>
              var j := Enqueue(s, r, id, now).jobs[id];
              && j.id == id && j.kind == r.kind && j.target == r.target && j.affinity == r.affinity
              && j.approval == r.approval && j.shard == r.shard && j.priority == r.priority && j.attempts == r.attempts
              && (r.maxAttempts < 1 ==> j.maxAttempts == 5) && (1 <= r.maxAttempts ==> j.maxAttempts == r.maxAttempts)
              && (r.notBefore == None ==> j.notBefore == now) && (r.notBefore.Some? ==> j.notBefore == r.notBefore.value)
              && (r.status == None ==> j.status == Queued) && (r.status.Some? ==> j.status == r.status.value)
              && j.leaseOwner == "" && j.leaseUntil == None && j.created == now && j.lastError == ""
    ensures Enqueue(s, r, id, now).approvals == s.approvals
    ensures forall x :: x in s.jobs ==> x in Enqueue(s, r, id, now).jobs && Enqueue(s, r, id, now).jobs[x] == s.jobs[x]
  {
  }

  // --- Leasing --------------------------------------------------------------------------------

  /** The job waits, its time has come, attempts are left, and this worker may run it. */
  predicate Waiting(j: Job, owner: string, now: int) {
    j.status == Queued && j.notBefore <= now && j.attempts < j.maxAttempts && j.affinity in {"", owner}
  }

  /** Its worker let the lease run out with attempts left. */
  predicate Abandoned(j: Job, owner: string, now: int) {
    && j.status == Running && j.leaseUntil.Some? && j.leaseUntil.value <= now
    && j.notBefore <= now && j.attempts < j.maxAttempts && j.affinity in {"", owner}
  }

  /** A lease call takes a waiting or abandoned job, all of them if there are no more than asked for, and none
      ahead of its time. */
  lemma GrantsWaitingOnly(s: State, owner: string, limit: int, now: int, chosen: set<string>, id: string)
    requires LeaseChoice(s, owner, limit, now, chosen)
    ensures id in chosen ==> id in s.jobs && (Waiting(s.jobs[id], owner, now) || Abandoned(s.jobs[id], owner, now))
    ensures id in s.jobs && now < s.jobs[id].notBefore ==> id !in chosen
    ensures (set x | x in s.jobs && (Waiting(s.jobs[x], owner, now) || Abandoned(s.jobs[x], owner, now)) :: x) == LeasableIds(s, owner, now)
    ensures (|LeasableIds(s, owner, now)| <= limit && id in s.jobs
             && (Waiting(s.jobs[id], owner, now) || Abandoned(s.jobs[id], owner, now))) ==> id in chosen
  {
    assert chosen <= LeasableIds(s, owner, now);
    if |LeasableIds(s, owner, now)| <= limit {
      Finite.SubsetSize(chosen, LeasableIds(s, owner, now));
    }
    forall x ensures x in LeasableIds(s, owner, now) <==> x in s.jobs && (Waiting(s.jobs[x], owner, now) || Abandoned(s.jobs[x], owner, now)) {
    }
  }

  /** A call takes as many of them as it asks for, or as there are; one that asks for none or fewer is given one. */
  lemma TakesAsAsked(s: State, owner: string, limit: int, now: int, chosen: set<string>, ready: set<string>)
    requires LeaseChoice(s, owner, limit, now, chosen)
    requires forall x :: x in ready <==> x in s.jobs && (Waiting(s.jobs[x], owner, now) || Abandoned(s.jobs[x], owner, now))
    ensures |chosen| == if |ready| < 1 then 0 else if limit < 1 then 1 else if limit < |ready| then limit else |ready|
  {
    assert ready == LeasableIds(s, owner, now);
  }

  /** A job left waiting is no more urgent than any that was taken, and no older among equally urgent ones. */
  lemma UrgentFirst(s: State, owner: string, limit: int, now: int, chosen: set<string>, left: string, taken: string)
    requires LeaseChoice(s, owner, limit, now, chosen) && taken in chosen && left in s.jobs && left !in chosen
    requires Waiting(s.jobs[left], owner, now) || Abandoned(s.jobs[left], owner, now)
    ensures s.jobs[left].priority <= s.jobs[taken].priority
    ensures s.jobs[left].priority == s.jobs[taken].priority ==> s.jobs[taken].created <= s.jobs[left].created
  {
    assert left in LeasableIds(s, owner, now) - chosen;
    assert !Ahead(s.jobs[left], s.jobs[taken]);
  }

  /** What a lease call makes of one job: it runs for its new owner; or, with an expired lease and no attempt left, it
      has failed and keeps the error it had; or nothing happens to it. */
  lemma LeaseEffect(s: State, owner: string, limit: int, until: int, now: int, chosen: set<string>, id: string)
    requires LeaseChoice(s, owner, limit, now, chosen) && id in s.jobs
    ensures id in Lease(s, owner, until, now, chosen).jobs && Lease(s, owner, until, now, chosen).approvals == s.approvals
    ensures var j, n := s.jobs[id], Lease(s, owner, until, now, chosen).jobs[id];
            if id in chosen then
              n == j.(status := Running, attempts := j.attempts + 1, leaseOwner := owner, leaseUntil := Some(until))
            else if j.status == Running && j.leaseUntil.Some? && j.leaseUntil.value <= now && j.maxAttempts <= j.attempts then
              && n.status == Failed && n.leaseOwner == "" && n.leaseUntil == None
              && (j.lastError != "" ==> n.lastError == j.lastError) && (j.lastError == "" ==> n.lastError == "lease expired on final attempt")
              && n.attempts == j.attempts && n.notBefore == j.notBefore
            else n == j
  {
    if id in chosen {
      assert Leasable(s.jobs[id], owner, now);
    }
  }

  /** A job that a failure report has put off is not touched by time: only a later failure or an operator's retry
      moves the moment from which it may run. */
  lemma {:induction false} DelayStands(states: seq<State>, events: seq<Event>, a: nat, k: nat, id: string)
    requires Run(states, events) && a <= k < |states| && id in states[a].jobs
    requires forall i :: a <= i < k ==> !(events[i].FailEv? && events[i].job == id) && !(events[i].RetryEv? && events[i].job == id)
    ensures id in states[k].jobs && states[k].jobs[id].notBefore == states[a].jobs[id].notBefore
    decreases k
  {
    if a < k {
      DelayStands(states, events, a, k - 1, id);
      assert Lawful(states[k - 1], events[k - 1]);
      DelayStep(states[k - 1], events[k - 1], id);
    }
  }

  lemma DelayStep(s: State, e: Event, id: string)
    requires id in s.jobs && Lawful(s, e) && !(e.FailEv? && e.job == id) && !(e.RetryEv? && e.job == id)
    ensures id in Apply(s, e).jobs && Apply(s, e).jobs[id].notBefore == s.jobs[id].notBefore
  {
  }

  /** After a failure report with delay `r` at time `n` that left attempts, and short of another failure or an
      operator's retry, no lease call before `n + r` grants the job, in any run. */
  lemma NoLeaseBeforeRetryTime(states: seq<State>, events: seq<Event>, a: nat, k: nat)
    requires Run(states, events) && a < k < |events| && events[a].FailEv? && events[k].LeaseEv?
    requires Held(states[a], events[a].job, events[a].owner) && events[a].seen < states[a].jobs[events[a].job].maxAttempts
    requires forall i :: a < i < k ==>
               !(events[i].FailEv? && events[i].job == events[a].job) && !(events[i].RetryEv? && events[i].job == events[a].job)
    requires events[k].now < events[a].now + events[a].retryAfter
    ensures events[a].job !in events[k].chosen
  {
    var e, id := events[a], events[a].job;
    assert Lawful(states[a], e) && states[a + 1] == Apply(states[a], e);
    DelayStands(states, events, a + 1, k, id);
    assert Lawful(states[k], events[k]);
    GrantsWaitingOnly(states[k], events[k].owner, events[k].limit, events[k].now, events[k].chosen, id);
  }

  /** What a failure report makes of the job its owner holds; nobody else's report does anything. */
  lemma FailureEffect(s: State, id: string, owner: string, seen: int, detail: string, retryAfter: int, now: int)
    ensures !(id in s.jobs && s.jobs[id].status == Running && s.jobs[id].leaseOwner == owner) ==>
              Fail(s, id, owner, seen, detail, retryAfter, now) == s
    ensures id in s.jobs && s.jobs[id].status == Running && s.jobs[id].leaseOwner == owner ==>
              var j, t := s.jobs[id], Fail(s, id, owner, seen, detail, retryAfter, now);
              && t.approvals == s.approvals && t.jobs.Keys == s.jobs.Keys && (forall x :: x in s.jobs && x != id ==> t.jobs[x] == s.jobs[x])
              && t.jobs[id].leaseOwner == "" && t.jobs[id].leaseUntil == None && t.jobs[id].lastError == detail
              && t.jobs[id].attempts == j.attempts && t.jobs[id].maxAttempts == j.maxAttempts
              && (j.maxAttempts <= seen ==> t.jobs[id].status == Failed && t.jobs[id].notBefore == now)
              && (seen < j.maxAttempts ==> t.jobs[id].status == Queued && t.jobs[id].notBefore == now + retryAfter)
  {
  }

  /** A completion takes effect for the holder alone; a restore that names an approval takes effect only if that
      approval is scheduled, and then uses it up. */
  lemma CompletionEffect(s: State, id: string, owner: string)
    ensures var t := Complete(s, id, owner);
            if !(id in s.jobs && s.jobs[id].status == Running && s.jobs[id].leaseOwner == owner) then t == s
            else
              var j := s.jobs[id];
              var done := j.(status := Succeeded, leaseOwner := "", leaseUntil := None, lastError := "");
              if j.kind == "restore-generation" && j.approval.Some? && j.approval.value != "" then
                var a := j.approval.value;
                if a in s.approvals && s.approvals[a].status == Scheduled
                then t == State(s.jobs[id := done], s.approvals[a := s.approvals[a].(status := Executed)])
                else t == s
              else t == s.(jobs := s.jobs[id := done])
  {
  }

  // --- Operator retries -------------------------------------------------------------------------

  /** A failed job whose work is not under way starts over: any worker that may run it can be granted it from that
      moment on, and as often as at first. */
  lemma RetriedRunsAgain(s: State, id: string, now: int, owner: string, later: int)
    requires id in s.jobs && s.jobs[id].status == Failed && 0 < s.jobs[id].maxAttempts && s.jobs[id].affinity in {"", owner}
    requires !Taken(s, s.jobs[id].kind, s.jobs[id].target, s.jobs[id].affinity)
    ensures id in Retry(s, id, now).jobs && Retry(s, id, now).jobs[id].lastError == ""
    ensures Retry(s, id, now).jobs[id].maxAttempts - Retry(s, id, now).jobs[id].attempts == s.jobs[id].maxAttempts
    ensures id in LeasableIds(Retry(s, id, now), owner, later) <==> now <= later
    ensures Retry(s, id, now).jobs[id].leaseOwner == "" && Retry(s, id, now).jobs[id].leaseUntil == None
  {
  }

  /** Nothing else can be retried. */
  lemma OthersAreNotRetried(s: State, id: string, now: int)
    requires id in s.jobs ==> s.jobs[id].status != Failed || Taken(s, s.jobs[id].kind, s.jobs[id].target, s.jobs[id].affinity)
    ensures Retry(s, id, now) == s
  {
  }

  /** An agent may file one kind of follow-up, for the target of the job it holds, and the follow-up is bound to it. */
  lemma FollowUpIff(s: State, parent: string, agent: string, child: Request)
    ensures Adopted(s, parent, agent, child).Some?
       <==> && parent in s.jobs && s.jobs[parent].status == Running && s.jobs[parent].leaseOwner == agent
            && child.kind == "mirror-gitlab" && child.target == s.jobs[parent].target
    ensures Adopted(s, parent, agent, child).Some? ==>
              var filed := Adopted(s, parent, agent, child).value;
              filed.affinity == agent && filed == child.(affinity := filed.affinity)
  {
  }

  // --- Approvals -----------------------------------------------------------------------------------

  /** What an approval call does: a pending request is granted to the actor in time, and expires once its deadline
      has come; under the distinct rule the requester's own call does nothing. */
  lemma ApprovalEffect(s: State, id: string, actor: string, distinct: bool, now: int)
    requires id in s.approvals
    ensures id in Approve(s, id, actor, distinct, now).approvals && Approve(s, id, actor, distinct, now).jobs == s.jobs
    ensures var a, b := s.approvals[id], Approve(s, id, actor, distinct, now).approvals[id];
            && (a.status != Pending ==> b == a)
            && (a.status == Pending && a.expires != 0 && a.expires <= now ==> b == a.(status := Expired))
            && (a.status == Pending && (a.expires == 0 || now < a.expires) ==>
                  if distinct && a.requestedBy == actor then b == a else b == a.(status := Approved, approvedBy := actor))
  {
  }

  /** Filing, scheduling, releasing and executing: each moves one approval from one status, or nothing. */
  lemma ApprovalMoves(s: State, id: string, content: Approval, now: int)
    ensures Create(s, id, content) == if id in s.approvals then s else s.(approvals := s.approvals[id := content])
    ensures var moves := id in s.approvals && s.approvals[id].status == Approved && now < s.approvals[id].expires;
            Schedule(s, id, now) == if moves then s.(approvals := s.approvals[id := s.approvals[id].(status := Scheduled)]) else s
    ensures Apply(s, ReleaseEv(id)) == if id in s.approvals && s.approvals[id].status == Scheduled
                                      then s.(approvals := s.approvals[id := s.approvals[id].(status := Approved)]) else s
    ensures Apply(s, ExecuteEv(id)) == if id in s.approvals && s.approvals[id].status == Scheduled
                                      then s.(approvals := s.approvals[id := s.approvals[id].(status := Executed)]) else s
  {
  }

  /** In every run from the empty store, an approval that was granted was granted in time, by the one on record;
      and one that expired was called on at or after its deadline. */
  lemma {:induction false} ApprovedInTime(states: seq<State>, events: seq<Event>, i: nat, a: string)
    requires ProperRun(states, events) && states[0] == EMPTY && i < |states| && a in states[i].approvals
    ensures states[i].approvals[a].status in {Approved, Scheduled, Executed} ==>
              exists k :: 0 <= k < i && events[k].ApproveEv? && events[k].approval == a
                          && events[k].actor == states[i].approvals[a].approvedBy
                          && (states[i].approvals[a].expires == 0 || events[k].now < states[i].approvals[a].expires)
    ensures states[i].approvals[a].status == Expired ==>
              exists k :: 0 <= k < i && events[k].ApproveEv? && events[k].approval == a
                          && states[i].approvals[a].expires != 0 && states[i].approvals[a].expires <= events[k].now
  {
    assert i > 0;
    var e := events[i - 1];
    assert e in events;
    if a in states[i - 1].approvals {
      ApprovedInTime(states, events, i - 1, a);
      ApprovalStep(states[i - 1], e, a);
    }
  }
}
