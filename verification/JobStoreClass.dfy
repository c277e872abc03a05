/** The store as an object whose tables are updated in place
    (internal/controlplane/sqlstore.go, in the class form of memory.go). */
module JobStoreClass {
  import opened Prelude
  import opened JobStore

  class Store {
    var jobs: map<string, Job>
    var approvals: map<string, Approval>

    ghost function Now(): State
      reads this
    {
      State(jobs, approvals)
    }

    constructor ()
      ensures Now() == EMPTY
    {
      jobs, approvals := map[], map[];
    }

    /** Finds the active job of a key. */
    method FindActive(kind: string, target: string, affinity: string) returns (found: Option<Job>)
      ensures found.Some? <==> Conflicts(Now(), kind, target, affinity)
      ensures found.Some? ==> found.value in jobs.Values && Active(found.value) && SameKey(found.value, kind, target, affinity)
    {
      found := None;
      var todo := jobs.Keys;
      while todo != {}
        invariant todo <= jobs.Keys
        invariant forall id :: id in jobs.Keys - todo ==> !(Active(jobs[id]) && SameKey(jobs[id], kind, target, affinity))
      {
        var id :| id in todo;
        if Active(jobs[id]) && SameKey(jobs[id], kind, target, affinity) {
          return Some(jobs[id]);
        }
        todo := todo - {id};
      }
    }

    method Enqueue(r: Request, id: string, now: int) returns (out: Result<(Job, bool), string>)
      modifies this`jobs
      ensures Now() == Apply(old(Now()), EnqueueEv(r, id, now))
      ensures Conflicts(old(Now()), r.kind, r.target, r.affinity) ==>
                && out.Success? && !out.value.1 && out.value.0 in old(jobs).Values && Active(out.value.0)
                && SameKey(out.value.0, r.kind, r.target, r.affinity)
      ensures !Conflicts(old(Now()), r.kind, r.target, r.affinity) ==>
                out == if id in old(jobs) then Failure("duplicate id") else Success((NewJob(r, id, now), true))
    {
      var found := FindActive(r.kind, r.target, r.affinity);
      if found.Some? {
        return Success((found.value, false));
      }
      if id in jobs {
        return Failure("duplicate id");
      }
      var j := NewJob(r, id, now);
      jobs := jobs[id := j];
      out := Success((j, true));
    }

    /** A job whose last allowed attempt ran out of lease time fails for good. */
    method ReapExpired(now: int)
      modifies this`jobs
      ensures jobs == map id | id in old(jobs) :: Reap(old(jobs)[id], now)
    {
      var todo := jobs.Keys;
      while todo != {}
        invariant todo <= jobs.Keys == old(jobs).Keys
        invariant forall id :: id in jobs ==> jobs[id] == if id in todo then old(jobs)[id] else Reap(old(jobs)[id], now)
      {
        var id :| id in todo;
        jobs := jobs[id := Reap(jobs[id], now)];
        todo := todo - {id};
      }
    }

    method Candidates(owner: string, now: int) returns (ids: set<string>)
      ensures ids == LeasableIds(Now(), owner, now)
    {
      ids := {};
      var todo := jobs.Keys;
      while todo != {}
        invariant todo <= jobs.Keys
        invariant ids == set id | id in jobs.Keys - todo && Leasable(jobs[id], owner, now)
      {
        var id :| id in todo;
        if Leasable(jobs[id], owner, now) {
          ids := ids + {id};
        }
        todo := todo - {id};
      }
    }

    /** A candidate that no other is ahead of. */
    method Foremost(ids: set<string>) returns (first: string)
      requires ids != {} && ids <= jobs.Keys
      ensures first in ids && forall id :: id in ids ==> !Ahead(jobs[id], jobs[first])
    {
      first :| first in ids;
      var todo := ids - {first};
      while todo != {}
        invariant todo <= ids && first in ids
        invariant forall id :: id in ids - todo ==> !Ahead(jobs[id], jobs[first])
      {
        var id :| id in todo;
        if Ahead(jobs[id], jobs[first]) {
          first := id;
        }
        todo := todo - {id};
      }
    }

    method TakeFirst(ids: set<string>, limit: int) returns (chosen: set<string>)
      requires ids <= jobs.Keys
      ensures chosen <= ids && |chosen| == Min(if limit <= 0 then 1 else limit, |ids|)
      ensures forall a, b :: a in ids - chosen && b in chosen ==> !Ahead(jobs[a], jobs[b])
    {
      chosen := {};
      var left := ids;
      var want := Min(if limit <= 0 then 1 else limit, |ids|);
      while |chosen| < want
        invariant chosen + left == ids && chosen !! left
        invariant |chosen| <= want
        invariant forall a, b :: a in left && b in chosen ==> !Ahead(jobs[a], jobs[b])
        decreases want - |chosen|
      {
        assert |ids| == |chosen| + |left|;
        var next := Foremost(left);
        chosen, left := chosen + {next}, left - {next};
      }
      assert ids - chosen == left;
    }

    method GrantAll(chosen: set<string>, owner: string, until: int)
      requires chosen <= jobs.Keys
      modifies this`jobs
      ensures jobs == map id | id in old(jobs) :: if id in chosen then Grant(old(jobs)[id], owner, until) else old(jobs)[id]
    {
      var todo := chosen;
      while todo != {}
        invariant todo <= chosen && jobs.Keys == old(jobs).Keys
        invariant forall id :: id in jobs ==>
          jobs[id] == if id in chosen - todo then Grant(old(jobs)[id], owner, until) else old(jobs)[id]
      {
        var id :| id in todo;
        jobs := jobs[id := Grant(jobs[id], owner, until)];
        todo := todo - {id};
      }
    }

    method Lease(owner: string, limit: int, until: int, now: int) returns (chosen: set<string>)
      modifies this`jobs
      ensures LeaseChoice(old(Now()), owner, limit, now, chosen)
      ensures Now() == Apply(old(Now()), LeaseEv(owner, limit, until, now, chosen))
    {
      ReapExpired(now);
      ReapedLeasable(old(jobs), jobs, owner, now, approvals);
      var ids := Candidates(owner, now);
      chosen := TakeFirst(ids, limit);
      assert forall id :: id in ids ==> jobs[id] == old(jobs)[id];
      GrantAll(chosen, owner, until);
    }

    method Complete(id: string, owner: string) returns (ok: bool)
      modifies this
      ensures Now() == Apply(old(Now()), CompleteEv(id, owner))
      ensures ok <==> Now() != old(Now())
    {
      if id !in jobs || jobs[id].status != Running || jobs[id].leaseOwner != owner {
        return false;
      }
      var j := jobs[id];
      if j.kind == RESTORE && j.approval.Some? && j.approval.value != "" {
        var a := j.approval.value;
        if a !in approvals || approvals[a].status != Scheduled {
          return false;
        }
        approvals := approvals[a := approvals[a].(status := Executed)];
      }
      jobs := jobs[id := j.(status := Succeeded, leaseOwner := "", leaseUntil := None, lastError := "")];
      assert jobs[id].status != old(jobs)[id].status;
      ok := true;
    }

    /** The read of a failure report, the first of its two statements. */
    method ReadAttempts(id: string, owner: string) returns (seen: Option<int>)
      ensures seen == if Held(Now(), id, owner) then Some(jobs[id].attempts) else None
    {
      seen := if id in jobs && jobs[id].status == Running && jobs[id].leaseOwner == owner
              then Some(jobs[id].attempts) else None;
    }

    /** The write of a failure report, the second of its two statements. */
    method WriteFailure(id: string, owner: string, seen: int, detail: string, retryAfter: int, now: int) returns (ok: bool)
      modifies this`jobs
      ensures Now() == JobStore.Fail(old(Now()), id, owner, seen, detail, retryAfter, now)
      ensures ok <==> Held(old(Now()), id, owner)
    {
      if id !in jobs || jobs[id].status != Running || jobs[id].leaseOwner != owner {
        return false;
      }
      var status, notBefore := Queued, now + retryAfter;
      if seen >= jobs[id].maxAttempts {
        status, notBefore := JobStatus.Failed, now;
      }
      jobs := jobs[id := jobs[id].(status := status, notBefore := notBefore, leaseOwner := "",
                                   leaseUntil := None, lastError := detail)];
      ok := true;
    }

    /** A failure report that nothing comes between: the holder's job fails for good exactly on its final
        attempt and waits for another one otherwise; nobody else's report has any effect. */
    method Fail(id: string, owner: string, detail: string, retryAfter: int, now: int) returns (ok: bool)
      modifies this`jobs
      ensures ok <==> Held(old(Now()), id, owner)
      ensures !ok ==> Now() == old(Now())
      ensures ok ==>
                var before := old(jobs)[id];
                && id in jobs && jobs == old(jobs)[id := jobs[id]]
                && jobs[id] == before.(status := jobs[id].status, notBefore := jobs[id].notBefore, leaseOwner := "",
                                       leaseUntil := None, lastError := detail)
                && (jobs[id].status == JobStatus.Failed <==> before.attempts >= before.maxAttempts)
                && (jobs[id].status == JobStatus.Failed || (jobs[id].status == Queued && jobs[id].notBefore == now + retryAfter))
    {
      var seen := ReadAttempts(id, owner);
      if seen.None? {
        return false;
      }
      ok := WriteFailure(id, owner, seen.value, detail, retryAfter, now);
    }

    method RetryJob(id: string, now: int) returns (ok: bool)
      modifies this`jobs
      ensures Now() == Apply(old(Now()), RetryEv(id, now))
      ensures ok <==> Now() != old(Now())
    {
      if id !in jobs || jobs[id].status != JobStatus.Failed {
        return false;
      }
      var j := jobs[id];
      var clash := FindActive(j.kind, j.target, j.affinity);
      if clash.Some? {
        return false;
      }
      jobs := jobs[id := j.(status := Queued, attempts := 0, notBefore := now, leaseOwner := "",
                            leaseUntil := None, lastError := "")];
      assert jobs[id].status != old(jobs)[id].status;
      ok := true;
    }

    method CreateRestoreApproval(id: string, a: Approval) returns (ok: bool)
      modifies this`approvals
      ensures Now() == Apply(old(Now()), CreateEv(id, a)) && (ok <==> id !in old(approvals))
    {
      if id in approvals {
        return false;
      }
      approvals := approvals[id := a];
      ok := true;
    }

    method ApproveRestore(id: string, actor: string, distinct: bool, now: int) returns (ok: bool)
      modifies this`approvals
      ensures Now() == Apply(old(Now()), ApproveEv(id, actor, distinct, now))
      ensures ok <==> id in old(approvals) && old(approvals)[id].status == Pending && approvals[id].status == Approved
    {
      if id !in approvals || approvals[id].status != Pending {
        return false;
      }
      var a := approvals[id];
      if a.expires != 0 && a.expires <= now {
        approvals := approvals[id := a.(status := Expired)];
        return false;
      }
      if distinct && a.requestedBy == actor {
        return false;
      }
      approvals := approvals[id := a.(status := Approved, approvedBy := actor)];
      ok := true;
    }

    method ScheduleRestore(id: string, now: int) returns (ok: bool)
      modifies this`approvals
      ensures Now() == Apply(old(Now()), ScheduleEv(id, now)) && (ok <==> Now() != old(Now()))
    {
      if id !in approvals || approvals[id].status != Approved || approvals[id].expires <= now {
        return false;
      }
      approvals := approvals[id := approvals[id].(status := Scheduled)];
      assert approvals[id].status != old(approvals)[id].status;
      ok := true;
    }

    method ReleaseRestoreSchedule(id: string) returns (ok: bool)
      modifies this`approvals
      ensures Now() == Apply(old(Now()), ReleaseEv(id)) && (ok <==> Now() != old(Now()))
    {
      if id !in approvals || approvals[id].status != Scheduled {
        return false;
      }
      approvals := approvals[id := approvals[id].(status := Approved)];
      assert approvals[id].status != old(approvals)[id].status;
      ok := true;
    }

    method MarkRestoreExecuted(id: string) returns (ok: bool)
      modifies this`approvals
      ensures Now() == Apply(old(Now()), ExecuteEv(id)) && (ok <==> Now() != old(Now()))
    {
      if id !in approvals || approvals[id].status != Scheduled {
        return false;
      }
      approvals := approvals[id := approvals[id].(status := Executed)];
      assert approvals[id].status != old(approvals)[id].status;
      ok := true;
    }
  }

  /** Reaping neither adds nor removes leasable jobs, nor changes them. */
  lemma ReapedLeasable(before: map<string, Job>, after: map<string, Job>, owner: string, now: int, approvals: map<string, Approval>)
    requires after == map id | id in before :: Reap(before[id], now)
    ensures LeasableIds(State(after, approvals), owner, now) == LeasableIds(State(before, approvals), owner, now)
    ensures forall id :: id in LeasableIds(State(before, approvals), owner, now) ==> after[id] == before[id]
  {
  }
}
