/** Failure reports that overlap, jobs that nobody can finish, and what agents may file
    (internal/controlplane/sqlstore.go, Fail; internal/controlplane/agent_server.go, enqueue). */
module JobFailures {
  import opened Prelude
  import opened JobStore
  import opened JobStoreRuns

  // --- Stale reads ------------------------------------------------------------------

  /** The owner was granted the job again between the read of report `i` and its write. */
  ghost predicate Regranted(events: seq<Event>, i: nat)
    requires i < |events| && events[i].FailEv?
  {
    exists k :: events[i].read < k < i && GrantsTo(events[k], events[i].job, events[i].owner)
  }

  /** An operator reset the job in between. */
  ghost predicate Reset(events: seq<Event>, i: nat)
    requires i < |events| && events[i].FailEv?
  {
    exists k :: events[i].read < k < i && events[k].RetryEv? && events[k].job == events[i].job
  }

  lemma AttemptsStep(s: State, e: Event, id: string)
    requires id in s.jobs && Lawful(s, e)
    ensures id in Apply(s, e).jobs
    ensures Apply(s, e).jobs[id].maxAttempts == s.jobs[id].maxAttempts
    ensures !(e.RetryEv? && e.job == id) ==>
              Apply(s, e).jobs[id].attempts == s.jobs[id].attempts + if e.LeaseEv? && id in e.chosen then 1 else 0
  {
  }

  lemma {:induction false} AttemptsGrow(states: seq<State>, events: seq<Event>, a: nat, b: nat, id: string, owner: string)
    requires Run(states, events) && a <= b < |states| && id in states[a].jobs
    requires forall k :: a <= k < b ==> !(events[k].RetryEv? && events[k].job == id)
    ensures id in states[b].jobs && states[a].jobs[id].attempts <= states[b].jobs[id].attempts
    ensures (exists k :: a <= k < b && GrantsTo(events[k], id, owner)) ==> states[a].jobs[id].attempts < states[b].jobs[id].attempts
    decreases b
  {
    if a < b {
      AttemptsGrow(states, events, a, b - 1, id, owner);
      assert Lawful(states[b - 1], events[b - 1]);
      AttemptsStep(states[b - 1], events[b - 1], id);
    }
  }

  /** While an owner is not granted a job again, holding it means that its attempts are the old ones. */
  lemma {:induction false} HeldUnchanged(states: seq<State>, events: seq<Event>, a: nat, b: nat, id: string, owner: string)
    requires Run(states, events) && a <= b < |states| && Held(states[a], id, owner) && owner != ""
    requires forall k :: a <= k < b ==> !GrantsTo(events[k], id, owner)
    ensures id in states[b].jobs
    ensures states[b].jobs[id].leaseOwner == owner ==> states[b].jobs[id].attempts == states[a].jobs[id].attempts
    decreases b
  {
    if a < b {
      HeldUnchanged(states, events, a, b - 1, id, owner);
      var s, e := states[b - 1], events[b - 1];
      assert Lawful(s, e);
      AttemptsStep(s, e, id);
      if s.jobs[id].leaseOwner != owner {
        NotGrantedNotOwner(s, e, id, owner);
      }
    }
  }

  /** A failure report whose write takes effect judges by a current attempt count unless its owner was
      granted the same job again in between. Leases are fenced per owner, so that can happen: with no
      operator retry in between, the count is stale exactly in that case, and then too low. */
  lemma ReadStaleIffRegranted(states: seq<State>, events: seq<Event>, i: nat)
    requires ProperRun(states, events) && i < |events| && events[i].FailEv?
    requires Held(states[i], events[i].job, events[i].owner)
    ensures var e, attempts := events[i], states[i].jobs[events[i].job].attempts;
            && (!Regranted(events, i) ==> e.seen == attempts)
            && (!Reset(events, i) ==> (e.seen != attempts <==> Regranted(events, i)) && e.seen <= attempts)
  {
    var e := events[i];
    assert e in events && FromRead(states, events, i);
    var id, owner, a := e.job, e.owner, e.read;
    assert events[a].ReadEv?;
    if !Regranted(events, i) {
      HeldUnchanged(states, events, a, i, id, owner);
    }
    if !Reset(events, i) {
      AttemptsGrow(states, events, a, i, id, owner);
      if Regranted(events, i) {
        var k :| a < k < i && GrantsTo(events[k], id, owner);
      }
    }
  }

  /** A queued job without attempts left. */
  predicate Stranded(s: State, id: string) {
    id in s.jobs && s.jobs[id].status == Queued && s.jobs[id].attempts >= s.jobs[id].maxAttempts
  }

  /** What the report does to the job: unless its owner was granted the job again since the read, the job
      fails exactly on its final attempt; and, short of an operator retry, the report strands the job
      exactly when this is the final attempt and the owner was granted it since the read. */
  lemma FailureStrandsIff(states: seq<State>, events: seq<Event>, i: nat)
    requires ProperRun(states, events) && Inv(states[0]) && i < |events| && events[i].FailEv?
    requires Held(states[i], events[i].job, events[i].owner)
    ensures var id, before := events[i].job, states[i].jobs[events[i].job];
            && id in states[i + 1].jobs
            && (!Regranted(events, i) ==>
                  (states[i + 1].jobs[id].status == Failed <==> before.attempts == before.maxAttempts) && !Stranded(states[i + 1], id))
            && (!Reset(events, i) ==>
                  (Stranded(states[i + 1], id) <==> before.attempts == before.maxAttempts && Regranted(events, i)))
  {
    RunKeepsInv(states, events, i);
    ReadStaleIffRegranted(states, events, i);
    assert SoundJob(states[i].jobs[events[i].job]);
  }

  // --- Jobs that nobody can finish ------------------------------------------------------

  /** A stranded job never changes again in any run, not even on an operator's retry, and its key
      can never be enqueued anew. */
  lemma {:induction false} StrandedForever(states: seq<State>, events: seq<Event>, a: nat, b: nat, id: string,
                                           r: Request, newId: string, now: int)
    requires Run(states, events) && a <= b < |states| && Stranded(states[a], id)
    requires SameKey(states[a].jobs[id], r.kind, r.target, r.affinity)
    ensures id in states[b].jobs && states[b].jobs[id] == states[a].jobs[id]
    ensures Enqueue(states[b], r, newId, now) == states[b]
    decreases b
  {
    if a < b {
      StrandedForever(states, events, a, b - 1, id, r, newId, now);
      assert Lawful(states[b - 1], events[b - 1]);
      StrandedStep(states[b - 1], events[b - 1], id);
    }
    assert id in states[b].jobs && Active(states[b].jobs[id]);
  }

  lemma StrandedStep(s: State, e: Event, id: string)
    requires Stranded(s, id) && Lawful(s, e)
    ensures id in Apply(s, e).jobs && Apply(s, e).jobs[id] == s.jobs[id]
  {
    if e.LeaseEv? {
      assert !Leasable(s.jobs[id], e.owner, e.now);
    }
  }

  /** A job filed as running, which no lease stands behind. */
  predicate Unowned(s: State, id: string) {
    id in s.jobs && s.jobs[id].status == Running && s.jobs[id].leaseOwner == "" && s.jobs[id].leaseUntil.None?
  }

  /** Nobody can complete, fail, lease, reap or retry such a job, and its key stays taken. */
  lemma {:induction false} UnownedForever(states: seq<State>, events: seq<Event>, a: nat, b: nat, id: string,
                                          r: Request, newId: string, now: int)
    requires Run(states, events) && a <= b < |states| && Unowned(states[a], id)
    requires forall e :: e in events ==> (e.CompleteEv? || e.FailEv? ==> e.owner != "")
    requires SameKey(states[a].jobs[id], r.kind, r.target, r.affinity)
    ensures id in states[b].jobs && states[b].jobs[id] == states[a].jobs[id]
    ensures Enqueue(states[b], r, newId, now) == states[b]
    decreases b
  {
    if a < b {
      UnownedForever(states, events, a, b - 1, id, r, newId, now);
      assert events[b - 1] in events;
      assert Lawful(states[b - 1], events[b - 1]);
      UnownedStep(states[b - 1], events[b - 1], id);
    }
    assert id in states[b].jobs && Active(states[b].jobs[id]);
  }

  lemma UnownedStep(s: State, e: Event, id: string)
    requires Unowned(s, id) && Lawful(s, e) && (e.CompleteEv? || e.FailEv? ==> e.owner != "")
    ensures id in Apply(s, e).jobs && Apply(s, e).jobs[id] == s.jobs[id]
  {
    if e.LeaseEv? {
      assert !Leasable(s.jobs[id], e.owner, e.now);
    }
  }

  // --- Runs that end in such states -------------------------------------------------------

  const WORKER := "worker"
  const REQUEST := Request(BACKUP, "repo", "", None, None, None, 0, 0, 2, None)

  /** The lease call that takes the only job there is. */
  lemma OnlyChoice(s: State, id: string, owner: string, now: int)
    requires s.jobs.Keys == {id} && Leasable(s.jobs[id], owner, now)
    ensures LeaseChoice(s, owner, 1, now, {id})
    ensures id in Lease(s, owner, now + 10, now, {id}).jobs && Lease(s, owner, now + 10, now, {id}).jobs.Keys == {id}
    ensures Lease(s, owner, now + 10, now, {id}).jobs[id] == Grant(Reap(s.jobs[id], now), owner, now + 10)
  {
    assert LeasableIds(s, owner, now) == {id};
  }

  /** What a failure report must rest on, in a run that it ends. */
  ghost predicate Rests(states: seq<State>, events: seq<Event>, e: Event)
    requires |events| < |states| && e.FailEv?
  {
    && e.read < |events| && events[e.read] == ReadEv(e.job, e.owner)
    && Held(states[e.read], e.job, e.owner) && e.seen == states[e.read].jobs[e.job].attempts
  }

  /** A run grows by any lawful call; a failure report must rest on a read. */
  lemma RunGrows(states: seq<State>, events: seq<Event>, e: Event)
    requires Run(states, events) && Lawful(states[|events|], e) && (e.FailEv? ==> Rests(states, events, e))
    ensures Run(states + [Apply(states[|events|], e)], events + [e])
  {
    var now, all := states + [Apply(states[|events|], e)], events + [e];
    forall i | 0 <= i < |all| ensures Lawful(now[i], all[i]) && now[i + 1] == Apply(now[i], all[i]) {
      if i < |events| {
        assert Lawful(states[i], events[i]);
      }
    }
    forall i | 0 <= i < |all| && all[i].FailEv? ensures FromRead(now, all, i) {
      if i < |events| {
        assert FromRead(states, events, i);
      }
    }
  }

  lemma Extended(states: seq<State>, events: seq<Event>, e: Event) returns (now: seq<State>)
    requires ProperRun(states, events) && Lawful(states[|events|], e) && Proper(e) && (e.FailEv? ==> Rests(states, events, e))
    ensures ProperRun(now, events + [e]) && |now| == |states| + 1 && now[..|states|] == states
    ensures now[|states|] == Apply(states[|events|], e)
  {
    RunGrows(states, events, e);
    now := states + [Apply(states[|events|], e)];
  }

  /** One job, leased by the worker. */
  lemma FirstLease() returns (states: seq<State>, events: seq<Event>)
    ensures ProperRun(states, events) && states[0] == EMPTY && |events| == 2
    ensures states[2].jobs.Keys == {"j"} && states[2].jobs["j"] == Grant(NewJob(REQUEST, "j", 0), WORKER, 10)
  {
    var e := EnqueueEv(REQUEST, "j", 0);
    assert [] + [e] == [e];
    states := Extended([EMPTY], [], e);
    assert states[0] == states[..1][0];
    states, events := LeasedAgain(states, [e], 0);
    assert states[0] == states[..2][0];
  }

  /** Two attempts allowed, two workers that share one name. The first reads its report, loses the lease
      to the second, and writes: the job is queued with no attempt left. */
  lemma StrandingRun() returns (states: seq<State>, events: seq<Event>)
    ensures ProperRun(states, events) && states[0] == EMPTY && |events| == 5
    ensures events[4].FailEv? && Held(states[4], "j", WORKER) && Regranted(events, 4) && Stranded(states[5], "j")
  {
    var s, es := FirstLease();
    var read := ReadEv("j", WORKER);
    var s' := Extended(s, es, read);
    var es' := es + [read];
    assert s'[..3][0] == s[0] && s'[..3][2] == s[2];
    var t, fs := LeasedAgain(s', es', 10);
    assert t[..4][0] == s'[0] && t[..4][2] == s'[2] && fs[..3][2] == read;
    states, events := LateReport(t, fs);
    assert states[..5][0] == t[0];
  }

  /** The report at the end. */
  lemma LateReport(t: seq<State>, fs: seq<Event>) returns (states: seq<State>, events: seq<Event>)
    requires ProperRun(t, fs) && |fs| == 4 && fs[2] == ReadEv("j", WORKER) && GrantsTo(fs[3], "j", WORKER)
    requires Held(t[2], "j", WORKER) && t[2].jobs["j"].attempts == 1
    requires Held(t[4], "j", WORKER) && t[4].jobs["j"].attempts == 2 == t[4].jobs["j"].maxAttempts
    ensures ProperRun(states, events) && |states| == 6 && states[..5] == t && |events| == 5
    ensures events[4].FailEv? && Held(states[4], "j", WORKER) && Regranted(events, 4) && Stranded(states[5], "j")
  {
    var e := FailEv("j", WORKER, 2, 1, "late", 2, 11);
    states := Extended(t, fs, e);
    events := fs + [e];
    assert states[..5][4] == t[4] && events[3] == fs[3];
  }

  /** The only job of a store is leased, by the same worker as before if its lease has run out. */
  lemma LeasedAgain(before: seq<State>, done: seq<Event>, now: int) returns (states: seq<State>, events: seq<Event>)
    requires ProperRun(before, done) && before[|done|].jobs.Keys == {"j"} && Leasable(before[|done|].jobs["j"], WORKER, now)
    ensures ProperRun(states, events) && |states| == |before| + 1 && |events| == |done| + 1
    ensures states[..|before|] == before && events[..|done|] == done && GrantsTo(events[|done|], "j", WORKER)
    ensures states[|before|].jobs.Keys == {"j"}
    ensures states[|before|].jobs["j"] == Grant(before[|done|].jobs["j"], WORKER, now + 10)
  {
    var s, e := before[|done|], LeaseEv(WORKER, 1, now + 10, now, {"j"});
    OnlyChoice(s, "j", WORKER, now);
    states := Extended(before, done, e);
    events := done + [e];
  }

  /** A follow-up whose text calls it running. */
  const CHILD := Request(MIRROR, "repo", WORKER, None, None, Some(Running), 0, 0, 2, None)

  /** An agent files it for a job it holds, and the store is left with a job that nobody can finish. */
  lemma UnownedRun() returns (states: seq<State>, events: seq<Event>)
    ensures Run(states, events) && states[0] == EMPTY && |states| == 4
    ensures Adopted(states[2], "j", WORKER, CHILD) == Some(CHILD) && events[2] == EnqueueEv(CHILD, "child", 1)
    ensures Inv(states[2]) && !Inv(states[3]) && Unowned(states[3], "child")
  {
    var s, es := FirstLease();
    RunKeepsInv(s, es, 2);
    var e := EnqueueEv(CHILD, "child", 1);
    RunGrows(s, es, e);
    states, events := s + [Apply(s[2], e)], es + [e];
    FiledRunning(s[2]);
  }

  lemma FiledRunning(s: State)
    requires s.jobs.Keys == {"j"} && s.jobs["j"].kind == BACKUP
    ensures var t := Enqueue(s, CHILD, "child", 1); Unowned(t, "child") && !Inv(t)
  {
    assert BACKUP[0] != MIRROR[0];
    var t := Enqueue(s, CHILD, "child", 1);
    assert t.jobs["child"] == NewJob(CHILD, "child", 1) && !SoundJob(t.jobs["child"]);
  }
}
