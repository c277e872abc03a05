/** When a generation is sent to an agent that a job is already placing it on
    (internal/controlplane/replication.go, agent_server.go). */
module SecondTransfer {
  import opened Prelude
  import opened Ordering
  import opened Agents
  import opened JobListing
  import opened Replication
  import opened ReplicationAgreement
  import JobStore

  lemma {:induction false} TransfersIff(sources: seq<string>, targets: seq<string>, need: nat, busy: set<string>, id: string)
    requires sources != [] && need <= |targets|
    ensures (exists t :: t in Transfers(sources, targets, need, busy) && t.target == id) <==> id in targets[..need] && id !in busy
  {
    if need > 0 {
      var i := need - 1;
      TransfersIff(sources, targets, i, busy, id);
      assert targets[..need] == targets[..i] + [targets[i]];
      var last := Transfer(sources[i % |sources|], targets[i]);
      if targets[i] !in busy {
        assert last in Transfers(sources, targets, need, busy);
      }
    }
  }

  /** A chosen target gets a transfer unless a listed job has exactly the generation and the agent for its target:
      a running install job does not keep a second transfer away. */
  lemma PlannedIff(v: View, generation: string, reps: seq<Replica>, jobs: seq<Filed>,
                   sources: seq<string>, targets: seq<string>, plan: seq<Transfer>, id: string)
    requires Plan(v, reps, BusyAgents(v, generation, jobs), sources, targets, plan)
    requires !Satisfied(v, reps) && SourceIds(v, reps) != {} && id in Chosen(v, reps, targets)
    ensures (exists t :: t in plan && t.target == id)
       <==> forall e :: e in Page(jobs, 10000) && e.kind in PLACING && Busy(e) ==> e.target != generation + "@" + id
  {
    var need := Min(Need(v, reps), |targets|);
    TransfersIff(sources, targets, need, BusyAgents(v, generation, jobs), id);
    assert id in targets;
    assert id in Eligible(v);
    BusyIff(v, generation, jobs, id);
  }

  // --- A table in which it happens ------------------------------------------------------------

  const A := "a"
  const B := "b"

  function Site(id: string): Agent {
    Agent(id, None, "key", HEALTHY, 0, 0, 0.0, 0)
  }

  /** Two healthy agents; two copies are wanted. */
  function Fleet(): View {
    View(map[A := Site(A), B := Site(B)], Site(LOCAL),
         Config(2, 1, "", 0, [], [], false, 10, k => true), StorageConfig(true, 0, 0.0, false), 0)
  }

  const ROWS := [Replica(A, true, 1)]

  /** The source has finished; what it sent is being installed on `b`. */
  const JOBS := [Filed("install-replica", "g@b@t", JobStore.Running, 0), Filed("replicate-generation", "g@b", JobStore.Succeeded, 0)]

  lemma Names()
    ensures A != B && A != LOCAL && B != LOCAL && TrimSpace("key") != "" && TrimSpace(HEALTHY) != ""
    ensures "g" + "@" + B == "g@b" && "g@b@t" != "g@b"
  {
    assert A[0] != B[0] && LOCAL[0] == '_';
  }

  lemma Sound(id: string)
    requires id == A || id == B
    ensures id in Fleet().agents && Reachable(Fleet(), id)
    ensures AcceptsPlacement(Fleet().agents[id], Fleet().storage) && CountsDurable(Fleet().agents[id], Fleet().storage)
  {
    Names();
  }

  lemma Fleets()
    ensures Eligible(Fleet()) == Fleet().agents && Sources(Fleet()) == Fleet().agents && Admitted(Fleet()) == Fleet().agents
  {
    Sound(A);
    Sound(B);
    var v := Fleet();
    assert EligibleIds(v) == {A, B} && ReachableIds(v) == {A, B} && AllowedIds(v) == {A, B};
  }

  lemma Standing()
    ensures Holders(ROWS) == {A} && Ready(Fleet(), ROWS) == {A} && Eligible(Fleet()).Keys == {A, B} && Sources(Fleet()).Keys == {A, B}
  {
    Fleets();
    assert ROWS[0] in ROWS;
    assert Holders(ROWS) == {A};
    Sound(A);
  }

  lemma NotTheTarget(id: string)
    requires |id| != 3
    ensures "g@b@t" != "g" + "@" + id
  {
    assert |"g" + "@" + id| == 2 + |id|;
  }

  lemma NobodyIsBusy()
    ensures BusyAgents(Fleet(), "g", JOBS) == {}
  {
    assert Page(JOBS, 10000) == JOBS && |LOCAL| > 3;
    forall id | id in {A, B, LOCAL} ensures id !in BusyAgents(Fleet(), "g", JOBS) {
      NotTheTarget(id);
    }
  }

  lemma OneTransfer(a: string, b: string)
    ensures Transfers([a], [b], 1, {}) == [Transfer(a, b)]
  {
    assert Transfers([a], [b], 0, {}) == [];
  }

  lemma OneArranged(x: string, less: (string, string) -> bool)
    ensures Arranges([x], {x}, less)
  {
  }

  lemma NeedIsOne(v: View, reps: seq<Replica>)
    requires v.cfg.factor == 2 && v.cfg.minHealthy == 1 && !DomainsWanted(v.cfg)
    requires |Ready(v, reps)| == 1 && |HealthyReady(v, reps)| == 1
    ensures Need(v, reps) == 1 && !Satisfied(v, reps)
  {
  }

  /** One copy of two is missing, and one agent can take it. */
  lemma OneOrder(v: View, reps: seq<Replica>, a: string, b: string)
    requires Need(v, reps) == 1 && !Satisfied(v, reps) && SourceIds(v, reps) == {a} && TargetIds(v, reps) == {b}
    ensures Plan(v, reps, {}, [a], [b], [Transfer(a, b)])
  {
    OneTransfer(a, b);
    OneArranged(a, SourceOrder(Sources(v), v.storage));
    OneArranged(b, TargetOrder(Eligible(v), v.cfg.domainLabel, HealthyDomains(v, reps)));
  }

  lemma TargetIsB()
    ensures TargetIds(Fleet(), ROWS) == {B}
  {
    Names();
    Standing();
    Fleets();
    Sound(B);
    assert HasCapacityFor(Fleet().agents[B], Fleet().storage, GenerationBytes(ROWS));
  }

  lemma Standings()
    ensures |Ready(Fleet(), ROWS)| == 1 && |HealthyReady(Fleet(), ROWS)| == 1
    ensures SourceIds(Fleet(), ROWS) == {A} && TargetIds(Fleet(), ROWS) == {B}
  {
    Standing();
    TargetIsB();
    assert HealthyReady(Fleet(), ROWS) == {A};
  }

  lemma InOrder()
    ensures Wellformed(Fleet()) && Keyed(ROWS) && JOBS[0] in Page(JOBS, 10000) && Busy(JOBS[0])
  {
    Names();
    assert Page(JOBS, 10000) == JOBS && JOBS[0] in JOBS;
  }

  lemma Missing()
    ensures Need(Fleet(), ROWS) == 1 && !Satisfied(Fleet(), ROWS)
  {
    Standings();
    NeedIsOne(Fleet(), ROWS);
  }

  lemma PlannedFor(v: View, reps: seq<Replica>, busy: set<string>, a: string, b: string)
    requires busy == {} && Need(v, reps) == 1 && !Satisfied(v, reps) && SourceIds(v, reps) == {a} && TargetIds(v, reps) == {b}
    ensures Plan(v, reps, busy, [a], [b], [Transfer(a, b)])
  {
    OneOrder(v, reps, a, b);
  }

  /** A running install job on `b`, and the reconciler sends `b` the generation again. */
  lemma SentTwice(v: View, jobs: seq<Filed>)
    requires v == Fleet() && jobs == JOBS
    ensures Wellformed(v) && Keyed(ROWS) && JOBS[0] in Page(jobs, 10000) && Busy(JOBS[0])
    ensures Plan(v, ROWS, BusyAgents(v, "g", jobs), [A], [B], [Transfer(A, B)])
  {
    InOrder();
    Missing();
    Standings();
    NobodyIsBusy();
    PlannedFor(v, ROWS, BusyAgents(v, "g", jobs), A, B);
  }
}
