/** A replication round and its report in terms of agents, rows and jobs: which copies count, who may send and who may
    receive, in which order, and exactly which transfers are queued (internal/controlplane/replication.go). */
module ReplicaFacts {
  import opened Prelude
  import opened Finite
  import opened Ordering
  import opened Agents
  import opened JobListing
  import opened Replication
  import opened ReplicationAgreement
  import opened SecondTransfer
  import JobStore

  // --- Who counts -------------------------------------------------------------------------------

  ghost predicate HasCopy(reps: seq<Replica>, id: string) {
    exists r :: r in reps && r.ready && r.agent == id
  }

  /** The probe of this host stands in for a row of its own. */
  function Standing(v: View, id: string): Agent
    requires id in v.agents || id == LOCAL
  {
    if id == LOCAL then v.local else v.agents[id]
  }

  predicate TakesPart(v: View, id: string) {
    (id in v.agents && Allowed(id, v.cfg.allowed, v.cfg.excluded)) || (id == LOCAL && v.cfg.includeLocal)
  }

  /** Seen within the timeout and with a key that can be read; this host always is. */
  predicate Answers(v: View, id: string) {
    && TakesPart(v, id)
    && (id != LOCAL ==> && v.now <= v.agents[id].lastSeen + v.cfg.timeout
                        && TrimSpace(v.agents[id].publicKey) != "" && v.cfg.validKey(v.agents[id].publicKey))
  }

  predicate Receives(v: View, id: string) {
    Answers(v, id) && AcceptsPlacement(Standing(v, id), v.storage)
  }

  lemma MembersIff(v: View, id: string)
    requires Wellformed(v)
    ensures id in Admitted(v) <==> TakesPart(v, id)
    ensures id in Sources(v) <==> Answers(v, id)
    ensures id in Eligible(v) <==> Receives(v, id)
    ensures id in Admitted(v) ==> Admitted(v)[id] == Standing(v, id)
    ensures id in Sources(v) ==> Sources(v)[id] == Standing(v, id)
    ensures id in Eligible(v) ==> Eligible(v)[id] == Standing(v, id)
  {
  }

  /** A copy counts on an agent that takes part; when degraded storage is being emptied, only on durable storage. */
  ghost predicate Counts(v: View, reps: seq<Replica>, id: string) {
    && HasCopy(reps, id) && TakesPart(v, id)
    && (v.storage.evacuateDegraded ==> CountsDurable(Standing(v, id), v.storage))
  }

  ghost predicate HealthyCopy(v: View, reps: seq<Replica>, id: string) {
    HasCopy(reps, id) && Receives(v, id)
  }

  lemma CopiesIff(v: View, reps: seq<Replica>, id: string)
    requires Wellformed(v)
    ensures id in Ready(v, reps) <==> Counts(v, reps, id)
    ensures id in HealthyReady(v, reps) <==> HealthyCopy(v, reps, id)
    ensures id in SourceIds(v, reps) <==> HasCopy(reps, id) && Answers(v, id)
  {
    MembersIff(v, id);
  }

  lemma DomainsIff(v: View, reps: seq<Replica>, d: string)
    requires Wellformed(v)
    ensures d in HealthyDomains(v, reps)
       <==> d != "" && exists id :: HealthyCopy(v, reps, id) && FailureDomain(Standing(v, id), v.cfg.domainLabel) == d
  {
    if d in HealthyDomains(v, reps) {
      var id :| id in HealthyReady(v, reps) && FailureDomain(Eligible(v)[id], v.cfg.domainLabel) == d;
      CopiesIff(v, reps, id);
      MembersIff(v, id);
    }
    if id :| d != "" && HealthyCopy(v, reps, id) && FailureDomain(Standing(v, id), v.cfg.domainLabel) == d {
      CopiesIff(v, reps, id);
      MembersIff(v, id);
    }
  }

  // --- Room ----------------------------------------------------------------------------------------

  /** The largest size any row reports. */
  ghost predicate Largest(reps: seq<Replica>, n: int) {
    0 <= n && (forall r :: r in reps ==> r.bytes <= n) && (n == 0 || exists r :: r in reps && r.bytes == n)
  }

  lemma {:induction false} GenerationIsLargest(reps: seq<Replica>)
    ensures Largest(reps, GenerationBytes(reps))
  {
    if reps != [] {
      var last := reps[|reps| - 1];
      GenerationIsLargest(reps[..|reps| - 1]);
      assert last in reps;
      assert forall r :: r in reps[..|reps| - 1] ==> r in reps;
    }
  }

  lemma TargetsIff(v: View, reps: seq<Replica>, n: int, id: string)
    requires Wellformed(v) && Largest(reps, n)
    ensures id in TargetIds(v, reps) <==> Receives(v, id) && !Counts(v, reps, id) && HasCapacityFor(Standing(v, id), v.storage, n)
  {
    GenerationIsLargest(reps);
    MembersIff(v, id);
    CopiesIff(v, reps, id);
  }

  // --- Order ----------------------------------------------------------------------------------------

  /** Durable storage first, then more bandwidth, then the smaller identity. */
  predicate SendsBefore(v: View, a: string, b: string)
    requires Answers(v, a) && Answers(v, b)
  {
    var x, y := Standing(v, a), Standing(v, b);
    var p, q := CountsDurable(x, v.storage), CountsDurable(y, v.storage);
    || (p && !q)
    || (p == q && Bandwidth(y) < Bandwidth(x))
    || (p == q && Bandwidth(y) == Bandwidth(x) && TextLess(a, b))
  }

  /** A domain without a healthy copy first, then more bandwidth, more of the disk free, more bytes free, and the
      smaller identity. */
  ghost predicate ReceivesBefore(v: View, reps: seq<Replica>, a: string, b: string)
    requires Receives(v, a) && Receives(v, b)
  {
    var x, y := Standing(v, a), Standing(v, b);
    var p, q := OpensDomain(v, reps, a), OpensDomain(v, reps, b);
    || (p && !q)
    || (p == q && Bandwidth(y) < Bandwidth(x))
    || (p == q && Bandwidth(y) == Bandwidth(x) && y.freePercent < x.freePercent)
    || (p == q && Bandwidth(y) == Bandwidth(x) && y.freePercent == x.freePercent && y.freeBytes < x.freeBytes)
    || (p == q && Bandwidth(y) == Bandwidth(x) && y.freePercent == x.freePercent && y.freeBytes == x.freeBytes && TextLess(a, b))
  }

  ghost predicate OpensDomain(v: View, reps: seq<Replica>, id: string)
    requires Receives(v, id)
  {
    var d := FailureDomain(Standing(v, id), v.cfg.domainLabel);
    d != "" && forall other :: HealthyCopy(v, reps, other) ==> FailureDomain(Standing(v, other), v.cfg.domainLabel) != d
  }

  lemma SenderMeritIs(v: View, id: string)
    requires Wellformed(v) && Answers(v, id)
    ensures SourceMerit(Sources(v), v.storage, id)
         == Merit(CountsDurable(Standing(v, id), v.storage), Bandwidth(Standing(v, id)), 0.0, 0)
  {
    MembersIff(v, id);
  }

  lemma SendersByMeritIff(fleet: Fleet, storage: StorageConfig, a: string, b: string, m: Merit, n: Merit)
    requires m == SourceMerit(fleet, storage, a) && n == SourceMerit(fleet, storage, b)
    ensures SourceOrder(fleet, storage)(a, b) <==> Better(m, n) || (m == n && TextLess(a, b))
  {
  }

  lemma SendOrderIff(v: View, a: string, b: string)
    requires Wellformed(v) && Answers(v, a) && Answers(v, b)
    ensures SourceOrder(Sources(v), v.storage)(a, b) <==> SendsBefore(v, a, b)
  {
    SenderMeritIs(v, a);
    SenderMeritIs(v, b);
    SendersByMeritIff(Sources(v), v.storage, a, b, SourceMerit(Sources(v), v.storage, a), SourceMerit(Sources(v), v.storage, b));
  }

  lemma MeritIs(v: View, reps: seq<Replica>, id: string)
    requires Wellformed(v) && Receives(v, id)
    ensures var a := Standing(v, id);
            TargetMerit(Eligible(v), v.cfg.domainLabel, HealthyDomains(v, reps), id)
            == Merit(OpensDomain(v, reps, id), Bandwidth(a), a.freePercent, a.freeBytes)
  {
    MembersIff(v, id);
    DomainsIff(v, reps, FailureDomain(Standing(v, id), v.cfg.domainLabel));
  }

  lemma ByMeritIff(fleet: Fleet, name: string, seen: set<string>, a: string, b: string, m: Merit, n: Merit)
    requires m == TargetMerit(fleet, name, seen, a) && n == TargetMerit(fleet, name, seen, b)
    ensures TargetOrder(fleet, name, seen)(a, b)
       <==> || (m.first && !n.first)
            || (m.first == n.first && n.bandwidth < m.bandwidth)
            || (m.first == n.first && n.bandwidth == m.bandwidth && n.percent < m.percent)
            || (m.first == n.first && n.bandwidth == m.bandwidth && n.percent == m.percent && n.bytes < m.bytes)
            || (m == n && TextLess(a, b))
  {
  }

  lemma ReceiveOrderIff(v: View, reps: seq<Replica>, a: string, b: string)
    requires Wellformed(v) && Receives(v, a) && Receives(v, b)
    ensures TargetOrder(Eligible(v), v.cfg.domainLabel, HealthyDomains(v, reps))(a, b) <==> ReceivesBefore(v, reps, a, b)
  {
    MeritIs(v, reps, a);
    MeritIs(v, reps, b);
    var fleet, name, seen := Eligible(v), v.cfg.domainLabel, HealthyDomains(v, reps);
    ByMeritIff(fleet, name, seen, a, b, TargetMerit(fleet, name, seen, a), TargetMerit(fleet, name, seen, b));
  }

  // --- The transfers of a round ------------------------------------------------------------------------

  /** Transfer number `i` goes to the target in that place, from the source whose turn it is. */
  lemma {:induction false} TransferIff(sources: seq<string>, targets: seq<string>, need: nat, busy: set<string>, t: Transfer)
    requires sources != [] && need <= |targets|
    ensures t in Transfers(sources, targets, need, busy)
       <==> exists i: nat :: i < need && targets[i] !in busy && t == Transfer(sources[i % |sources|], targets[i])
  {
    if need > 0 {
      var n := need - 1;
      TransferIff(sources, targets, n, busy, t);
      if i: nat :| i < need && targets[i] !in busy && t == Transfer(sources[i % |sources|], targets[i]) {
        if i < n {
          assert t in Transfers(sources, targets, n, busy);
        }
      }
    }
  }

  lemma {:induction false} TransfersDistinct(sources: seq<string>, targets: seq<string>, need: nat, busy: set<string>)
    requires sources != [] && need <= |targets| && Distinct(targets)
    ensures Distinct(Transfers(sources, targets, need, busy))
  {
    if need > 0 {
      var n := need - 1;
      TransfersDistinct(sources, targets, n, busy);
      TransferIff(sources, targets, n, busy, Transfer(sources[n % |sources|], targets[n]));
    }
  }

  /** A listed job is still placing the generation on the agent. */
  ghost predicate BeingPlaced(jobs: seq<Filed>, generation: string, id: string) {
    exists j :: 0 <= j < |jobs| && j < 100 && jobs[j].kind in {"replicate-generation", "install-replica"}
                && jobs[j].status in {JobStore.Queued, JobStore.Running} && jobs[j].target == generation + "@" + id
  }

  lemma BeingPlacedIff(v: View, jobs: seq<Filed>, generation: string, id: string)
    requires id in v.agents || id == LOCAL
    ensures id in BusyAgents(v, generation, jobs) <==> BeingPlaced(jobs, generation, id)
  {
    var page := Page(jobs, 10000);
    assert |page| == Min(|jobs|, 100) && forall i :: 0 <= i < |page| ==> page[i] == jobs[i];
    BusyIff(v, generation, jobs, id);
    if BeingPlaced(jobs, generation, id) {
      var j :| 0 <= j < |jobs| && j < 100 && jobs[j].kind in {"replicate-generation", "install-replica"}
               && jobs[j].status in {JobStore.Queued, JobStore.Running} && jobs[j].target == generation + "@" + id;
      assert page[j] in page && Busy(page[j]);
    }
    if e :| e in page && e.kind in PLACING && Busy(e) && e.target == generation + "@" + id {
      var j :| 0 <= j < |page| && page[j] == e;
      assert jobs[j] == e;
    }
  }

  /** The listing of senders and receivers a round works from. */
  ghost predicate Lined(v: View, reps: seq<Replica>, size: int, sources: seq<string>, targets: seq<string>) {
    && (forall id :: id in sources <==> HasCopy(reps, id) && Answers(v, id))
    && (forall id :: id in targets <==> Receives(v, id) && !Counts(v, reps, id) && HasCapacityFor(Standing(v, id), v.storage, size))
    && (forall i, j :: 0 <= i < j < |sources| ==>
          Answers(v, sources[i]) && Answers(v, sources[j]) && SendsBefore(v, sources[i], sources[j]))
    && (forall i, j :: 0 <= i < j < |targets| ==>
          Receives(v, targets[i]) && Receives(v, targets[j]) && ReceivesBefore(v, reps, targets[i], targets[j]))
  }

  lemma ListingsAreLined(v: View, reps: seq<Replica>, sources: seq<string>, targets: seq<string>, size: int)
    requires Wellformed(v) && Largest(reps, size)
    requires Arranges(sources, SourceIds(v, reps), SourceOrder(Sources(v), v.storage))
    requires Arranges(targets, TargetIds(v, reps), TargetOrder(Eligible(v), v.cfg.domainLabel, HealthyDomains(v, reps)))
    ensures Lined(v, reps, size, sources, targets)
  {
    forall id ensures id in sources <==> HasCopy(reps, id) && Answers(v, id) {
      CopiesIff(v, reps, id);
    }
    forall id ensures id in targets <==> Receives(v, id) && !Counts(v, reps, id) && HasCapacityFor(Standing(v, id), v.storage, size) {
      TargetsIff(v, reps, size, id);
    }
    forall i, j | 0 <= i < j < |sources| ensures Answers(v, sources[i]) && Answers(v, sources[j]) && SendsBefore(v, sources[i], sources[j]) {
      assert sources[i] in sources && sources[j] in sources;
      SendOrderIff(v, sources[i], sources[j]);
    }
    forall i, j | 0 <= i < j < |targets|
      ensures Receives(v, targets[i]) && Receives(v, targets[j]) && ReceivesBefore(v, reps, targets[i], targets[j])
    {
      assert targets[i] in targets && targets[j] in targets;
      ReceiveOrderIff(v, reps, targets[i], targets[j]);
    }
  }

  /** Copies, healthy copies and failure domains, as sets. */
  ghost predicate Tallied(v: View, reps: seq<Replica>, ready: set<string>, healthy: set<string>, domains: set<string>) {
    && (forall id :: id in ready <==> Counts(v, reps, id))
    && (forall id :: id in healthy <==> HealthyCopy(v, reps, id))
    && forall d :: d in domains <==> d != "" && exists id :: HealthyCopy(v, reps, id) && FailureDomain(Standing(v, id), v.cfg.domainLabel) == d
  }

  lemma TalliesAre(v: View, reps: seq<Replica>)
    requires Wellformed(v)
    ensures Tallied(v, reps, Ready(v, reps), HealthyReady(v, reps), HealthyDomains(v, reps))
  {
    forall id ensures (id in Ready(v, reps) <==> Counts(v, reps, id)) && (id in HealthyReady(v, reps) <==> HealthyCopy(v, reps, id)) {
      CopiesIff(v, reps, id);
    }
    forall d ensures d in HealthyDomains(v, reps)
                <==> d != "" && exists id :: HealthyCopy(v, reps, id) && FailureDomain(Standing(v, id), v.cfg.domainLabel) == d {
      DomainsIff(v, reps, d);
    }
  }

  /** The place is within a shortage: of copies, of healthy copies, or of domains where these are asked for. */
  predicate Short(cfg: Config, i: int, ready: nat, healthy: nat, domains: nat) {
    || ready + i < cfg.factor
    || healthy + i < cfg.minHealthy
    || (TrimSpace(cfg.domainLabel) != "" && domains + i < cfg.minDomains)
  }

  lemma ShortIff(v: View, reps: seq<Replica>, i: nat)
    ensures i < Need(v, reps) <==> Short(v.cfg, i, |Ready(v, reps)|, |HealthyReady(v, reps)|, |HealthyDomains(v, reps)|)
    ensures Satisfied(v, reps) ==> Need(v, reps) == 0
  {
  }

  /** What a plan holds, read off the two listings. */
  lemma PlanIs(v: View, generation: string, reps: seq<Replica>, jobs: seq<Filed>,
               sources: seq<string>, targets: seq<string>, plan: seq<Transfer>)
    requires forall id :: id in sources <==> id in SourceIds(v, reps)
    requires forall id :: id in targets ==> id in v.agents || id == LOCAL
    requires Distinct(targets)
    requires if Satisfied(v, reps) || SourceIds(v, reps) == {} then plan == []
             else sources != [] && plan == Transfers(sources, targets, Min(Need(v, reps), |targets|), BusyAgents(v, generation, jobs))
    ensures Distinct(plan)
    ensures var r, h, d := |Ready(v, reps)|, |HealthyReady(v, reps)|, |HealthyDomains(v, reps)|;
            forall t :: t in plan <==> exists i: nat :: Sent(v.cfg, generation, jobs, sources, targets, r, h, d, i, t)
  {
    var need := Min(Need(v, reps), |targets|);
    var r, h, d := |Ready(v, reps)|, |HealthyReady(v, reps)|, |HealthyDomains(v, reps)|;
    forall i: nat ensures i < Need(v, reps) <==> Short(v.cfg, i, r, h, d) {
      ShortIff(v, reps, i);
    }
    ShortIff(v, reps, 0);
    if sources == [] {
      assert SourceIds(v, reps) == {};
    } else {
      assert sources[0] in SourceIds(v, reps);
      if !Satisfied(v, reps) {
        TransfersDistinct(sources, targets, need, BusyAgents(v, generation, jobs));
      }
      forall t ensures t in plan <==> exists i: nat :: Sent(v.cfg, generation, jobs, sources, targets, r, h, d, i, t) {
        SentIff(v, generation, reps, jobs, sources, targets, need, t);
      }
    }
  }

  /** Transfer number `i` is wanted, nobody is at it yet, and it goes from the sender whose turn it is. */
  ghost predicate Sent(cfg: Config, generation: string, jobs: seq<Filed>, sources: seq<string>, targets: seq<string>,
                       ready: nat, healthy: nat, domains: nat, i: nat, t: Transfer)
  {
    && i < |targets| && 0 < |sources| && Short(cfg, i, ready, healthy, domains)
    && !BeingPlaced(jobs, generation, targets[i]) && t == Transfer(sources[i % |sources|], targets[i])
  }

  lemma SentIff(v: View, generation: string, reps: seq<Replica>, jobs: seq<Filed>,
                sources: seq<string>, targets: seq<string>, need: nat, t: Transfer)
    requires sources != [] && need == Min(Need(v, reps), |targets|)
    requires forall id :: id in targets ==> id in v.agents || id == LOCAL
    ensures var r, h, d := |Ready(v, reps)|, |HealthyReady(v, reps)|, |HealthyDomains(v, reps)|;
            t in Transfers(sources, targets, need, BusyAgents(v, generation, jobs))
            <==> exists i: nat :: Sent(v.cfg, generation, jobs, sources, targets, r, h, d, i, t)
  {
    var r, h, d := |Ready(v, reps)|, |HealthyReady(v, reps)|, |HealthyDomains(v, reps)|;
    var busy := BusyAgents(v, generation, jobs);
    TransferIff(sources, targets, need, busy, t);
    forall i: nat | i < |targets| ensures targets[i] in busy <==> BeingPlaced(jobs, generation, targets[i]) {
      assert targets[i] in targets;
      BeingPlacedIff(v, jobs, generation, targets[i]);
    }
    forall i: nat ensures i < Need(v, reps) <==> Short(v.cfg, i, r, h, d) {
      ShortIff(v, reps, i);
    }
    if i: nat :| i < need && targets[i] !in busy && t == Transfer(sources[i % |sources|], targets[i]) {
      assert Sent(v.cfg, generation, jobs, sources, targets, r, h, d, i, t);
    }
    if i: nat :| Sent(v.cfg, generation, jobs, sources, targets, r, h, d, i, t) {
      assert i < need && targets[i] !in busy;
    }
  }

  lemma Listings(v: View, reps: seq<Replica>, busy: set<string>, plan: seq<Transfer>) returns (sources: seq<string>, targets: seq<string>)
    requires exists sources, targets :: Plan(v, reps, busy, sources, targets, plan)
    ensures Arranges(sources, SourceIds(v, reps), SourceOrder(Sources(v), v.storage)) && Distinct(sources)
    ensures Arranges(targets, TargetIds(v, reps), TargetOrder(Eligible(v), v.cfg.domainLabel, HealthyDomains(v, reps))) && Distinct(targets)
    ensures Plan(v, reps, busy, sources, targets, plan)
  {
    var sends, receives := SourceOrder(Sources(v), v.storage), TargetOrder(Eligible(v), v.cfg.domainLabel, HealthyDomains(v, reps));
    MeritOrder(id => SourceMerit(Sources(v), v.storage, id));
    MeritOrder(id => TargetMerit(Eligible(v), v.cfg.domainLabel, HealthyDomains(v, reps), id));
    if Satisfied(v, reps) || SourceIds(v, reps) == {} {
      sources := Arranged(SourceIds(v, reps), sends);
      targets := Arranged(TargetIds(v, reps), receives);
    } else {
      sources, targets :| Plan(v, reps, busy, sources, targets, plan);
    }
    AscendingDistinct(sources, sends);
    AscendingDistinct(targets, receives);
  }

  /** A round queues, for as many of the best targets as a shortage reaches, the transfer from the sender whose turn it
      is, unless a listed job is placing the generation there already; and nothing else. */
  method PlanRound(v: View, generation: string, reps: seq<Replica>, jobs: seq<Filed>)
    returns (plan: seq<Transfer>, ghost sources: seq<string>, ghost targets: seq<string>,
             ghost ready: set<string>, ghost healthy: set<string>, ghost domains: set<string>)
    requires Wellformed(v) && Keyed(reps)
    ensures Tallied(v, reps, ready, healthy, domains)
    ensures forall size :: Largest(reps, size) ==> Lined(v, reps, size, sources, targets)
    ensures Distinct(plan)
    ensures forall t :: t in plan <==>
              exists i: nat :: Sent(v.cfg, generation, jobs, sources, targets, |ready|, |healthy|, |domains|, i, t)
  {
    plan := ReconcileGeneration(v, generation, reps, jobs);
    ready, healthy, domains := Ready(v, reps), HealthyReady(v, reps), HealthyDomains(v, reps);
    TalliesAre(v, reps);
    sources, targets := Listings(v, reps, BusyAgents(v, generation, jobs), plan);
    forall size | Largest(reps, size) ensures Lined(v, reps, size, sources, targets) {
      ListingsAreLined(v, reps, sources, targets, size);
    }
    assert forall id :: id in targets ==> id in Eligible(v);
    PlanIs(v, generation, reps, jobs, sources, targets, plan);
  }

  // --- The report ----------------------------------------------------------------------------------------

  /** The report counts copies on agents that take part, seen in time, on durable storage; this host's count always. */
  ghost predicate Reported(v: View, reps: seq<Replica>, id: string) {
    && HasCopy(reps, id) && TakesPart(v, id)
    && (id != LOCAL ==> v.now <= v.agents[id].lastSeen + v.cfg.timeout && CountsDurable(v.agents[id], v.storage))
  }

  lemma ReportedIff(v: View, reps: seq<Replica>, id: string)
    requires Wellformed(v)
    ensures id in OnlineHolders(v, reps) <==> Reported(v, reps, id)
    ensures id in OnlineHolders(v, reps) ==> Online(v)[id] == Standing(v, id)
  {
  }

  lemma ReportedDomainsIff(v: View, reps: seq<Replica>, d: string)
    requires Wellformed(v)
    ensures d in OnlineDomains(v, reps)
       <==> d != "" && exists id :: Reported(v, reps, id) && FailureDomain(Standing(v, id), v.cfg.domainLabel) == d
  {
    if d in OnlineDomains(v, reps) {
      var id :| id in OnlineHolders(v, reps) && FailureDomain(Online(v)[id], v.cfg.domainLabel) == d;
      ReportedIff(v, reps, id);
    }
    if id :| d != "" && Reported(v, reps, id) && FailureDomain(Standing(v, id), v.cfg.domainLabel) == d {
      ReportedIff(v, reps, id);
    }
  }

  ghost predicate Seen(v: View, reps: seq<Replica>, copies: set<string>, domains: set<string>) {
    && (forall id :: id in copies <==> Reported(v, reps, id))
    && forall d :: d in domains
              <==> d != "" && exists id :: Reported(v, reps, id) && FailureDomain(Standing(v, id), v.cfg.domainLabel) == d
  }

  lemma SeenAre(v: View, reps: seq<Replica>)
    requires Wellformed(v)
    ensures Seen(v, reps, OnlineHolders(v, reps), OnlineDomains(v, reps))
  {
    forall id ensures id in OnlineHolders(v, reps) <==> Reported(v, reps, id) {
      ReportedIff(v, reps, id);
    }
    forall d ensures d in OnlineDomains(v, reps)
                <==> d != "" && exists id :: Reported(v, reps, id) && FailureDomain(Standing(v, id), v.cfg.domainLabel) == d {
      ReportedDomainsIff(v, reps, d);
    }
  }

  lemma OneReport(v: View, reps: seq<Replica>)
    ensures ReportOf(v, [reps])
         == Report(1, if CountedHealthy(v, reps) then 1 else 0, if CountedHealthy(v, reps) then 0 else 1,
                   |Holders(reps)|, |OnlineHolders(v, reps)|, if EnoughDomains(v, reps) then 0 else 1)
  {
    ReportStep(v, [reps], 0);
    assert [reps][..0] == [] && [reps][..1] == [reps];
  }

  /** Healthy when enough copies, at least one, and enough domains are seen. */
  ghost predicate Judged(cfg: Config, r: Report, copies: nat, domains: nat) {
    var few := TrimSpace(cfg.domainLabel) != "" && domains < cfg.minDomains;
    && r.generations == 1 && r.onlineReady == copies
    && r.domainDeficits == (if few then 1 else 0)
    && r.healthy == (if 0 < copies && cfg.minHealthy <= copies && !few then 1 else 0)
    && r.deficits == 1 - r.healthy
  }

  lemma OneIsJudged(v: View, reps: seq<Replica>)
    ensures Judged(v.cfg, ReportOf(v, [reps]), |OnlineHolders(v, reps)|, |OnlineDomains(v, reps)|)
  {
    OneReport(v, reps);
    var few := TrimSpace(v.cfg.domainLabel) != "" && |OnlineDomains(v, reps)| < v.cfg.minDomains;
    assert EnoughDomains(v, reps) <==> !few;
    assert CountedHealthy(v, reps) <==> 0 < |OnlineHolders(v, reps)| && v.cfg.minHealthy <= |OnlineHolders(v, reps)| && !few;
  }

  lemma HoldersAre(reps: seq<Replica>, all: set<string>)
    requires forall id :: id in all <==> HasCopy(reps, id)
    ensures all == Holders(reps)
  {
  }

  /** What the report says of a single generation. */
  method ReportOnOne(v: View, reps: seq<Replica>) returns (r: Report, ghost copies: set<string>, ghost domains: set<string>)
    requires Wellformed(v) && Keyed(reps)
    ensures Seen(v, reps, copies, domains) && Judged(v.cfg, r, |copies|, |domains|)
    ensures forall all: set<string> :: (forall id :: id in all <==> HasCopy(reps, id)) ==> r.ready == |all|
  {
    r := HealthReport(v, [reps]);
    copies, domains := OnlineHolders(v, reps), OnlineDomains(v, reps);
    SeenAre(v, reps);
    OneIsJudged(v, reps);
    OneReport(v, reps);
    forall all: set<string> | forall id :: id in all <==> HasCopy(reps, id) ensures r.ready == |all| {
      HoldersAre(reps, all);
    }
  }

  // --- Where a path leads ----------------------------------------------------------------------------------

  lemma {:induction false} CutAtSlash(name: string, rest: string)
    requires '/' !in name
    ensures UpToSlash(name + "/" + rest) == name && UpToSlash(name) == name
  {
    if name == "" {
      assert (name + "/" + rest)[0] == '/';
    } else {
      CutAtSlash(name[1..], rest);
      assert (name + "/" + rest)[1..] == name[1..] + "/" + rest;
    }
  }

  /** A path that names an agent leads to it; any other leads to this host. */
  lemma PathLeads(name: string, rest: string, path: string)
    requires '/' !in name
    ensures AffinityFromMetaPath("agent://" + name + "/" + rest) == TrimSpace(name)
    ensures AffinityFromMetaPath("agent://" + name) == TrimSpace(name)
    ensures (|path| < 8 || path[..8] != "agent://") ==> AffinityFromMetaPath(path) == "__repoark_local__"
  {
    CutAtSlash(name, rest);
    var long, short := "agent://" + name + "/" + rest, "agent://" + name;
    assert long[|SCHEME|..] == name + "/" + rest && short[|SCHEME|..] == name;
    assert SCHEME <= path ==> path[..8] == "agent://";
  }

  /** The agent a generation's path names is asked first, if it can serve. */
  method RestoreFromPath(v: View, reps: seq<Replica>, name: string, rest: string) returns (r: Option<string>)
    requires '/' !in name && TrimSpace(name) == name
    ensures HasCopy(reps, name) && name in v.agents && v.now <= v.agents[name].lastSeen + v.cfg.timeout
            && !(v.storage.enabled && v.agents[name].storageHealth == "unhealthy") ==>
              r == Some(name)
  {
    PathLeads(name, rest, "");
    r := SelectRestoreAffinity(v, reps, "agent://" + name + "/" + rest);
    RestorableIff(v, reps, name);
  }
}
