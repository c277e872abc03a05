/** Generation replication: planning copies, reporting health, choosing where to restore
    (internal/controlplane/replication.go). One generation is followed at a time. */
module Replication {
  import opened Prelude
  import opened Finite
  import opened Ordering
  import opened JobListing
  import opened Agents

  type Fleet = map<string, Agent>

  datatype Config = Config(
    factor: int,
    minHealthy: int,
    domainLabel: string,
    minDomains: int,
    allowed: seq<string>,
    excluded: seq<string>,
    includeLocal: bool,
    timeout: int,
    validKey: string -> bool)

  /** A row of the replica table for the generation at hand. */
  datatype Replica = Replica(agent: string, ready: bool, bytes: int)

  datatype Transfer = Transfer(source: string, target: string)

  /** Everything one reconciliation looks at. */
  datatype View = View(agents: Fleet, local: Agent, cfg: Config, storage: StorageConfig, now: int)

  /** Rows are keyed by identity; the reserved one belongs to the probe of this host alone. */
  predicate Wellformed(v: View) {
    v.local.id == LOCAL && LOCAL !in v.agents && forall id :: id in v.agents ==> v.agents[id].id == id
  }

  /** The replica table has one row per agent. */
  predicate Keyed(reps: seq<Replica>) {
    forall i, j :: 0 <= i < j < |reps| ==> reps[i].agent != reps[j].agent
  }

  predicate Recent(v: View, a: Agent) {
    v.now - a.lastSeen <= v.cfg.timeout
  }

  predicate Reachable(v: View, id: string)
    requires id in v.agents
  {
    && Allowed(id, v.cfg.allowed, v.cfg.excluded)
    && Recent(v, v.agents[id])
    && TrimSpace(v.agents[id].publicKey) != "" && v.cfg.validKey(v.agents[id].publicKey)
  }

  // --- The agent sets of the reconciler --------------------------------------

  ghost function Rows(v: View, keep: set<string>): Fleet {
    map id | id in v.agents && id in keep :: v.agents[id]
  }

  ghost function AllowedIds(v: View): set<string> {
    set id | id in v.agents && Allowed(id, v.cfg.allowed, v.cfg.excluded)
  }

  ghost function ReachableIds(v: View): set<string> {
    set id | id in v.agents && Reachable(v, id)
  }

  ghost function EligibleIds(v: View): set<string> {
    set id | id in v.agents && Reachable(v, id) && AcceptsPlacement(v.agents[id], v.storage)
  }

  function ThisHost(v: View, wanted: bool): Fleet {
    if v.cfg.includeLocal && wanted then map[LOCAL := v.local] else map[]
  }

  ghost function Admitted(v: View): Fleet {
    Rows(v, AllowedIds(v)) + ThisHost(v, true)
  }

  ghost function Sources(v: View): Fleet {
    Rows(v, ReachableIds(v)) + ThisHost(v, true)
  }

  ghost function Eligible(v: View): Fleet {
    Rows(v, EligibleIds(v)) + ThisHost(v, AcceptsPlacement(v.local, v.storage))
  }

  ghost function Holders(reps: seq<Replica>): set<string> {
    set r | r in reps && r.ready :: r.agent
  }

  /** Copies that count towards the replication factor. */
  ghost function Ready(v: View, reps: seq<Replica>): set<string> {
    set id | id in Holders(reps) && id in Admitted(v)
             && (!v.storage.evacuateDegraded || CountsDurable(Admitted(v)[id], v.storage))
  }

  ghost function HealthyReady(v: View, reps: seq<Replica>): set<string> {
    Holders(reps) * Eligible(v).Keys
  }

  /** The named failure domains of some agents. */
  ghost function NamedDomains(fleet: Fleet, ids: set<string>, name: string): set<string> {
    set id | id in ids && id in fleet && FailureDomain(fleet[id], name) != "" :: FailureDomain(fleet[id], name)
  }

  ghost function HealthyDomains(v: View, reps: seq<Replica>): set<string> {
    NamedDomains(Eligible(v), HealthyReady(v, reps), v.cfg.domainLabel)
  }

  predicate DomainsWanted(cfg: Config) {
    TrimSpace(cfg.domainLabel) != "" && cfg.minDomains > 0
  }

  ghost predicate Satisfied(v: View, reps: seq<Replica>) {
    && |Ready(v, reps)| >= v.cfg.factor
    && |HealthyReady(v, reps)| >= v.cfg.minHealthy
    && (DomainsWanted(v.cfg) ==> |HealthyDomains(v, reps)| >= v.cfg.minDomains)
  }

  function GenerationBytes(reps: seq<Replica>): (n: int)
    ensures 0 <= n && forall r :: r in reps ==> r.bytes <= n
  {
    if reps == [] then 0 else Max(GenerationBytes(reps[..|reps| - 1]), reps[|reps| - 1].bytes)
  }

  ghost function SourceIds(v: View, reps: seq<Replica>): set<string> {
    Holders(reps) * Sources(v).Keys
  }

  ghost function TargetIds(v: View, reps: seq<Replica>): set<string> {
    set id | id in Eligible(v) && id !in Ready(v, reps) && HasCapacityFor(Eligible(v)[id], v.storage, GenerationBytes(reps))
  }

  /** The largest of the three shortages: copies, healthy copies, failure domains. */
  function Shortage(cfg: Config, ready: nat, healthy: nat, domains: nat): (n: nat)
    ensures n >= cfg.factor - ready && n >= cfg.minHealthy - healthy
    ensures DomainsWanted(cfg) ==> n >= cfg.minDomains - domains
    ensures n == 0 || n == cfg.factor - ready || n == cfg.minHealthy - healthy
            || (DomainsWanted(cfg) && n == cfg.minDomains - domains)
  {
    var copies := Max(Max(cfg.factor - ready, 0), Max(cfg.minHealthy - healthy, 0));
    if DomainsWanted(cfg) then Max(copies, cfg.minDomains - domains) else copies
  }

  ghost function Need(v: View, reps: seq<Replica>): nat {
    Shortage(v.cfg, |Ready(v, reps)|, |HealthyReady(v, reps)|, |HealthyDomains(v, reps)|)
  }

  // --- Preference orders -------------------------------------------------------

  /** Preference of an agent: flag first, then three measures, larger first. */
  datatype Merit = Merit(first: bool, bandwidth: int, percent: real, bytes: int)

  predicate Better(a: Merit, b: Merit) {
    if a.first != b.first then a.first
    else if a.bandwidth != b.bandwidth then a.bandwidth > b.bandwidth
    else if a.percent != b.percent then a.percent > b.percent
    else a.bytes > b.bytes
  }

  function SourceMerit(fleet: Fleet, storage: StorageConfig, id: string): Merit {
    if id in fleet then Merit(CountsDurable(fleet[id], storage), Bandwidth(fleet[id]), 0.0, 0)
    else Merit(false, 0, 0.0, 0)
  }

  /** An agent in a failure domain that holds no healthy copy yet comes first. */
  function TargetMerit(fleet: Fleet, name: string, seen: set<string>, id: string): Merit {
    if id in fleet then
      var a := fleet[id];
      var d := FailureDomain(a, name);
      Merit(d != "" && d !in seen, Bandwidth(a), a.freePercent, a.freeBytes)
    else Merit(false, 0, 0.0, 0)
  }

  predicate Preferred(merit: string -> Merit, a: string, b: string) {
    Better(merit(a), merit(b)) || (merit(a) == merit(b) && TextLess(a, b))
  }

  function ByMerit(merit: string -> Merit): (string, string) -> bool {
    (a, b) => Preferred(merit, a, b)
  }

  function SourceOrder(fleet: Fleet, storage: StorageConfig): (string, string) -> bool {
    ByMerit(id => SourceMerit(fleet, storage, id))
  }

  function TargetOrder(fleet: Fleet, name: string, seen: set<string>): (string, string) -> bool {
    ByMerit(id => TargetMerit(fleet, name, seen, id))
  }

  lemma BetterOrder(a: Merit, b: Merit, c: Merit)
    ensures !Better(a, a)
    ensures a != b ==> Better(a, b) || Better(b, a)
    ensures Better(a, b) && Better(b, c) ==> Better(a, c)
  {
  }

  lemma MeritOrder(merit: string -> Merit)
    ensures StrictOrder(ByMerit(merit))
  {
    TextOrder();
    var less := ByMerit(merit);
    forall a: string, b: string ensures !less(a, a) && (a != b ==> less(a, b) || less(b, a)) {
      BetterOrder(merit(a), merit(b), merit(a));
    }
    forall a: string, b: string, c: string | less(a, b) && less(b, c) ensures less(a, c) {
      BetterOrder(merit(a), merit(b), merit(c));
    }
  }

  /** The transfers queued for the first `need` targets: sources take turns, busy targets are skipped. */
  function Transfers(sources: seq<string>, targets: seq<string>, need: nat, busy: set<string>): seq<Transfer>
    requires sources != [] && need <= |targets|
  {
    if need == 0 then []
    else
      var i := need - 1;
      Transfers(sources, targets, i, busy)
      + if targets[i] in busy then [] else [Transfer(sources[i % |sources|], targets[i])]
  }

  // --- Reconciliation -----------------------------------------------------------

  lemma RowsStep(v: View, done: set<string>, keep: set<string>, id: string)
    requires id in v.agents && id !in done && done <= v.agents.Keys
    ensures Rows(v, (done + {id}) * keep) == if id in keep then Rows(v, done * keep)[id := v.agents[id]] else Rows(v, done * keep)
  {
  }

  /** One pass over the agent rows. */
  method SortAgents(v: View) returns (admitted: Fleet, sources: Fleet, eligible: Fleet)
    ensures admitted == Rows(v, AllowedIds(v))
    ensures sources == Rows(v, ReachableIds(v))
    ensures eligible == Rows(v, EligibleIds(v))
  {
    admitted, sources, eligible := map[], map[], map[];
    var todo := v.agents.Keys;
    ghost var done: set<string> := {};
    while todo != {}
      invariant todo + done == v.agents.Keys && todo !! done
      invariant admitted == Rows(v, done * AllowedIds(v))
      invariant sources == Rows(v, done * ReachableIds(v))
      invariant eligible == Rows(v, done * EligibleIds(v))
    {
      var id :| id in todo;
      RowsStep(v, done, AllowedIds(v), id);
      RowsStep(v, done, ReachableIds(v), id);
      RowsStep(v, done, EligibleIds(v), id);
      todo, done := todo - {id}, done + {id};
      var a := v.agents[id];
      if Allowed(id, v.cfg.allowed, v.cfg.excluded) {
        admitted := admitted[id := a];
        if v.now - a.lastSeen <= v.cfg.timeout && TrimSpace(a.publicKey) != "" && v.cfg.validKey(a.publicKey) {
          sources := sources[id := a];
          if AcceptsPlacement(a, v.storage) {
            eligible := eligible[id := a];
          }
        }
      }
    }
    assert done * AllowedIds(v) == AllowedIds(v);
    assert done * ReachableIds(v) == ReachableIds(v);
    assert done * EligibleIds(v) == EligibleIds(v);
  }

  method BuildPools(v: View) returns (admitted: Fleet, sources: Fleet, eligible: Fleet)
    ensures admitted == Admitted(v) && sources == Sources(v) && eligible == Eligible(v)
  {
    admitted, sources, eligible := SortAgents(v);
    admitted := admitted + ThisHost(v, true);
    sources := sources + ThisHost(v, true);
    eligible := eligible + ThisHost(v, AcceptsPlacement(v.local, v.storage));
  }

  lemma HoldersStep(reps: seq<Replica>, r: Replica)
    ensures Holders(reps + [r]) == Holders(reps) + if r.ready then {r.agent} else {}
  {
    assert forall x :: x in reps + [r] <==> x in reps || x == r;
    assert r in reps + [r];
  }

  lemma EligibleAdmitted(v: View)
    ensures Eligible(v).Keys <= Sources(v).Keys <= Admitted(v).Keys
  {
  }

  /** One pass over the replica rows: who holds a copy that counts. */
  method Tally(v: View, reps: seq<Replica>, admitted: Fleet, eligible: Fleet)
    returns (ready: set<string>, healthy: set<string>, domains: set<string>)
    requires admitted == Admitted(v) && eligible == Eligible(v)
    ensures ready == Ready(v, reps) && healthy == HealthyReady(v, reps) && domains == HealthyDomains(v, reps)
  {
    EligibleAdmitted(v);
    ready, healthy, domains := {}, {}, {};
    for i := 0 to |reps|
      invariant ready == Ready(v, reps[..i]) && healthy == HealthyReady(v, reps[..i])
      invariant domains == HealthyDomains(v, reps[..i])
    {
      TallyStep(v, reps[..i], reps[i]);
      assert reps[..i + 1] == reps[..i] + [reps[i]];
      var rp := reps[i];
      if rp.ready && rp.agent in admitted {
        if !v.storage.evacuateDegraded || CountsDurable(admitted[rp.agent], v.storage) {
          ready := ready + {rp.agent};
        }
        if rp.agent in eligible {
          healthy := healthy + {rp.agent};
          var d := FailureDomain(eligible[rp.agent], v.cfg.domainLabel);
          if d != "" {
            domains := domains + {d};
          }
        }
      }
    }
    assert reps[..|reps|] == reps;
  }

  predicate CountsReady(v: View, admitted: Fleet, rp: Replica) {
    rp.ready && rp.agent in admitted && (!v.storage.evacuateDegraded || CountsDurable(admitted[rp.agent], v.storage))
  }

  /** What one more row adds to each tally. */
  lemma TallyStep(v: View, before: seq<Replica>, rp: Replica)
    ensures Ready(v, before + [rp]) == Ready(v, before) + if CountsReady(v, Admitted(v), rp) then {rp.agent} else {}
    ensures HealthyReady(v, before + [rp]) == HealthyReady(v, before) + if rp.ready && rp.agent in Eligible(v) then {rp.agent} else {}
    ensures HealthyDomains(v, before + [rp]) == HealthyDomains(v, before)
              + if rp.ready && rp.agent in Eligible(v) && FailureDomain(Eligible(v)[rp.agent], v.cfg.domainLabel) != ""
                then {FailureDomain(Eligible(v)[rp.agent], v.cfg.domainLabel)} else {}
  {
    HoldersStep(before, rp);
    ReadyStep(v, before, rp);
    if rp.ready && rp.agent in Eligible(v) {
      NamedStep(Eligible(v), HealthyReady(v, before), rp.agent, v.cfg.domainLabel);
      assert HealthyReady(v, before + [rp]) == HealthyReady(v, before) + {rp.agent};
    } else {
      assert HealthyReady(v, before + [rp]) == HealthyReady(v, before);
    }
  }

  lemma ReadyStep(v: View, before: seq<Replica>, rp: Replica)
    ensures Ready(v, before + [rp]) == Ready(v, before) + if CountsReady(v, Admitted(v), rp) then {rp.agent} else {}
  {
    HoldersStep(before, rp);
  }

  lemma NamedStep(fleet: Fleet, ids: set<string>, id: string, name: string)
    requires id in fleet
    ensures var d := FailureDomain(fleet[id], name);
            NamedDomains(fleet, ids + {id}, name) == NamedDomains(fleet, ids, name) + if d == "" then {} else {d}
  {
  }

  method ListSources(reps: seq<Replica>, pool: Fleet, storage: StorageConfig) returns (sources: seq<string>)
    requires Keyed(reps)
    ensures Arranges(sources, Holders(reps) * pool.Keys, SourceOrder(pool, storage))
  {
    sources := [];
    for i := 0 to |reps|
      invariant Distinct(sources)
      invariant forall id :: id in sources <==> id in Holders(reps[..i]) && id in pool
    {
      assert reps[..i + 1] == reps[..i] + [reps[i]];
      HoldersStep(reps[..i], reps[i]);
      if reps[i].ready && reps[i].agent in pool {
        assert reps[i].agent !in Holders(reps[..i]);
        sources := sources + [reps[i].agent];
      }
    }
    assert reps[..|reps|] == reps;
    MeritOrder(id => SourceMerit(pool, storage, id));
    sources := Sort(sources, SourceOrder(pool, storage));
  }

  method ListTargets(v: View, reps: seq<Replica>, eligible: Fleet, ready: set<string>, seen: set<string>)
    returns (targets: seq<string>)
    requires eligible == Eligible(v) && ready == Ready(v, reps)
    ensures Arranges(targets, TargetIds(v, reps), TargetOrder(eligible, v.cfg.domainLabel, seen))
  {
    var bytes := 0;
    for i := 0 to |reps|
      invariant bytes == GenerationBytes(reps[..i])
    {
      assert reps[..i + 1][..i] == reps[..i];
      bytes := if reps[i].bytes > bytes then reps[i].bytes else bytes;
    }
    assert reps[..|reps|] == reps;
    targets := [];
    var todo := eligible.Keys;
    while todo != {}
      invariant todo <= eligible.Keys && Distinct(targets)
      invariant forall id :: id in targets <==> id in TargetIds(v, reps) && id !in todo
    {
      var id :| id in todo;
      todo := todo - {id};
      if id !in ready && HasCapacityFor(eligible[id], v.storage, bytes) {
        targets := targets + [id];
      }
    }
    MeritOrder(id => TargetMerit(eligible, v.cfg.domainLabel, seen, id));
    targets := Sort(targets, TargetOrder(eligible, v.cfg.domainLabel, seen));
  }

  /** The transfers of a generation that needs some: best targets first, sources in turn. */
  ghost predicate Queued(v: View, reps: seq<Replica>, busy: set<string>,
                         sources: seq<string>, targets: seq<string>, plan: seq<Transfer>)
  {
    && Arranges(sources, SourceIds(v, reps), SourceOrder(Sources(v), v.storage))
    && Arranges(targets, TargetIds(v, reps), TargetOrder(Eligible(v), v.cfg.domainLabel, HealthyDomains(v, reps)))
    && sources != []
    && plan == Transfers(sources, targets, Min(Need(v, reps), |targets|), busy)
  }

  /** What reconciling one generation queues: nothing when it is satisfied or no copy can be
      read, otherwise one transfer per missing copy, domain or healthy copy. */
  ghost predicate Plan(v: View, reps: seq<Replica>, busy: set<string>,
                       sources: seq<string>, targets: seq<string>, plan: seq<Transfer>)
  {
    if Satisfied(v, reps) || SourceIds(v, reps) == {} then plan == []
    else Queued(v, reps, busy, sources, targets, plan)
  }

  const PLACING := {"replicate-generation", "install-replica"}

  /** The agents for which a listed job already places the generation. */
  ghost function BusyAgents(v: View, generation: string, jobs: seq<Filed>): set<string> {
    set id | id in v.agents.Keys + {LOCAL} && generation + "@" + id in BusyTargets(Page(jobs, 10000), PLACING)
  }

  /** A listed job makes an agent busy exactly when its target is the generation and the agent and nothing more. An
      install job that a finalize filed has its transfer there as well. */
  lemma BusyIff(v: View, generation: string, jobs: seq<Filed>, id: string)
    requires id in v.agents.Keys + {LOCAL}
    ensures id in BusyAgents(v, generation, jobs)
       <==> exists e :: e in Page(jobs, 10000) && e.kind in PLACING && Busy(e) && e.target == generation + "@" + id
  {
  }

  method ReconcileGeneration(v: View, generation: string, reps: seq<Replica>, jobs: seq<Filed>) returns (plan: seq<Transfer>)
    requires Keyed(reps)
    ensures exists sources, targets :: Plan(v, reps, BusyAgents(v, generation, jobs), sources, targets, plan)
  {
    var placed := ReadBusy(Page(jobs, 10000), PLACING);
    var busy := set id | id in v.agents.Keys + {LOCAL} && generation + "@" + id in placed;
    assert busy == BusyAgents(v, generation, jobs);
    var admitted, online, eligible := BuildPools(v);
    var ready, healthy, domains := Tally(v, reps, admitted, eligible);
    var done := EnoughCopies(v.cfg, |ready|, |healthy|, |domains|);
    if done {
      plan := [];
      assert Satisfied(v, reps);
      assert Plan(v, reps, busy, [], [], plan);
      return;
    }
    assert !Satisfied(v, reps);
    plan := PlanMissing(v, reps, busy, online, eligible, ready, healthy, domains);
  }

  method PlanMissing(v: View, reps: seq<Replica>, busy: set<string>, online: Fleet, eligible: Fleet,
                     ready: set<string>, healthy: set<string>, domains: set<string>)
    returns (plan: seq<Transfer>)
    requires Keyed(reps) && !Satisfied(v, reps) && online == Sources(v) && eligible == Eligible(v)
    requires ready == Ready(v, reps) && healthy == HealthyReady(v, reps) && domains == HealthyDomains(v, reps)
    ensures exists sources, targets :: Plan(v, reps, busy, sources, targets, plan)
  {
    var from := ListSources(reps, online, v.storage);
    if from != [] {
      assert from[0] in SourceIds(v, reps);
      var need := Deficit(v.cfg, |ready|, |healthy|, |domains|);
      var targets;
      plan, targets := PlanTransfers(v, reps, busy, from, need, eligible, ready, domains);
      assert Plan(v, reps, busy, from, targets, plan);
    } else {
      NoSources(v, reps, from);
      plan := [];
      assert Plan(v, reps, busy, [], [], plan);
    }
  }

  method EnoughCopies(cfg: Config, ready: nat, healthy: nat, domains: nat) returns (yes: bool)
    ensures yes <==> ready >= cfg.factor && healthy >= cfg.minHealthy && (DomainsWanted(cfg) ==> domains >= cfg.minDomains)
  {
    var domainsOK := true;
    if TrimSpace(cfg.domainLabel) != "" && cfg.minDomains > 0 {
      domainsOK := domains >= cfg.minDomains;
    }
    yes := ready >= cfg.factor && healthy >= cfg.minHealthy && domainsOK;
  }

  method PlanTransfers(v: View, reps: seq<Replica>, busy: set<string>, sources: seq<string>, need: nat,
                       eligible: Fleet, ready: set<string>, domains: set<string>)
    returns (plan: seq<Transfer>, targets: seq<string>)
    requires sources != [] && Arranges(sources, SourceIds(v, reps), SourceOrder(Sources(v), v.storage))
    requires need == Need(v, reps) && eligible == Eligible(v)
    requires ready == Ready(v, reps) && domains == HealthyDomains(v, reps)
    ensures Queued(v, reps, busy, sources, targets, plan)
  {
    targets := ListTargets(v, reps, eligible, ready, domains);
    plan := Queue(sources, targets, Min(need, |targets|), busy);
  }

  lemma NoSources(v: View, reps: seq<Replica>, from: seq<string>)
    requires from == [] && forall z :: z in from <==> z in SourceIds(v, reps)
    ensures SourceIds(v, reps) == {}
  {
  }

  method Deficit(cfg: Config, ready: nat, healthy: nat, domains: nat) returns (need: nat)
    ensures need == Shortage(cfg, ready, healthy, domains)
  {
    need := if cfg.factor > ready then cfg.factor - ready else 0;
    if cfg.minHealthy - healthy > need {
      need := cfg.minHealthy - healthy;
    }
    if TrimSpace(cfg.domainLabel) != "" && cfg.minDomains > 0 && cfg.minDomains - domains > need {
      need := cfg.minDomains - domains;
    }
  }

  method Queue(sources: seq<string>, targets: seq<string>, need: nat, busy: set<string>) returns (plan: seq<Transfer>)
    requires sources != [] && need <= |targets|
    ensures plan == Transfers(sources, targets, need, busy)
  {
    plan := [];
    for i := 0 to need
      invariant plan == Transfers(sources, targets, i, busy)
    {
      if targets[i] !in busy {
        plan := plan + [Transfer(sources[i % |sources|], targets[i])];
      }
    }
  }

  // --- Health report --------------------------------------------------------------

  /** The agents whose copies the health report counts. */
  ghost function Online(v: View): Fleet {
    ThisHost(v, true) + Rows(v, OnlineIds(v))
  }

  ghost function OnlineIds(v: View): set<string> {
    set id | id in v.agents && Allowed(id, v.cfg.allowed, v.cfg.excluded)
             && Recent(v, v.agents[id]) && CountsDurable(v.agents[id], v.storage)
  }

  ghost function OnlineHolders(v: View, reps: seq<Replica>): set<string> {
    Held(Online(v), reps)
  }

  ghost function OnlineDomains(v: View, reps: seq<Replica>): set<string> {
    NamedDomains(Online(v), OnlineHolders(v, reps), v.cfg.domainLabel)
  }

  /** The report counts a generation as healthy. */
  ghost predicate CountedHealthy(v: View, reps: seq<Replica>) {
    && |OnlineHolders(v, reps)| >= Max(v.cfg.minHealthy, 1)
    && (DomainsWanted(v.cfg) ==> |OnlineDomains(v, reps)| >= v.cfg.minDomains)
  }

  method OnlineAgents(v: View) returns (online: Fleet)
    ensures online == Online(v)
  {
    online := map[];
    var todo := v.agents.Keys;
    ghost var done: set<string> := {};
    while todo != {}
      invariant todo + done == v.agents.Keys && todo !! done
      invariant online == Rows(v, done * OnlineIds(v))
    {
      var id :| id in todo;
      RowsStep(v, done, OnlineIds(v), id);
      todo, done := todo - {id}, done + {id};
      if Allowed(id, v.cfg.allowed, v.cfg.excluded) && Recent(v, v.agents[id]) && CountsDurable(v.agents[id], v.storage) {
        online := online[id := v.agents[id]];
      }
    }
    assert done * OnlineIds(v) == OnlineIds(v);
    online := ThisHost(v, true) + online;
  }

  /** Holders within a fleet, and the domains they lie in. */
  ghost function Held(fleet: Fleet, reps: seq<Replica>): set<string> {
    Holders(reps) * fleet.Keys
  }

  lemma HeldStep(fleet: Fleet, name: string, reps: seq<Replica>, i: nat)
    requires Keyed(reps) && i < |reps|
    ensures var id, counted := reps[i].agent, reps[i].ready && reps[i].agent in fleet;
            && Held(fleet, reps[..i + 1]) == Held(fleet, reps[..i]) + (if counted then {id} else {})
            && id !in Held(fleet, reps[..i])
            && NamedDomains(fleet, Held(fleet, reps[..i + 1]), name)
               == NamedDomains(fleet, Held(fleet, reps[..i]), name)
                  + if counted && FailureDomain(fleet[id], name) != "" then {FailureDomain(fleet[id], name)} else {}
  {
    assert reps[..i + 1] == reps[..i] + [reps[i]];
    HoldersStep(reps[..i], reps[i]);
    HolderBefore(reps, i);
    if reps[i].ready && reps[i].agent in fleet {
      NamedStep(fleet, Held(fleet, reps[..i]), reps[i].agent, name);
      assert Held(fleet, reps[..i + 1]) == Held(fleet, reps[..i]) + {reps[i].agent};
    } else {
      assert Held(fleet, reps[..i + 1]) == Held(fleet, reps[..i]);
    }
  }

  ghost predicate EnoughDomains(v: View, reps: seq<Replica>) {
    DomainsWanted(v.cfg) ==> |OnlineDomains(v, reps)| >= v.cfg.minDomains
  }

  method GenerationHealth(v: View, reps: seq<Replica>, online: Fleet)
    returns (healthy: bool, ready: nat, copies: nat, spread: bool)
    requires Keyed(reps) && online == Online(v)
    ensures healthy == CountedHealthy(v, reps) && spread == EnoughDomains(v, reps)
    ensures ready == |Holders(reps)| && copies == |OnlineHolders(v, reps)|
  {
    var domains: set<string>;
    ready, copies, domains := CountHeld(online, v.cfg.domainLabel, reps);
    spread := DomainsWanted(v.cfg) ==> |domains| >= v.cfg.minDomains;
    healthy := copies >= Max(v.cfg.minHealthy, 1) && spread;
  }

  method CountHeld(online: Fleet, name: string, reps: seq<Replica>) returns (ready: nat, copies: nat, domains: set<string>)
    requires Keyed(reps)
    ensures ready == |Holders(reps)|
    ensures copies == |Held(online, reps)| && domains == NamedDomains(online, Held(online, reps), name)
  {
    ready, copies, domains := 0, 0, {};
    for i := 0 to |reps|
      invariant ready == |Holders(reps[..i])|
      invariant copies == |Held(online, reps[..i])|
      invariant domains == NamedDomains(online, Held(online, reps[..i]), name)
    {
      HeldStep(online, name, reps, i);
      CopyStep(reps, i);
      var rp := reps[i];
      if rp.ready {
        ready := ready + 1;
        if rp.agent in online {
          copies := copies + 1;
          var d := FailureDomain(online[rp.agent], name);
          if d != "" {
            domains := domains + {d};
          }
        }
      }
    }
    assert reps[..|reps|] == reps;
  }

  lemma CopyStep(reps: seq<Replica>, i: nat)
    requires Keyed(reps) && i < |reps|
    ensures |Holders(reps[..i + 1])| == |Holders(reps[..i])| + if reps[i].ready then 1 else 0
  {
    assert reps[..i + 1] == reps[..i] + [reps[i]];
    HoldersStep(reps[..i], reps[i]);
    HolderBefore(reps, i);
  }

  lemma HolderBefore(reps: seq<Replica>, i: nat)
    requires Keyed(reps) && i < |reps|
    ensures reps[i].agent !in Holders(reps[..i])
  {
  }

  datatype Report = Report(generations: nat, healthy: nat, deficits: nat, ready: nat, onlineReady: nat, domainDeficits: nat)

  /** How many of the generations, from the first on, satisfy a judgement, and what a measure adds up to. */
  ghost function Total(gens: seq<seq<Replica>>, measure: seq<Replica> -> nat): nat {
    if gens == [] then 0 else Total(gens[..|gens| - 1], measure) + measure(gens[|gens| - 1])
  }

  ghost function ReportOf(v: View, gens: seq<seq<Replica>>): Report {
    Report(|gens|,
           Total(gens, g => if CountedHealthy(v, g) then 1 else 0),
           Total(gens, g => if CountedHealthy(v, g) then 0 else 1),
           Total(gens, g => |Holders(g)|),
           Total(gens, g => |OnlineHolders(v, g)|),
           Total(gens, g => if EnoughDomains(v, g) then 0 else 1))
  }

  /** The report with one more generation. */
  function Counted(r: Report, ok: bool, ready: nat, copies: nat, spread: bool): Report {
    Report(r.generations + 1, r.healthy + if ok then 1 else 0, r.deficits + if ok then 0 else 1,
           r.ready + ready, r.onlineReady + copies, r.domainDeficits + if spread then 0 else 1)
  }

  lemma ReportStep(v: View, gens: seq<seq<Replica>>, i: nat)
    requires i < |gens|
    ensures ReportOf(v, gens[..i + 1])
         == Counted(ReportOf(v, gens[..i]), CountedHealthy(v, gens[i]), |Holders(gens[i])|, |OnlineHolders(v, gens[i])|, EnoughDomains(v, gens[i]))
  {
    assert gens[..i + 1][..i] == gens[..i];
  }

  method HealthReport(v: View, gens: seq<seq<Replica>>) returns (r: Report)
    requires forall g :: g in gens ==> Keyed(g)
    ensures r == ReportOf(v, gens)
  {
    var online := OnlineAgents(v);
    r := Report(0, 0, 0, 0, 0, 0);
    for i := 0 to |gens|
      invariant r == ReportOf(v, gens[..i])
    {
      ReportStep(v, gens, i);
      var ok, ready, copies, spread := GenerationHealth(v, gens[i], online);
      r := Counted(r, ok, ready, copies, spread);
    }
    assert gens[..|gens|] == gens;
  }

  /** Every generation is healthy or in deficit; one with too few domains is in deficit; and a copy that
      counts is a copy. */
  lemma {:induction false} ReportAddsUp(v: View, gens: seq<seq<Replica>>)
    ensures var r := ReportOf(v, gens);
            r.healthy + r.deficits == |gens| && r.domainDeficits <= r.deficits && r.onlineReady <= r.ready
  {
    if gens != [] {
      var n := |gens| - 1;
      ReportAddsUp(v, gens[..n]);
      ReportStep(v, gens, n);
      assert gens[..n + 1] == gens;
      SubsetSize(OnlineHolders(v, gens[n]), Holders(gens[n]));
    }
  }

  // --- Restore routing --------------------------------------------------------------

  const SCHEME := "agent://"

  function UpToSlash(s: string): string {
    if s == "" || s[0] == '/' then "" else [s[0]] + UpToSlash(s[1..])
  }

  /** The agent named by a generation's metadata path; this host for plain paths. */
  function AffinityFromMetaPath(path: string): string {
    if SCHEME <= path then TrimSpace(UpToSlash(path[|SCHEME|..])) else LOCAL
  }

  /** The holders a restore may read from. */
  ghost function Restorable(v: View, reps: seq<Replica>): set<string> {
    set id | id in Holders(reps)
             && (id == LOCAL || (id in v.agents && Recent(v, v.agents[id]) && Agents.Readable(v.agents[id], v.storage)))
  }

  lemma RestorableIff(v: View, reps: seq<Replica>, id: string)
    ensures id in Restorable(v, reps)
       <==> && (exists rp :: rp in reps && rp.ready && rp.agent == id)
            && (id == "__repoark_local__"
                || (&& id in v.agents && v.now <= v.agents[id].lastSeen + v.cfg.timeout
                    && (v.storage.enabled ==> v.agents[id].storageHealth != "unhealthy")))
  {
  }

  lemma NoneRestorableIff(v: View, reps: seq<Replica>)
    ensures Restorable(v, reps) == {} <==> forall rp :: rp in reps && rp.ready ==>
              && rp.agent != "__repoark_local__"
              && (rp.agent in v.agents && v.now <= v.agents[rp.agent].lastSeen + v.cfg.timeout ==>
                    v.storage.enabled && v.agents[rp.agent].storageHealth == "unhealthy")
  {
    forall rp | rp in reps && rp.ready ensures rp.agent in Holders(reps) {
    }
    if Restorable(v, reps) == {} {
      forall rp | rp in reps && rp.ready ensures rp.agent !in Restorable(v, reps) {
      }
    }
  }

  /** A ready copy on this host, or on an agent that was seen in time and whose storage can be read: first the one the
      metadata path names, then the smallest identity. */
  method SelectRestoreAffinity(v: View, reps: seq<Replica>, metaPath: string) returns (r: Option<string>)
    ensures r.Some? ==> exists rp :: rp in reps && rp.ready && rp.agent == r.value
    ensures r.Some? && r.value != "__repoark_local__" ==>
              && r.value in v.agents && v.now <= v.agents[r.value].lastSeen + v.cfg.timeout
              && (v.storage.enabled ==> v.agents[r.value].storageHealth != "unhealthy")
    ensures r.None? <==> forall rp :: rp in reps && rp.ready ==>
              && rp.agent != "__repoark_local__"
              && (rp.agent in v.agents && v.now <= v.agents[rp.agent].lastSeen + v.cfg.timeout ==>
                    v.storage.enabled && v.agents[rp.agent].storageHealth == "unhealthy")
    ensures r.None? <==> Restorable(v, reps) == {}
    ensures AffinityFromMetaPath(metaPath) in Restorable(v, reps) ==> r == Some(AffinityFromMetaPath(metaPath))
    ensures r.Some? ==> r.value in Restorable(v, reps)
    ensures r.Some? && r.value != AffinityFromMetaPath(metaPath) ==>
              forall id :: id in Restorable(v, reps) && id != r.value ==> TextLess(r.value, id)
  {
    var preferred := AffinityFromMetaPath(metaPath);
    var available: set<string> := {};
    for i := 0 to |reps|
      invariant available == Restorable(v, reps[..i])
    {
      var rp := reps[i];
      assert reps[..i + 1] == reps[..i] + [rp];
      HoldersStep(reps[..i], rp);
      if rp.ready && (rp.agent == LOCAL
                      || (rp.agent in v.agents && Recent(v, v.agents[rp.agent]) && Agents.Readable(v.agents[rp.agent], v.storage))) {
        available := available + {rp.agent};
      }
    }
    assert reps[..|reps|] == reps;
    NoneRestorableIff(v, reps);
    if preferred in available {
      return Some(preferred);
    }
    r := FirstId(available);
  }

  /** The smallest identity of a set, by sorting it. */
  method FirstId(ids: set<string>) returns (r: Option<string>)
    ensures r.None? <==> ids == {}
    ensures r.Some? ==> r.value in ids && forall id :: id in ids && id != r.value ==> TextLess(r.value, id)
  {
    TextOrder();
    var list := Listing(ids);
    var sorted := Sort(list, TextLess);
    if sorted == [] {
      assert ids == {} by { ListingEmpty(list, ids); }
      return None;
    }
    assert sorted[0] in sorted && sorted[0] in list;
    forall id | id in ids && id != sorted[0] ensures TextLess(sorted[0], id) {
      assert id in list && id in sorted;
      var j :| 0 <= j < |sorted| && sorted[j] == id;
    }
    r := Some(sorted[0]);
  }

  lemma ListingEmpty(list: seq<string>, ids: set<string>)
    requires list == [] && forall z :: z in list <==> z in ids
    ensures ids == {}
  {
  }
}
