/** Moving erasure shards to the agents that should hold them
    (internal/controlplane/erasure_distributed.go, ErasureReconciler.Reconcile). */
module ShardReconcile {
  import opened Prelude
  import opened Finite
  import opened Ordering
  import opened Agents
  import opened ShardPlacement
  import opened JobListing
  import Inventory
  import JobStore
  import Repair

  type Row = Repair.ShardCopy

  /** A leased transfer of one shard. */
  datatype Transfer = Transfer(index: nat, source: string, target: string, sha256: string, bytes: int)

  datatype Settings = Settings(
    storage: StorageConfig,
    domainLabel: string,
    poolLabel: string,
    copies: int,
    allowed: seq<string>,
    excluded: seq<string>,
    timeout: int)

  // --- Who may send and receive -------------------------------------------------------------

  predicate Member(a: Agent, cfg: Settings, now: int) {
    && Allowed(a.id, cfg.allowed, cfg.excluded) && now - a.lastSeen <= cfg.timeout
    && TrimSpace(a.publicKey) != "" && InShardPool(a, cfg.poolLabel)
  }

  function ReadableMembers(agents: Pool, cfg: Settings, now: int): Pool {
    map id | id in agents && Member(agents[id], cfg, now) && Readable(agents[id], cfg.storage) :: agents[id]
  }

  function EligibleMembers(agents: Pool, cfg: Settings, now: int): Pool {
    map id | id in agents && Member(agents[id], cfg, now) && AcceptsPlacement(agents[id], cfg.storage) :: agents[id]
  }

  /** This host, where the configuration includes it: it need not be a member of the pool. */
  function Here(local: Option<Agent>, fit: bool): Pool {
    if local.Some? && fit then map[local.value.id := local.value] else map[]
  }

  function ReadablePool(agents: Pool, local: Option<Agent>, cfg: Settings, now: int): Pool {
    ReadableMembers(agents, cfg, now) + Here(local, local.Some? && Readable(local.value, cfg.storage))
  }

  function EligiblePool(agents: Pool, local: Option<Agent>, cfg: Settings, now: int): Pool {
    EligibleMembers(agents, cfg, now) + Here(local, local.Some? && AcceptsPlacement(local.value, cfg.storage))
  }

  /** The agents whose copies count in the health report. */
  function CountedPool(agents: Pool, cfg: Settings, now: int): Pool {
    map id | id in agents && now - agents[id].lastSeen <= cfg.timeout && CountsDurable(agents[id], cfg.storage)
             && InShardPool(agents[id], cfg.poolLabel) :: agents[id]
  }

  /** What the walk has gathered when `todo` is left. */
  function Walked(pool: Pool, todo: set<string>): Pool {
    map id | id in pool && id !in todo :: pool[id]
  }

  lemma WalkedStep(pool: Pool, todo: set<string>, id: string)
    requires id in todo
    ensures id in pool ==> Walked(pool, todo - {id}) == Walked(pool, todo)[id := pool[id]]
    ensures id !in pool ==> Walked(pool, todo - {id}) == Walked(pool, todo)
  {
  }

  method SplitMembers(agents: Pool, cfg: Settings, now: int) returns (readable: Pool, eligible: Pool)
    ensures readable == ReadableMembers(agents, cfg, now) && eligible == EligibleMembers(agents, cfg, now)
  {
    readable, eligible := map[], map[];
    var todo := agents.Keys;
    while todo != {}
      invariant todo <= agents.Keys
      invariant readable == Walked(ReadableMembers(agents, cfg, now), todo)
      invariant eligible == Walked(EligibleMembers(agents, cfg, now), todo)
    {
      var id :| id in todo;
      WalkedStep(ReadableMembers(agents, cfg, now), todo, id);
      WalkedStep(EligibleMembers(agents, cfg, now), todo, id);
      todo := todo - {id};
      var a := agents[id];
      if && Allowed(a.id, cfg.allowed, cfg.excluded) && now - a.lastSeen <= cfg.timeout
         && TrimSpace(a.publicKey) != "" && InShardPool(a, cfg.poolLabel) {
        if Readable(a, cfg.storage) {
          readable := readable[id := a];
        }
        if AcceptsPlacement(a, cfg.storage) {
          eligible := eligible[id := a];
        }
      }
    }
  }

  method SplitPools(agents: Pool, local: Option<Agent>, cfg: Settings, now: int) returns (readable: Pool, eligible: Pool)
    ensures readable == ReadablePool(agents, local, cfg, now) && eligible == EligiblePool(agents, local, cfg, now)
  {
    readable, eligible := SplitMembers(agents, cfg, now);
    if local.Some? {
      var here, a := Here(local, true), local.value;
      if Readable(a, cfg.storage) {
        readable := readable + here;
      } else {
        NothingHere(readable, local);
      }
      if AcceptsPlacement(a, cfg.storage) {
        eligible := eligible + here;
      } else {
        NothingHere(eligible, local);
      }
    } else {
      NothingHere(readable, local);
      NothingHere(eligible, local);
    }
  }

  lemma NothingHere(pool: Pool, local: Option<Agent>)
    ensures pool + Here(local, false) == pool
  {
  }

  // --- The rows of one shard -------------------------------------------------------------------

  predicate ReadyRow(r: Row, index: int) {
    r.ready && r.index == index
  }

  /** The first ready row of an index names the digest to look for. */
  function First(rows: seq<Row>, index: int): Option<Row> {
    if rows == [] then None
    else if ReadyRow(rows[0], index) then Some(rows[0])
    else First(rows[1..], index)
  }

  ghost predicate Holds(rows: seq<Row>, index: int, agent: string) {
    exists r :: r in rows && ReadyRow(r, index) && r.agent == agent
  }

  /** The agents that can supply the shard. */
  ghost function Suppliers(rows: seq<Row>, index: int, readable: Pool): set<string> {
    set r | r in rows && First(rows, index).Some? && ReadyRow(r, index) && EqualFold(r.sha256, First(rows, index).value.sha256)
            && r.agent in readable :: r.agent
  }

  method FindFirst(rows: seq<Row>, index: int) returns (r: Option<Row>)
    ensures r == First(rows, index)
  {
    for i := 0 to |rows|
      invariant First(rows, index) == First(rows[i..], index)
    {
      if rows[i].ready && rows[i].index == index {
        return Some(rows[i]);
      }
    }
    r := None;
  }

  method HasReady(rows: seq<Row>, index: int, agent: string) returns (yes: bool)
    ensures yes <==> Holds(rows, index, agent)
  {
    for i := 0 to |rows|
      invariant forall j :: 0 <= j < i ==> !(ReadyRow(rows[j], index) && rows[j].agent == agent)
    {
      if rows[i].agent == agent && rows[i].ready && rows[i].index == index {
        assert rows[i] in rows;
        return true;
      }
    }
    yes := false;
  }

  /** The supplier with the smallest identity, "" when there is none. */
  method SelectSource(rows: seq<Row>, index: int, readable: Pool, digest: string) returns (source: string)
    requires "" !in readable && First(rows, index).Some? && digest == First(rows, index).value.sha256
    ensures source == "" <==> Suppliers(rows, index, readable) == {}
    ensures source != "" ==> source in Suppliers(rows, index, readable)
    ensures source != "" ==> forall x :: x in Suppliers(rows, index, readable) && x != source ==> TextLess(source, x)
  {
    TextOrder();
    var ids: set<string> := {};
    for i := 0 to |rows|
      invariant ids == set r | r in rows[..i] && ReadyRow(r, index) && EqualFold(r.sha256, digest) && r.agent in readable :: r.agent
    {
      assert rows[..i + 1] == rows[..i] + [rows[i]];
      if rows[i].ready && rows[i].index == index && EqualFold(rows[i].sha256, digest) && rows[i].agent in readable {
        ids := ids + {rows[i].agent};
      }
    }
    assert rows[..|rows|] == rows;
    assert ids == Suppliers(rows, index, readable);
    var list := Listing(ids);
    var sorted := Sort(list, TextLess);
    if |sorted| == 0 {
      return "";
    }
    assert sorted[0] in sorted;
    source := sorted[0];
    forall x | x in Suppliers(rows, index, readable) && x != source ensures TextLess(source, x) {
      assert x in Elements(list);
      var j :| 0 <= j < |sorted| && sorted[j] == x;
    }
  }

  // --- Planning one set ----------------------------------------------------------------------------

  /** Where each shard with a copy belongs. */
  ghost predicate Places(rows: seq<Row>, eligible: Pool, cfg: Settings, digest: string, plans: seq<seq<string>>, score: Score) {
    forall i :: 0 <= i < |plans| ==> if First(rows, i).Some? then PlacesShard(eligible, cfg, digest, i, plans[i], score) else plans[i] == []
  }

  ghost predicate PlacesShard(eligible: Pool, cfg: Settings, digest: string, index: nat, plan: seq<string>, score: Score) {
    && |plan| == (if cfg.copies < 1 then 0 else Min(cfg.copies, |eligible|))
    && Distinct(plan) && (forall id :: id in plan ==> id in eligible)
    && forall domains :: plan != [] && Arranges(domains, Domains(eligible, cfg.domainLabel), TextLess) ==>
         Placement(eligible, cfg.domainLabel, domains, digest, index, plan, score)
  }

  /** A planned agent lacks its copy, and the transfer can be made. The supplier with the smallest identity makes it. */
  ghost predicate Due(rows: seq<Row>, readable: Pool, eligible: Pool, cfg: Settings, active: set<(nat, string)>, index: nat, target: string) {
    && target in eligible && First(rows, index).Some? && !Holds(rows, index, target)
    && Suppliers(rows, index, readable) != {}
    && HasCapacityFor(eligible[target], cfg.storage, First(rows, index).value.bytes) && (index, target) !in active
  }

  ghost predicate Proper(rows: seq<Row>, readable: Pool, eligible: Pool, cfg: Settings, active: set<(nat, string)>, t: Transfer) {
    && Due(rows, readable, eligible, cfg, active, t.index, t.target)
    && t.source in Suppliers(rows, t.index, readable) && t.source != t.target
    && (forall x :: x in Suppliers(rows, t.index, readable) && x != t.source ==> TextLess(t.source, x))
    && t.sha256 == First(rows, t.index).value.sha256 && t.bytes == First(rows, t.index).value.bytes
  }

  /** Exactly the due transfers of one shard, at most one for each planned agent. */
  ghost predicate ShardPlanned(rows: seq<Row>, readable: Pool, eligible: Pool, cfg: Settings, active: set<(nat, string)>,
                               index: nat, plan: seq<string>, orders: seq<Transfer>)
  {
    && (forall t :: t in orders ==> t.index == index && t.target in plan && Proper(rows, readable, eligible, cfg, active, t))
    && (forall a, b :: 0 <= a < b < |orders| ==> orders[a].target != orders[b].target)
    && forall target :: target in plan && Due(rows, readable, eligible, cfg, active, index, target) ==>
         exists t :: t in orders && t.target == target
  }

  /** At least three digits. */
  function Padded(n: nat): string {
    (if n < 10 then "00" else if n < 100 then "0" else "") + Inventory.Decimal(n)
  }

  function JobTarget(digest: string, index: nat, target: string): string {
    "ers:" + digest + ":" + Padded(index) + "@" + target
  }

  /** The shard transfers under way, as far as the listed jobs tell. */
  ghost function Active(jobs: seq<Filed>, digest: string, total: nat, eligible: Pool): set<(nat, string)> {
    set i: nat, id | i < total && id in eligible && JobTarget(digest, i, id) in BusyTargets(Page(jobs, 50000), {JobStore.REPLICATE_CAS}) :: (i, id)
  }

  /** The jobs listed tell which transfers of the set are under way. */
  ghost predicate Tells(page: seq<Filed>, digest: string, eligible: Pool, active: set<(nat, string)>, index: nat) {
    forall id :: id in eligible ==> ((index, id) in active <==> JobTarget(digest, index, id) in BusyTargets(page, {JobStore.REPLICATE_CAS}))
  }

  method PlanTarget(rows: seq<Row>, readable: Pool, eligible: Pool, cfg: Settings, ghost active: set<(nat, string)>,
                    page: seq<Filed>, digest: string, index: nat, first: Row, target: string) returns (t: Option<Transfer>)
    requires Tells(page, digest, eligible, active, index)
    requires "" !in readable && target in eligible && First(rows, index) == Some(first)
    ensures t.Some? <==> Due(rows, readable, eligible, cfg, active, index, target)
    ensures t.Some? ==> t.value.index == index && t.value.target == target && Proper(rows, readable, eligible, cfg, active, t.value)
  {
    var there := HasReady(rows, index, target);
    if there {
      return None;
    }
    var source := SelectSource(rows, index, readable, first.sha256);
    if source == "" || source == target {
      SupplierHolds(rows, index, readable, target);
      return None;
    }
    if !HasCapacityFor(eligible[target], cfg.storage, first.bytes) {
      return None;
    }
    var active := ActiveJobExists(page, JobStore.REPLICATE_CAS, JobTarget(digest, index, target));
    if active {
      return None;
    }
    t := Some(Transfer(index, source, target, first.sha256, first.bytes));
  }

  /** A supplier holds the shard, so it is never its own target. */
  lemma SupplierHolds(rows: seq<Row>, index: int, readable: Pool, agent: string)
    ensures agent in Suppliers(rows, index, readable) ==> Holds(rows, index, agent)
  {
  }

  method PlanShard(rows: seq<Row>, readable: Pool, eligible: Pool, cfg: Settings, ghost active: set<(nat, string)>,
                   page: seq<Filed>, digest: string, index: nat, first: Row, plan: seq<string>) returns (orders: seq<Transfer>)
    requires Tells(page, digest, eligible, active, index)
    requires "" !in readable && First(rows, index) == Some(first) && Distinct(plan) && forall id :: id in plan ==> id in eligible
    ensures ShardPlanned(rows, readable, eligible, cfg, active, index, plan, orders)
  {
    orders := [];
    for j := 0 to |plan|
      invariant ShardPlanned(rows, readable, eligible, cfg, active, index, plan[..j], orders)
    {
      assert plan[j] in plan;
      var t := PlanTarget(rows, readable, eligible, cfg, active, page, digest, index, first, plan[j]);
      PlannedStep(rows, readable, eligible, cfg, active, index, plan, j, orders, t);
      if t.Some? {
        orders := orders + [t.value];
      } else {
        assert orders + [] == orders;
      }
    }
    assert plan[..|plan|] == plan;
  }

  lemma PlannedStep(rows: seq<Row>, readable: Pool, eligible: Pool, cfg: Settings, active: set<(nat, string)>,
                    index: nat, plan: seq<string>, j: nat, orders: seq<Transfer>, t: Option<Transfer>)
    requires j < |plan| && Distinct(plan) && ShardPlanned(rows, readable, eligible, cfg, active, index, plan[..j], orders)
    requires t.Some? <==> Due(rows, readable, eligible, cfg, active, index, plan[j])
    requires t.Some? ==> t.value.index == index && t.value.target == plan[j] && Proper(rows, readable, eligible, cfg, active, t.value)
    ensures ShardPlanned(rows, readable, eligible, cfg, active, index, plan[..j + 1], orders + if t.Some? then [t.value] else [])
  {
    var now := orders + if t.Some? then [t.value] else [];
    assert plan[..j + 1] == plan[..j] + [plan[j]];
    forall target | target in plan[..j + 1] && Due(rows, readable, eligible, cfg, active, index, target)
      ensures exists x :: x in now && x.target == target
    {
      if target in plan[..j] {
        var x :| x in orders && x.target == target;
        assert x in now;
      } else {
        assert t.value in now;
      }
    }
    forall a | 0 <= a < |orders| ensures orders[a].target != plan[j] {
      assert orders[a] in orders;
    }
  }

  lemma AllTell(jobs: seq<Filed>, digest: string, total: nat, eligible: Pool)
    ensures forall i :: 0 <= i < total ==> Tells(Page(jobs, 50000), digest, eligible, Active(jobs, digest, total, eligible), i)
  {
  }

  /** The transfers of one erasure set. */
  method PlanSet(rows: seq<Row>, total: nat, readable: Pool, eligible: Pool, cfg: Settings, jobs: seq<Filed>,
                 digest: string, score: Score)
    returns (orders: seq<seq<Transfer>>, plans: seq<seq<string>>)
    requires "" !in readable && "" !in eligible
    ensures |orders| == |plans| == total && Places(rows, eligible, cfg, digest, plans, score)
    ensures forall i :: 0 <= i < total ==>
              ShardPlanned(rows, readable, eligible, cfg, Active(jobs, digest, total, eligible), i, plans[i], orders[i])
  {
    orders, plans := [], [];
    var page := Page(jobs, 50000);
    ghost var active := Active(jobs, digest, total, eligible);
    AllTell(jobs, digest, total, eligible);
    for index := 0 to total
      invariant |orders| == |plans| == index && Places(rows, eligible, cfg, digest, plans, score)
      invariant forall i :: 0 <= i < index ==> ShardPlanned(rows, readable, eligible, cfg, active, i, plans[i], orders[i])
    {
      var plan, queued := PlanIndex(rows, readable, eligible, cfg, active, page, digest, score, index);
      orders, plans := orders + [queued], plans + [plan];
    }
  }

  method PlanIndex(rows: seq<Row>, readable: Pool, eligible: Pool, cfg: Settings, ghost active: set<(nat, string)>,
                   page: seq<Filed>, digest: string, score: Score, index: nat)
    returns (plan: seq<string>, orders: seq<Transfer>)
    requires Tells(page, digest, eligible, active, index)
    requires "" !in readable && "" !in eligible
    ensures if First(rows, index).Some? then PlacesShard(eligible, cfg, digest, index, plan, score) else plan == []
    ensures ShardPlanned(rows, readable, eligible, cfg, active, index, plan, orders)
  {
    plan, orders := [], [];
    var first := FindFirst(rows, index);
    if first.None? {
      return;
    }
    ghost var domains;
    plan, domains := DesiredShardAgents(digest, index, cfg.copies, eligible, cfg.domainLabel, score);
    UniqueDomains(eligible, cfg.domainLabel, domains);
    orders := PlanShard(rows, readable, eligible, cfg, active, page, digest, index, first.value, plan);
  }

  lemma UniqueDomains(agents: Pool, key: string, domains: seq<string>)
    ensures Arranges(domains, Domains(agents, key), TextLess) ==>
              forall ds :: Arranges(ds, Domains(agents, key), TextLess) ==> ds == domains
  {
    TextOrder();
    forall ds | Arranges(domains, Domains(agents, key), TextLess) && Arranges(ds, Domains(agents, key), TextLess)
      ensures ds == domains
    {
      SortedUnique(ds, domains, Domains(agents, key), TextLess);
    }
  }
}
