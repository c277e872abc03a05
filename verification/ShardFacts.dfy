/** A round over one erasure set in terms of agents, shard rows and jobs: who may send and receive, and exactly which
    shards are sent, by whom and to whom (internal/controlplane/erasure_distributed.go, ErasureReconciler). */
module ShardFacts {
  import opened Prelude
  import opened Finite
  import opened Ordering
  import opened Agents
  import opened ShardPlacement
  import opened JobListing
  import opened ShardReconcile
  import Inventory
  import JobStore
  import ShardHealth
  import ZoneFacts

  // --- Who takes part -----------------------------------------------------------------------------

  /** Allowed, seen in time, with a key, and in the shard pool. */
  predicate TakesPart(a: Agent, cfg: Settings, now: int) {
    && Allowed(a.id, cfg.allowed, cfg.excluded) && now <= a.lastSeen + cfg.timeout
    && TrimSpace(a.publicKey) != "" && InShardPool(a, cfg.poolLabel)
  }

  /** This host takes part, where it is included, with no questions but about its storage. */
  lemma PoolsIff(agents: Pool, local: Option<Agent>, cfg: Settings, now: int, id: string)
    ensures id in ReadablePool(agents, local, cfg, now)
       <==> || (local.Some? && local.value.id == id && (cfg.storage.enabled ==> local.value.storageHealth != "unhealthy"))
            || (id in agents && TakesPart(agents[id], cfg, now) && (cfg.storage.enabled ==> agents[id].storageHealth != "unhealthy"))
    ensures id in EligiblePool(agents, local, cfg, now)
       <==> || (local.Some? && local.value.id == id && AcceptsPlacement(local.value, cfg.storage))
            || (id in agents && TakesPart(agents[id], cfg, now) && AcceptsPlacement(agents[id], cfg.storage))
    ensures forall pool :: pool in {ReadablePool(agents, local, cfg, now), EligiblePool(agents, local, cfg, now)} && id in pool ==>
              (id in agents && pool[id] == agents[id]) || (local.Some? && id == local.value.id && pool[id] == local.value)
  {
  }

  // --- Rows and jobs --------------------------------------------------------------------------------

  predicate Ready(rows: seq<Row>, i: int, index: int) {
    0 <= i < |rows| && rows[i].ready && rows[i].index == index
  }

  /** Row `i` is the first ready one of the index: its digest is the one asked for. */
  ghost predicate Leads(rows: seq<Row>, i: int, index: int) {
    Ready(rows, i, index) && forall h :: 0 <= h < i ==> !Ready(rows, h, index)
  }

  lemma {:induction false} LeadingIsFirst(rows: seq<Row>, i: int, index: int)
    requires Leads(rows, i, index)
    ensures First(rows, index) == Some(rows[i])
  {
    if i > 0 {
      assert !Ready(rows, 0, index);
      forall h ensures Ready(rows[1..], h, index) <==> 0 <= h && Ready(rows, h + 1, index) {
      }
      LeadingIsFirst(rows[1..], i - 1, index);
    }
  }

  lemma {:induction false} FirstLeads(rows: seq<Row>, index: int) returns (i: nat)
    requires First(rows, index).Some?
    ensures Leads(rows, i, index)
  {
    if ReadyRow(rows[0], index) {
      i := 0;
    } else {
      i := FirstLeads(rows[1..], index);
      i := i + 1;
      forall h | 0 <= h < i ensures !Ready(rows, h, index) {
        if h > 0 {
          assert !Ready(rows[1..], h - 1, index);
        }
      }
    }
  }

  /** An agent that can be read has the shard under the digest that is asked for, whatever the letter case. */
  ghost predicate CanSend(rows: seq<Row>, lead: Row, index: int, readable: Pool, agent: string) {
    agent in readable && exists r :: r in rows && r.ready && r.index == index && r.agent == agent && Lower(r.sha256) == Lower(lead.sha256)
  }

  /** A job for this shard and target is queued or running, as far as jobs are listed. */
  ghost predicate UnderWay(jobs: seq<Filed>, digest: string, index: nat, target: string) {
    exists j :: 0 <= j < |jobs| && j < 100 && jobs[j].kind == "replicate-cas" && jobs[j].status in {JobStore.Queued, JobStore.Running}
                && jobs[j].target == "ers:" + digest + ":" + Padded(index) + "@" + target
  }

  /** Indices are written with at least three digits. */
  lemma PaddedIs(n: nat)
    ensures n < 1000 ==> Padded(n) == ["0123456789"[n / 100], "0123456789"[n / 10 % 10], "0123456789"[n % 10]]
    ensures 1000 <= n ==> Padded(n) == Inventory.Decimal(n)
  {
    var d := Inventory.DIGITS;
    if n < 10 {
      assert n / 10 == 0 && n / 100 == 0 && n % 10 == n;
    } else if n < 100 {
      assert n / 100 == 0 && n / 10 % 10 == n / 10;
      assert Inventory.Decimal(n) == [d[n / 10]] + [d[n % 10]];
    } else if n < 1000 {
      assert n / 10 / 10 == n / 100 && 10 <= n / 10;
      assert Inventory.Decimal(n / 10) == [d[n / 10 / 10]] + [d[n / 10 % 10]];
      assert Inventory.Decimal(n) == [d[n / 100]] + [d[n / 10 % 10]] + [d[n % 10]];
    }
  }

  lemma UnderWayIff(jobs: seq<Filed>, digest: string, total: nat, eligible: Pool, index: nat, target: string)
    requires index < total && target in eligible
    ensures (index, target) in Active(jobs, digest, total, eligible) <==> UnderWay(jobs, digest, index, target)
  {
    var page, name := Page(jobs, 50000), "ers:" + digest + ":" + Padded(index) + "@" + target;
    assert JobTarget(digest, index, target) == name;
    assert |page| == Min(|jobs|, 100) && forall i :: 0 <= i < |page| ==> page[i] == jobs[i];
    if e :| e in page && e.kind in {JobStore.REPLICATE_CAS} && Busy(e) && e.target == name {
      var j :| 0 <= j < |page| && page[j] == e;
      assert jobs[j] == e;
    }
    if UnderWay(jobs, digest, index, target) {
      var j :| 0 <= j < |jobs| && j < 100 && jobs[j].kind == "replicate-cas" && jobs[j].status in {JobStore.Queued, JobStore.Running}
               && jobs[j].target == name;
      assert page[j] in page && Busy(page[j]);
    }
  }

  // --- The transfers of a set -------------------------------------------------------------------------

  /** What has to be so for the shard to be sent to a planned agent: somebody has it ready, the agent does not, somebody
      who can be read has the right one, it fits, and no job is at it. */
  ghost predicate ToSend(rows: seq<Row>, readable: Pool, eligible: Pool, cfg: Settings, jobs: seq<Filed>, digest: string,
                         index: nat, target: string, lead: int)
  {
    && target in eligible && Leads(rows, lead, index)
    && (forall r :: r in rows && r.ready && r.index == index ==> r.agent != target)
    && (exists sender :: CanSend(rows, rows[lead], index, readable, sender))
    && HasCapacityFor(eligible[target], cfg.storage, rows[lead].bytes) && !UnderWay(jobs, digest, index, target)
  }

  lemma SendersIff(rows: seq<Row>, readable: Pool, index: nat, lead: int, agent: string)
    requires Leads(rows, lead, index)
    ensures agent in Suppliers(rows, index, readable) <==> CanSend(rows, rows[lead], index, readable, agent)
  {
    LeadingIsFirst(rows, lead, index);
  }

  lemma DueIff(rows: seq<Row>, readable: Pool, eligible: Pool, cfg: Settings, jobs: seq<Filed>, digest: string, total: nat,
               index: nat, target: string)
    requires index < total
    ensures Due(rows, readable, eligible, cfg, Active(jobs, digest, total, eligible), index, target)
       <==> exists lead :: ToSend(rows, readable, eligible, cfg, jobs, digest, index, target, lead)
  {
    if Due(rows, readable, eligible, cfg, Active(jobs, digest, total, eligible), index, target) {
      var lead := FirstLeads(rows, index);
      LeadingIsFirst(rows, lead, index);
      var sender :| sender in Suppliers(rows, index, readable);
      SendersIff(rows, readable, index, lead, sender);
      UnderWayIff(jobs, digest, total, eligible, index, target);
      assert ToSend(rows, readable, eligible, cfg, jobs, digest, index, target, lead);
    }
    if lead :| ToSend(rows, readable, eligible, cfg, jobs, digest, index, target, lead) {
      LeadingIsFirst(rows, lead, index);
      var sender :| CanSend(rows, rows[lead], index, readable, sender);
      SendersIff(rows, readable, index, lead, sender);
      UnderWayIff(jobs, digest, total, eligible, index, target);
    }
  }

  /** The transfer carries the first row's digest and size, from the smallest identity that can send it. */
  ghost predicate Carries(rows: seq<Row>, readable: Pool, t: Transfer, lead: int) {
    && Leads(rows, lead, t.index) && t.sha256 == rows[lead].sha256 && t.bytes == rows[lead].bytes && t.source != t.target
    && CanSend(rows, rows[lead], t.index, readable, t.source)
    && forall other :: CanSend(rows, rows[lead], t.index, readable, other) && other != t.source ==> TextLess(t.source, other)
  }

  lemma ProperCarries(rows: seq<Row>, readable: Pool, eligible: Pool, cfg: Settings, active: set<(nat, string)>, t: Transfer) returns (lead: nat)
    requires Proper(rows, readable, eligible, cfg, active, t)
    ensures Carries(rows, readable, t, lead)
  {
    lead := FirstLeads(rows, t.index);
    LeadingIsFirst(rows, lead, t.index);
    forall agent ensures agent in Suppliers(rows, t.index, readable) <==> CanSend(rows, rows[lead], t.index, readable, agent) {
      SendersIff(rows, readable, t.index, lead, agent);
    }
  }

  /** The orders of one index: one for exactly the planned agents to which the shard has to be sent. */
  ghost predicate Orders(rows: seq<Row>, readable: Pool, eligible: Pool, cfg: Settings, jobs: seq<Filed>, digest: string,
                         index: nat, plan: seq<string>, orders: seq<Transfer>)
  {
    && (forall a, b :: 0 <= a < b < |orders| ==> orders[a].target != orders[b].target)
    && (forall t :: t in orders ==> t.index == index && exists lead :: Carries(rows, readable, t, lead))
    && forall target :: (exists t :: t in orders && t.target == target)
         <==> target in plan && exists lead :: ToSend(rows, readable, eligible, cfg, jobs, digest, index, target, lead)
  }

  lemma PlannedIsOrdered(rows: seq<Row>, readable: Pool, eligible: Pool, cfg: Settings, jobs: seq<Filed>, digest: string, total: nat,
                         index: nat, plan: seq<string>, orders: seq<Transfer>)
    requires index < total
    requires ShardPlanned(rows, readable, eligible, cfg, Active(jobs, digest, total, eligible), index, plan, orders)
    ensures Orders(rows, readable, eligible, cfg, jobs, digest, index, plan, orders)
  {
    var active := Active(jobs, digest, total, eligible);
    forall t | t in orders ensures t.index == index && exists lead :: Carries(rows, readable, t, lead) {
      var lead := ProperCarries(rows, readable, eligible, cfg, active, t);
    }
    forall target ensures (exists t :: t in orders && t.target == target)
         <==> target in plan && exists lead :: ToSend(rows, readable, eligible, cfg, jobs, digest, index, target, lead) {
      DueIff(rows, readable, eligible, cfg, jobs, digest, total, index, target);
    }
  }

  /** The copies go round the zones of the agents that may receive. */
  ghost predicate GoesRound(eligible: Pool, key: string, zones: seq<string>, digest: string, index: nat, plan: seq<string>, score: Score)
    requires ZoneFacts.Zoned(eligible, key)
  {
    Arranges(zones, ZoneFacts.Zones(eligible, key), TextLess) ==>
      forall c :: 0 <= c < |plan| ==>
        zones != [] && plan[c] in eligible && ZoneFacts.InTurn(eligible, key, zones, digest, index, plan, c, score)
  }

  /** Different agents that may receive; where all of them have zones, in the zones whose turn it is. */
  ghost predicate InZones(eligible: Pool, key: string, digest: string, index: nat, plan: seq<string>, score: Score) {
    && Distinct(plan) && (forall id :: id in plan ==> id in eligible)
    && (ZoneFacts.Zoned(eligible, key) ==> forall zones :: GoesRound(eligible, key, zones, digest, index, plan, score))
  }

  lemma PlanGoesRound(eligible: Pool, cfg: Settings, zones: seq<string>, digest: string, index: nat, plan: seq<string>, score: Score)
    requires ZoneFacts.Zoned(eligible, cfg.domainLabel) && PlacesShard(eligible, cfg, digest, index, plan, score)
    ensures GoesRound(eligible, cfg.domainLabel, zones, digest, index, plan, score)
  {
    var key := cfg.domainLabel;
    ZoneFacts.ZonesAreDomains(eligible, key);
    if Arranges(zones, ZoneFacts.Zones(eligible, key), TextLess) {
      forall c | 0 <= c < |plan|
        ensures zones != [] && plan[c] in eligible && ZoneFacts.InTurn(eligible, key, zones, digest, index, plan, c, score)
      {
        assert Placement(eligible, key, zones, digest, index, plan, score);
        assert plan[c] in plan;
        ZoneFacts.ChoiceIsInTurn(eligible, key, zones, digest, index, plan, c, score);
      }
    }
  }

  lemma PlacedInZones(rows: seq<Row>, eligible: Pool, cfg: Settings, digest: string, plans: seq<seq<string>>, score: Score, i: nat)
    requires i < |plans| && Places(rows, eligible, cfg, digest, plans, score)
    ensures InZones(eligible, cfg.domainLabel, digest, i, plans[i], score)
  {
    if plans[i] != [] {
      assert PlacesShard(eligible, cfg, digest, i, plans[i], score);
      if ZoneFacts.Zoned(eligible, cfg.domainLabel) {
        forall zones ensures GoesRound(eligible, cfg.domainLabel, zones, digest, i, plans[i], score) {
          PlanGoesRound(eligible, cfg, zones, digest, i, plans[i], score);
        }
      }
    }
  }

  /** One round over one set. */
  method OrderShards(rows: seq<Row>, total: nat, agents: Pool, local: Option<Agent>, cfg: Settings, now: int, jobs: seq<Filed>,
                     digest: string, score: Score)
    returns (orders: seq<seq<Transfer>>, plans: seq<seq<string>>, ghost readable: Pool, ghost eligible: Pool)
    requires "" !in agents && (local.Some? ==> local.value.id == LOCAL)
    ensures forall id :: id in readable <==>
              || (local.Some? && id == LOCAL && (cfg.storage.enabled ==> local.value.storageHealth != "unhealthy"))
              || (id in agents && TakesPart(agents[id], cfg, now) && (cfg.storage.enabled ==> agents[id].storageHealth != "unhealthy"))
    ensures forall id :: id in eligible <==>
              || (local.Some? && id == LOCAL && AcceptsPlacement(local.value, cfg.storage))
              || (id in agents && TakesPart(agents[id], cfg, now) && AcceptsPlacement(agents[id], cfg.storage))
    ensures forall id :: id in eligible ==> (id in agents && eligible[id] == agents[id]) || (local.Some? && id == LOCAL && eligible[id] == local.value)
    ensures |orders| == |plans| == total
    ensures forall i :: 0 <= i < total ==> Orders(rows, readable, eligible, cfg, jobs, digest, i, plans[i], orders[i])
    ensures forall i :: 0 <= i < total ==> InZones(eligible, cfg.domainLabel, digest, i, plans[i], score)
    ensures forall i :: 0 <= i < total ==>
              |plans[i]| == if (exists lead :: Leads(rows, lead, i)) && 1 <= cfg.copies then Min(cfg.copies, |eligible|) else 0
  {
    forall id
      ensures id in ReadablePool(agents, local, cfg, now) <==>
                || (local.Some? && id == LOCAL && (cfg.storage.enabled ==> local.value.storageHealth != "unhealthy"))
                || (id in agents && TakesPart(agents[id], cfg, now) && (cfg.storage.enabled ==> agents[id].storageHealth != "unhealthy"))
      ensures id in EligiblePool(agents, local, cfg, now) <==>
                || (local.Some? && id == LOCAL && AcceptsPlacement(local.value, cfg.storage))
                || (id in agents && TakesPart(agents[id], cfg, now) && AcceptsPlacement(agents[id], cfg.storage))
    {
      PoolsIff(agents, local, cfg, now, id);
    }
    var senders, receivers := SplitPools(agents, local, cfg, now);
    readable, eligible := senders, receivers;
    orders, plans := PlanSet(rows, total, senders, receivers, cfg, jobs, digest, score);
    forall i | 0 <= i < total
      ensures Orders(rows, readable, eligible, cfg, jobs, digest, i, plans[i], orders[i])
      ensures InZones(eligible, cfg.domainLabel, digest, i, plans[i], score)
      ensures |plans[i]| == if (exists lead :: Leads(rows, lead, i)) && 1 <= cfg.copies then Min(cfg.copies, |eligible|) else 0
    {
      PlannedIsOrdered(rows, readable, eligible, cfg, jobs, digest, total, i, plans[i], orders[i]);
      PlacedInZones(rows, eligible, cfg, digest, plans, score, i);
      if First(rows, i).Some? {
        var lead := FirstLeads(rows, i);
      }
      if lead :| Leads(rows, lead, i) {
        LeadingIsFirst(rows, lead, i);
      }
    }
  }

  // --- The health report ------------------------------------------------------------------------------

  /** Copies count on agents seen in time, on durable storage, in the shard pool. */
  predicate Counted(agents: Pool, cfg: Settings, now: int, id: string) {
    && id in agents && now <= agents[id].lastSeen + cfg.timeout
    && CountsDurable(agents[id], cfg.storage) && InShardPool(agents[id], cfg.poolLabel)
  }

  lemma CountedIff(agents: Pool, cfg: Settings, now: int, id: string)
    ensures id in CountedPool(agents, cfg, now) <==> Counted(agents, cfg, now, id)
    ensures id in CountedPool(agents, cfg, now) ==> CountedPool(agents, cfg, now)[id] == agents[id]
  {
  }

  method ListCounted(agents: Pool, cfg: Settings, now: int) returns (counted: Pool)
    ensures counted == CountedPool(agents, cfg, now)
  {
    counted := map[];
    var todo := agents.Keys;
    while todo != {}
      invariant todo <= agents.Keys
      invariant counted == Walked(CountedPool(agents, cfg, now), todo)
    {
      var id :| id in todo;
      WalkedStep(CountedPool(agents, cfg, now), todo, id);
      todo := todo - {id};
      if now - agents[id].lastSeen <= cfg.timeout && CountsDurable(agents[id], cfg.storage) && InShardPool(agents[id], cfg.poolLabel) {
        counted := counted[id := agents[id]];
      }
    }
  }

  /** The verdict on a set, where the counted agents have zones: a shard is held when a counted agent has a ready row for
      it, and the set is healthy when there are enough zones and enough shards are held without any one of them. */
  method JudgeSet(agents: Pool, cfg: Settings, now: int, rows: seq<ShardHealth.ShardRow>, k: int, minDomains: int)
    returns (v: ShardHealth.Verdict)
    requires ZoneFacts.Zoned(CountedPool(agents, cfg, now), cfg.domainLabel)
    ensures v == ShardHealth.Unrecoverable <==> |ZoneFacts.Held(rows, CountedPool(agents, cfg, now))| < k
    ensures var counted, key := CountedPool(agents, cfg, now), cfg.domainLabel;
            v == ShardHealth.Healthy <==>
              && k <= |ZoneFacts.Held(rows, counted)| && minDomains <= |ZoneFacts.HeldZones(rows, counted, key)|
              && forall zone :: zone in ZoneFacts.HeldZones(rows, counted, key) ==> k <= |ZoneFacts.HeldWithout(rows, counted, key, zone)|
  {
    var counted := ListCounted(agents, cfg, now);
    v := ZoneFacts.JudgeZones(rows, counted, cfg.domainLabel, k, minDomains);
  }
}
