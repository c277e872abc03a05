/** From placement to health: one round of shard transfers makes an erasure set healthy
    (internal/controlplane/erasure_distributed.go). */
module ShardConvergence {
  import opened Prelude
  import opened Finite
  import opened Ordering
  import opened Agents
  import opened ShardPlacement
  import opened ShardHealth
  import opened PlacementResilience
  import opened ShardReconcile

  // --- What a round leaves in the shard table --------------------------------------------

  /** Every row kept, and one for every transfer queued now or under way before. */
  ghost predicate Installed(rows: seq<Row>, after: seq<Row>, orders: seq<seq<Transfer>>, active: set<(nat, string)>) {
    && (forall r :: r in rows ==> r in after)
    && (forall i, t :: 0 <= i < |orders| && t in orders[i] ==> Holds(after, i, t.target))
    && forall i: nat, target: string :: (i, target) in active ==> Holds(after, i, target)
  }

  /** Every shard has a copy somewhere, and every missing copy has a supplier and room at its target. */
  ghost predicate Supplied(rows: seq<Row>, readable: Pool, eligible: Pool, cfg: Settings, plans: seq<seq<string>>) {
    && (forall i :: 0 <= i < |plans| ==> First(rows, i).Some?)
    && forall i, target :: 0 <= i < |plans| && target in plans[i] && target in eligible && !Holds(rows, i, target) ==>
         Suppliers(rows, i, readable) != {} && HasCapacityFor(eligible[target], cfg.storage, First(rows, i).value.bytes)
  }

  lemma HeldStays(rows: seq<Row>, after: seq<Row>, index: int, agent: string)
    requires Holds(rows, index, agent) && forall r :: r in rows ==> r in after
    ensures Holds(after, index, agent)
  {
  }

  /** After the round every planned agent holds its shard. */
  lemma RoundPlaces(rows: seq<Row>, after: seq<Row>, readable: Pool, eligible: Pool, cfg: Settings, active: set<(nat, string)>,
                    plans: seq<seq<string>>, orders: seq<seq<Transfer>>, i: nat, target: string)
    requires |orders| == |plans| && i < |plans| && target in plans[i] && target in eligible
    requires ShardPlanned(rows, readable, eligible, cfg, active, i, plans[i], orders[i])
    requires Supplied(rows, readable, eligible, cfg, plans) && Installed(rows, after, orders, active)
    ensures Holds(after, i, target)
  {
    if Holds(rows, i, target) {
      HeldStays(rows, after, i, target);
    } else if (i, target) !in active {
      assert Due(rows, readable, eligible, cfg, active, i, target);
      var t :| t in orders[i] && t.target == target;
    }
  }

  // --- The planned copies as a shard table of their own ------------------------------------

  function RowsFor(i: nat, plan: seq<string>): seq<ShardRow> {
    seq(|plan|, j requires 0 <= j < |plan| => ShardRow(i, plan[j], true))
  }

  function PlanRows(plans: seq<seq<string>>): seq<ShardRow> {
    if plans == [] then []
    else PlanRows(plans[..|plans| - 1]) + RowsFor(|plans| - 1, plans[|plans| - 1])
  }

  lemma {:induction false} PlanRowsMember(plans: seq<seq<string>>, r: ShardRow)
    ensures r in PlanRows(plans) <==> r.ready && 0 <= r.index < |plans| && r.agent in plans[r.index]
  {
    if plans != [] {
      var front, n := plans[..|plans| - 1], |plans| - 1;
      PlanRowsMember(front, r);
      if r.ready && r.index == n && r.agent in plans[n] {
        var j :| 0 <= j < |plans[n]| && plans[n][j] == r.agent;
        assert RowsFor(n, plans[n])[j] == r;
      }
    }
  }

  lemma PlanRowsPlaced(agents: Pool, plans: seq<seq<string>>)
    requires forall i :: 0 <= i < |plans| ==> forall id :: id in plans[i] ==> id in agents
    ensures FullyPlaced(PlanRows(plans), agents, plans)
  {
    var rows := PlanRows(plans);
    forall i ensures Copies(rows, agents, i) == if 0 <= i < |plans| then Elements(plans[i]) else {} {
      forall a | a in Copies(rows, agents, i) ensures 0 <= i < |plans| && a in plans[i] {
        var r :| r in rows && Counts(r, agents) && r.index == i && r.agent == a;
        PlanRowsMember(plans, r);
      }
      if 0 <= i < |plans| {
        forall a | a in plans[i] ensures a in Copies(rows, agents, i) {
          PlanRowsMember(plans, ShardRow(i, a, true));
        }
      }
    }
  }

  // --- Health after the round -----------------------------------------------------------------

  /** The health report's view of the table. */
  function HealthRows(rows: seq<Row>): seq<ShardRow> {
    seq(|rows|, i requires 0 <= i < |rows| => ShardRow(rows[i].index, rows[i].agent, rows[i].ready))
  }

  lemma HeldIsCopy(rows: seq<Row>, counted: Pool, index: int, agent: string)
    requires Holds(rows, index, agent) && agent in counted
    ensures agent in Copies(HealthRows(rows), counted, index)
  {
    var r :| r in rows && ReadyRow(r, index) && r.agent == agent;
    var j :| 0 <= j < |rows| && rows[j] == r;
    assert HealthRows(rows)[j] == ShardRow(index, agent, true);
    assert ShardRow(index, agent, true) in HealthRows(rows);
  }

  /** Agents fit for placement are counted by the health report, except this host: a shard on it never counts,
      so that the report agrees with the reconciler exactly when this host takes no part. */
  lemma EligibleIsCountedIff(agents: Pool, local: Option<Agent>, cfg: Settings, now: int)
    requires LOCAL !in agents && (local.Some? ==> local.value.id == LOCAL)
    ensures (forall id :: id in EligiblePool(agents, local, cfg, now) ==>
               && id in CountedPool(agents, cfg, now)
               && CountedPool(agents, cfg, now)[id] == EligiblePool(agents, local, cfg, now)[id])
       <==> local.None? || !AcceptsPlacement(local.value, cfg.storage)
  {
    var eligible, counted := EligiblePool(agents, local, cfg, now), CountedPool(agents, cfg, now);
    forall id | id in eligible && id != LOCAL ensures id in counted && counted[id] == eligible[id] {
      FitnessChain(agents[id], cfg.storage, 0, 0);
    }
    if local.Some? && AcceptsPlacement(local.value, cfg.storage) {
      assert LOCAL in eligible && LOCAL !in counted;
    }
  }

  /** A fleet of this host alone: whatever shards it holds, the report calls every set unrecoverable. */
  lemma LoneHostUnrecoverable(cfg: Settings, now: int, rows: seq<Row>, k: nat, minDomains: int)
    requires 1 <= k
    ensures Judgement(SpreadOf(HealthRows(rows), CountedPool(map[], cfg, now), cfg.domainLabel), k, minDomains) == Unrecoverable
  {
    var s := SpreadOf(HealthRows(rows), CountedPool(map[], cfg, now), cfg.domainLabel);
    forall i ensures i !in s {
      assert Copies(HealthRows(rows), CountedPool(map[], cfg, now), i) == {};
    }
    assert s == map[];
  }

  /** Every planned copy is there and counted. */
  ghost predicate Realised(after: seq<ShardRow>, eligible: Pool, counted: Pool, plans: seq<seq<string>>) {
    && (forall id :: id in eligible ==> id in counted && counted[id] == eligible[id])
    && forall i, id :: 0 <= i < |plans| && id in plans[i] ==> id in eligible && id in Copies(after, counted, i)
  }

  lemma RealisedSpread(after: seq<ShardRow>, eligible: Pool, counted: Pool, key: string, plans: seq<seq<string>>)
    requires Realised(after, eligible, counted, plans)
    ensures var s, more := SpreadOf(PlanRows(plans), eligible, key), SpreadOf(after, counted, key);
            forall i :: i in s ==> s[i] != {} && i in more && s[i] <= more[i]
  {
    PlanRowsPlaced(eligible, plans);
    var s, more := SpreadOf(PlanRows(plans), eligible, key), SpreadOf(after, counted, key);
    forall i | i in s ensures s[i] != {} && i in more && s[i] <= more[i] {
      var copies := Copies(PlanRows(plans), eligible, i);
      assert copies == Elements(plans[i]);
      assert copies <= Copies(after, counted, i);
      var x := Inhabited(copies);
      assert DomainOf(eligible, key, x) in s[i];
      SpreadGrows(copies, Copies(after, counted, i), eligible, counted, key);
    }
  }

  lemma SpreadGrows(copies: set<string>, more: set<string>, eligible: Pool, counted: Pool, key: string)
    requires copies <= more && copies <= eligible.Keys && more <= counted.Keys
    requires forall id :: id in eligible ==> id in counted && counted[id] == eligible[id]
    ensures DomainsOf(copies, eligible, key) <= DomainsOf(more, counted, key)
  {
    forall d | d in DomainsOf(copies, eligible, key) ensures d in DomainsOf(more, counted, key) {
      var a :| a in copies && DomainOf(eligible, key, a) == d;
      assert DomainOf(counted, key, a) == d;
    }
  }

  lemma ManyDomains(s: Spread, domains: seq<string>, n: nat, copies: int)
    requires Shape(s, domains, n, copies)
    ensures Min(n, |domains|) <= |AllDomains(s)|
  {
    var u := Min(n, |domains|);
    forall e | e in domains[..u] ensures e in AllDomains(s) {
      var i :| 0 <= i < u && domains[i] == e;
      DivUnique(i, |domains|, 0, i);
      assert Turn(domains, i, 0) == e;
      assert i in s && e in s[i];
    }
    DistinctSize(domains[..u]);
    SubsetSize(Elements(domains[..u]), AllDomains(s));
  }

  lemma GrownJudgement(s: Spread, more: Spread, k: nat, minDomains: int)
    requires Resilient(s, k) && k <= |s| && minDomains <= |AllDomains(s)|
    requires forall i :: i in s ==> s[i] != {} && i in more && s[i] <= more[i]
    ensures Judgement(more, k, minDomains) == Healthy
  {
    SurplusKeepsResilience(s, more, k);
    SubsetSize(s.Keys, more.Keys);
    forall d | d in AllDomains(s) ensures d in AllDomains(more) {
      var i :| i in s && d in s[i];
      assert i in more && d in more[i];
    }
    SubsetSize(AllDomains(s), AllDomains(more));
  }

  lemma ShapeIsSound(s: Spread, domains: seq<string>, copies: int, k: nat, m: nat)
    requires Shape(s, domains, k + m, copies) && 1 <= copies && 1 <= k
    requires 2 <= |domains| && (2 <= copies || CeilDiv(k + m, |domains|) <= m)
    ensures Resilient(s, k) && k <= |s| && Min(k + m, |domains|) <= |AllDomains(s)|
  {
    ShapeResilience(s, domains, copies, k, m);
    ManyDomains(s, domains, k + m, copies);
    SpreadKeys(s, k + m);
  }

  lemma PlanShape(eligible: Pool, key: string, domains: seq<string>, digest: string, copies: int, plans: seq<seq<string>>, score: Score)
    requires Planned(eligible, key, domains, digest, copies, plans, score) && 1 <= copies && 2 <= |domains|
    ensures Shape(SpreadOf(PlanRows(plans), eligible, key), domains, |plans|, copies)
  {
    DomainCount(eligible, key, domains);
    assert eligible.Keys != {};
    PlanRowsPlaced(eligible, plans);
    PlannedSpread(eligible, key, domains, digest, copies, plans, score, PlanRows(plans));
  }

  lemma RealisedIsHealthy(after: seq<ShardRow>, eligible: Pool, counted: Pool, key: string, domains: seq<string>, digest: string,
                          copies: int, plans: seq<seq<string>>, score: Score, k: nat, m: nat, minDomains: int)
    requires Planned(eligible, key, domains, digest, copies, plans, score) && Realised(after, eligible, counted, plans)
    requires 1 <= copies && 1 <= k && |plans| == k + m && minDomains <= Min(k + m, |domains|)
    requires 2 <= |domains| && (2 <= copies || CeilDiv(k + m, |domains|) <= m)
    ensures Judgement(SpreadOf(after, counted, key), k, minDomains) == Healthy
  {
    PlanShape(eligible, key, domains, digest, copies, plans, score);
    var s := SpreadOf(PlanRows(plans), eligible, key);
    ShapeIsSound(s, domains, copies, k, m);
    RealisedSpread(after, eligible, counted, key, plans);
    GrownJudgement(s, SpreadOf(after, counted, key), k, minDomains);
  }

  lemma PlacedIsPlanned(rows: seq<Row>, eligible: Pool, cfg: Settings, digest: string, plans: seq<seq<string>>, score: Score,
                        domains: seq<string>)
    requires Places(rows, eligible, cfg, digest, plans, score) && 1 <= cfg.copies && 2 <= |domains|
    requires Arranges(domains, Domains(eligible, cfg.domainLabel), TextLess)
    requires forall i :: 0 <= i < |plans| ==> First(rows, i).Some?
    ensures Planned(eligible, cfg.domainLabel, domains, digest, cfg.copies, plans, score)
  {
    DomainCount(eligible, cfg.domainLabel, domains);
    forall i | 0 <= i < |plans|
      ensures Placement(eligible, cfg.domainLabel, domains, digest, i, plans[i], score)
      ensures |plans[i]| == Min(cfg.copies, |eligible|) && forall id :: id in plans[i] ==> id in eligible
    {
      assert PlacesShard(eligible, cfg, digest, i, plans[i], score);
    }
  }

  /** One round of the reconciler, all of its transfers installed, makes a supplied set of `k + m` shards healthy
      whenever the pool's domains allow it at all and this host is not one of its placement targets. */
  lemma RoundIsHealthy(agents: Pool, local: Option<Agent>, cfg: Settings, now: int, rows: seq<Row>, after: seq<Row>, active: set<(nat, string)>,
                       digest: string, plans: seq<seq<string>>, orders: seq<seq<Transfer>>, score: Score, domains: seq<string>,
                       k: nat, m: nat, minDomains: int)
    requires var readable, eligible := ReadablePool(agents, local, cfg, now), EligiblePool(agents, local, cfg, now);
             && Places(rows, eligible, cfg, digest, plans, score) && |orders| == |plans| == k + m
             && (forall i :: 0 <= i < k + m ==> ShardPlanned(rows, readable, eligible, cfg, active, i, plans[i], orders[i]))
             && Supplied(rows, readable, eligible, cfg, plans) && Installed(rows, after, orders, active)
             && Arranges(domains, Domains(eligible, cfg.domainLabel), TextLess)
    requires LOCAL !in agents && (local.Some? ==> local.value.id == LOCAL && !AcceptsPlacement(local.value, cfg.storage))
    requires 1 <= cfg.copies && 1 <= k && minDomains <= Min(k + m, |domains|)
    requires 2 <= |domains| && (2 <= cfg.copies || CeilDiv(k + m, |domains|) <= m)
    ensures Judgement(SpreadOf(HealthRows(after), CountedPool(agents, cfg, now), cfg.domainLabel), k, minDomains) == Healthy
  {
    var readable, eligible, counted := ReadablePool(agents, local, cfg, now), EligiblePool(agents, local, cfg, now), CountedPool(agents, cfg, now);
    EligibleIsCountedIff(agents, local, cfg, now);
    PlacedIsPlanned(rows, eligible, cfg, digest, plans, score, domains);
    forall i, id | 0 <= i < |plans| && id in plans[i] ensures id in eligible && id in Copies(HealthRows(after), counted, i) {
      RoundPlaces(rows, after, readable, eligible, cfg, active, plans, orders, i, id);
      HeldIsCopy(after, counted, i, id);
    }
    RealisedIsHealthy(HealthRows(after), eligible, counted, cfg.domainLabel, domains, digest, cfg.copies, plans, score, k, m, minDomains);
  }
}
