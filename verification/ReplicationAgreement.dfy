/** The reconciler, the health report and the restore selector judge copies separately;
    these results say how their judgements relate, and that reconciling converges. */
module ReplicationAgreement {
  import opened Prelude
  import opened Finite
  import opened Ordering
  import opened Agents
  import opened Replication

  // --- Agreement ----------------------------------------------------------------

  lemma EligibleIsOnline(v: View, id: string)
    requires Wellformed(v) && id in Eligible(v)
    ensures id in Online(v) && id in Admitted(v) && id in Sources(v)
    ensures Online(v)[id] == Eligible(v)[id] == Admitted(v)[id]
    ensures AcceptsPlacement(Eligible(v)[id], v.storage) && CountsDurable(Admitted(v)[id], v.storage)
  {
    FitnessChain(Eligible(v)[id], v.storage, 0, 0);
  }

  /** The healthy copies of the reconciler are among those the report counts. */
  lemma HealthyAreCounted(v: View, reps: seq<Replica>)
    requires Wellformed(v)
    ensures HealthyReady(v, reps) <= OnlineHolders(v, reps)
    ensures HealthyDomains(v, reps) <= OnlineDomains(v, reps)
    ensures HealthyReady(v, reps) <= Ready(v, reps)
  {
    forall id | id in HealthyReady(v, reps) ensures id in OnlineHolders(v, reps) && id in Ready(v, reps) {
      EligibleIsOnline(v, id);
    }
    forall d | d in HealthyDomains(v, reps) ensures d in OnlineDomains(v, reps) {
      var id :| id in HealthyReady(v, reps) && d != "" && FailureDomain(Eligible(v)[id], v.cfg.domainLabel) == d;
      EligibleIsOnline(v, id);
    }
  }

  /** A generation the reconciler leaves alone is reported healthy, given the minimum of at least one healthy
      copy that the configuration demands; the report then sees a copy. */
  lemma SatisfiedIsHealthy(v: View, reps: seq<Replica>)
    requires Wellformed(v) && Satisfied(v, reps)
    ensures CountedHealthy(v, reps) <==> OnlineHolders(v, reps) != {}
    ensures 1 <= v.cfg.minHealthy ==> CountedHealthy(v, reps)
  {
    HealthyAreCounted(v, reps);
    SubsetSize(HealthyReady(v, reps), OnlineHolders(v, reps));
    SubsetSize(HealthyDomains(v, reps), OnlineDomains(v, reps));
  }

  /** Every copy the report counts can serve a restore, so a healthy generation has one. */
  lemma HealthyIsRestorable(v: View, reps: seq<Replica>)
    requires Wellformed(v)
    ensures OnlineHolders(v, reps) <= Restorable(v, reps)
    ensures CountedHealthy(v, reps) ==> Restorable(v, reps) != {}
  {
    forall id | id in OnlineHolders(v, reps) ensures id in Restorable(v, reps) {
      FitnessChain(Online(v)[id], v.storage, 0, 0);
    }
    if CountedHealthy(v, reps) {
      var id :| id in OnlineHolders(v, reps);
    }
  }

  // --- What one round queues ------------------------------------------------------

  ghost function Chosen(v: View, reps: seq<Replica>, targets: seq<string>): seq<string> {
    targets[..Min(Need(v, reps), |targets|)]
  }

  lemma {:induction false} TransfersMembers(sources: seq<string>, targets: seq<string>, need: nat, busy: set<string>, t: Transfer)
    requires sources != [] && need <= |targets| && t in Transfers(sources, targets, need, busy)
    ensures t.source in sources && t.target in targets[..need] && t.target !in busy
  {
    var i := need - 1;
    if t in Transfers(sources, targets, i, busy) {
      TransfersMembers(sources, targets, i, busy, t);
    } else {
      assert targets[..need][i] == t.target;
    }
  }

  /** No transfer goes to an agent that already holds a copy, nor to its own source, and
      every source holds one. */
  lemma NoRedundantTransfer(v: View, reps: seq<Replica>, busy: set<string>,
                            sources: seq<string>, targets: seq<string>, plan: seq<Transfer>, t: Transfer)
    requires Wellformed(v) && Plan(v, reps, busy, sources, targets, plan) && t in plan
    ensures t.source in Holders(reps) && t.source in Sources(v)
    ensures t.target in Eligible(v) && t.target !in Holders(reps) && t.target != t.source
    ensures t.target !in busy
  {
    TransfersMembers(sources, targets, Min(Need(v, reps), |targets|), busy, t);
    assert t.target in TargetIds(v, reps);
    assert t.source in SourceIds(v, reps);
    TargetHoldsNothing(v, reps, t.target);
  }

  lemma TargetHoldsNothing(v: View, reps: seq<Replica>, id: string)
    requires Wellformed(v) && id in TargetIds(v, reps)
    ensures id !in Holders(reps)
  {
    EligibleIsOnline(v, id);
  }

  // --- Rounds -----------------------------------------------------------------------

  /** Records a finished copy, replacing the agent's previous row. */
  function Record(reps: seq<Replica>, r: Replica): seq<Replica> {
    if reps == [] then [r]
    else if reps[0].agent == r.agent then [r] + reps[1..]
    else [reps[0]] + Record(reps[1..], r)
  }

  function RecordAll(reps: seq<Replica>, plan: seq<Transfer>, size: string -> int): seq<Replica> {
    if plan == [] then reps
    else
      var t := plan[|plan| - 1].target;
      Record(RecordAll(reps, plan[..|plan| - 1], size), Replica(t, true, size(t)))
  }

  ghost function AgentsOf(reps: seq<Replica>): set<string> {
    set r | r in reps :: r.agent
  }

  lemma ConsSets(x: Replica, tail: seq<Replica>)
    ensures Holders([x] + tail) == Holders(tail) + if x.ready then {x.agent} else {}
    ensures AgentsOf([x] + tail) == AgentsOf(tail) + {x.agent}
  {
    assert x in [x] + tail;
    assert forall y :: y in [x] + tail <==> y == x || y in tail;
  }

  lemma ConsKeyed(x: Replica, tail: seq<Replica>)
    ensures Keyed([x] + tail) <==> Keyed(tail) && x.agent !in AgentsOf(tail)
  {
    var all := [x] + tail;
    if Keyed(all) {
      assert forall i :: 0 <= i < |tail| ==> tail[i] == all[i + 1];
      forall y | y in tail ensures y.agent != x.agent {
        var j :| 0 <= j < |tail| && tail[j] == y;
        assert all[0].agent != all[j + 1].agent;
      }
    }
  }

  lemma {:induction false} RecordFacts(reps: seq<Replica>, r: Replica)
    requires Keyed(reps) && r.ready
    ensures Keyed(Record(reps, r))
    ensures Holders(Record(reps, r)) == Holders(reps) + {r.agent}
    ensures AgentsOf(Record(reps, r)) == AgentsOf(reps) + {r.agent}
  {
    if reps == [] {
      ConsSets(r, []);
    } else {
      var x, tail := reps[0], reps[1..];
      assert reps == [x] + tail;
      ConsSets(x, tail);
      ConsKeyed(x, tail);
      if x.agent == r.agent {
        ConsSets(r, tail);
        ConsKeyed(r, tail);
      } else {
        RecordFacts(tail, r);
        ConsSets(x, Record(tail, r));
        ConsKeyed(x, Record(tail, r));
      }
    }
  }

  lemma {:induction false} RecordBytes(reps: seq<Replica>, r: Replica, bound: int)
    requires r.bytes <= bound && forall x :: x in reps ==> x.bytes <= bound
    ensures forall x :: x in Record(reps, r) ==> x.bytes <= bound
  {
    if reps != [] {
      assert reps == [reps[0]] + reps[1..];
      RecordBytes(reps[1..], r, bound);
    }
  }

  function Targets(plan: seq<Transfer>): set<string> {
    set t | t in plan :: t.target
  }

  lemma TargetsStep(before: seq<Transfer>, t: Transfer)
    ensures Targets(before + [t]) == Targets(before) + {t.target}
  {
    assert t in before + [t];
    assert forall x :: x in before + [t] <==> x in before || x == t;
  }

  predicate Bounded(reps: seq<Replica>, bound: int) {
    forall x :: x in reps ==> x.bytes <= bound
  }

  lemma {:induction false} RecordAllBounded(reps: seq<Replica>, plan: seq<Transfer>, size: string -> int, bound: int)
    requires Keyed(reps) && Bounded(reps, bound) && forall id :: size(id) <= bound
    ensures Keyed(RecordAll(reps, plan, size)) && Bounded(RecordAll(reps, plan, size), bound)
  {
    if plan != [] {
      var t := plan[|plan| - 1];
      var done := RecordAll(reps, plan[..|plan| - 1], size);
      RecordAllBounded(reps, plan[..|plan| - 1], size, bound);
      RecordFacts(done, Replica(t.target, true, size(t.target)));
      RecordBytes(done, Replica(t.target, true, size(t.target)), bound);
    }
  }

  lemma {:induction false} RecordAllHolders(reps: seq<Replica>, plan: seq<Transfer>, size: string -> int, bound: int)
    requires Keyed(reps) && Bounded(reps, bound) && forall id :: size(id) <= bound
    ensures Holders(RecordAll(reps, plan, size)) == Holders(reps) + Targets(plan)
  {
    if plan != [] {
      var t, before := plan[|plan| - 1], plan[..|plan| - 1];
      RecordAllHolders(reps, before, size, bound);
      RecordAllBounded(reps, before, size, bound);
      RecordFacts(RecordAll(reps, before, size), Replica(t.target, true, size(t.target)));
      assert plan == before + [t];
      TargetsStep(before, t);
    }
  }

  /** One reconciliation of an idle generation, after which every queued transfer succeeds. */
  ghost predicate Round(v: View, reps: seq<Replica>, reps': seq<Replica>, bound: int) {
    exists sources, targets, plan, size: string -> int ::
      && Plan(v, reps, {}, sources, targets, plan)
      && (forall id :: size(id) <= bound)
      && reps' == RecordAll(reps, plan, size)
  }

  // --- Progress -----------------------------------------------------------------------

  /** Agents with room for a copy of `bound` bytes. */
  ghost function Roomy(v: View, bound: int): set<string> {
    set id | id in Eligible(v) && HasCapacityFor(Eligible(v)[id], v.storage, bound)
  }

  /** The fleet can satisfy the configuration at all. */
  ghost predicate Enough(v: View, reps: seq<Replica>, bound: int) {
    && Keyed(reps) && Bounded(reps, bound) && 0 <= bound
    && SourceIds(v, reps) != {}
    && |Ready(v, reps) + Roomy(v, bound)| >= v.cfg.factor
    && |HealthyReady(v, reps) + Roomy(v, bound)| >= v.cfg.minHealthy
    && (DomainsWanted(v.cfg) ==>
          |HealthyDomains(v, reps) + NamedDomains(Eligible(v), Roomy(v, bound), v.cfg.domainLabel)| >= v.cfg.minDomains)
  }

  /** An upper bound on the rounds still needed, given what is there. */
  function Left(cfg: Config, ready: nat, healthy: nat, domains: nat): nat {
    if ready >= cfg.factor && healthy >= cfg.minHealthy && (DomainsWanted(cfg) ==> domains >= cfg.minDomains) then 0
    else if DomainsWanted(cfg) then Max(1, cfg.minDomains - domains)
    else 1
  }

  ghost function RoundsLeft(v: View, reps: seq<Replica>): nat {
    Left(v.cfg, |Ready(v, reps)|, |HealthyReady(v, reps)|, |HealthyDomains(v, reps)|)
  }

  lemma {:induction false} IdleTransfers(sources: seq<string>, targets: seq<string>, need: nat)
    requires sources != [] && need <= |targets|
    ensures Targets(Transfers(sources, targets, need, {})) == Elements(targets[..need])
  {
    if need > 0 {
      var i := need - 1;
      IdleTransfers(sources, targets, i);
      assert targets[..need] == targets[..i] + [targets[i]];
      var last := Transfer(sources[i % |sources|], targets[i]);
      TargetsStep(Transfers(sources, targets, i, {}), last);
    }
  }

  /** What a plan that is carried out adds: the chosen targets. */
  lemma PlanAdds(v: View, reps: seq<Replica>, sources: seq<string>, targets: seq<string>, plan: seq<Transfer>, size: string -> int, bound: int)
    requires Queued(v, reps, {}, sources, targets, plan) && Keyed(reps) && Bounded(reps, bound) && forall id :: size(id) <= bound
    ensures Holders(RecordAll(reps, plan, size)) == Holders(reps) + Elements(Chosen(v, reps, targets))
    ensures Keyed(RecordAll(reps, plan, size)) && Bounded(RecordAll(reps, plan, size), bound)
  {
    RecordAllBounded(reps, plan, size, bound);
    RecordAllHolders(reps, plan, size, bound);
    IdleTransfers(sources, targets, Min(Need(v, reps), |targets|));
  }

  /** What a round adds: the chosen targets become holders, ready and healthy. */
  lemma RoundAdds(v: View, reps: seq<Replica>, reps': seq<Replica>, bound: int) returns (targets: seq<string>, added: set<string>)
    requires Wellformed(v) && !Satisfied(v, reps) && Enough(v, reps, bound) && Round(v, reps, reps', bound)
    ensures Arranges(targets, TargetIds(v, reps), TargetOrder(Eligible(v), v.cfg.domainLabel, HealthyDomains(v, reps)))
    ensures added == Elements(Chosen(v, reps, targets))
    ensures Keyed(reps') && Bounded(reps', bound)
    ensures Holders(reps') == Holders(reps) + added
  {
    var sources, plan, size: string -> int;
    sources, targets, plan, size :|
      && Plan(v, reps, {}, sources, targets, plan)
      && (forall id :: size(id) <= bound)
      && reps' == RecordAll(reps, plan, size);
    PlanAdds(v, reps, sources, targets, plan, size, bound);
    added := Elements(Chosen(v, reps, targets));
  }

  /** Chosen targets count as copies and as healthy copies at once. */
  lemma AddedCount(v: View, reps: seq<Replica>, reps': seq<Replica>, added: set<string>)
    requires Wellformed(v) && added <= TargetIds(v, reps) && Holders(reps') == Holders(reps) + added
    ensures Ready(v, reps') == Ready(v, reps) + added && Ready(v, reps) !! added
    ensures HealthyReady(v, reps') == HealthyReady(v, reps) + added && HealthyReady(v, reps) !! added
    ensures SourceIds(v, reps) <= SourceIds(v, reps')
  {
    HealthyAreCounted(v, reps);
    forall id | id in added ensures id in Eligible(v) && id in Ready(v, reps') && id !in Ready(v, reps) {
      EligibleIsOnline(v, id);
    }
    assert HealthyReady(v, reps') == HealthyReady(v, reps) + added;
  }

  lemma AddedDomains(v: View, reps: seq<Replica>, reps': seq<Replica>, added: set<string>)
    requires HealthyReady(v, reps') == HealthyReady(v, reps) + added
    ensures HealthyDomains(v, reps') == HealthyDomains(v, reps) + NamedDomains(Eligible(v), added, v.cfg.domainLabel)
  {
  }

  lemma {:induction false} BytesBounded(reps: seq<Replica>, bound: int)
    requires Bounded(reps, bound) && 0 <= bound
    ensures GenerationBytes(reps) <= bound
  {
    if reps != [] {
      BytesBounded(reps[..|reps| - 1], bound);
      assert reps[|reps| - 1] in reps;
    }
  }

  lemma RoomyAreTargets(v: View, reps: seq<Replica>, bound: int)
    requires Bounded(reps, bound) && 0 <= bound
    ensures Roomy(v, bound) - Ready(v, reps) <= TargetIds(v, reps)
  {
    BytesBounded(reps, bound);
    forall id | id in Roomy(v, bound) - Ready(v, reps) ensures id in TargetIds(v, reps) {
      FitnessChain(Eligible(v)[id], v.storage, GenerationBytes(reps), bound);
    }
  }

  lemma FirstFew(ids: set<string>, less: (string, string) -> bool, targets: seq<string>, need: nat, added: set<string>)
    requires StrictOrder(less) && Arranges(targets, ids, less)
    requires added == Elements(targets[..Min(need, |targets|)])
    ensures added <= ids && (|added| >= need || added == ids)
    ensures 0 < need && targets != [] ==> targets[0] in added
  {
    var chosen := targets[..Min(need, |targets|)];
    AscendingDistinct(chosen, less);
    assert forall id :: id in chosen ==> id in targets;
    if |chosen| == |targets| {
      assert chosen == targets;
    }
  }

  /** Either every shortage of copies is met in one round or every possible target was used. */
  lemma ChosenSuffice(v: View, reps: seq<Replica>, targets: seq<string>, added: set<string>)
    requires Arranges(targets, TargetIds(v, reps), TargetOrder(Eligible(v), v.cfg.domainLabel, HealthyDomains(v, reps)))
    requires added == Elements(Chosen(v, reps, targets))
    ensures added <= TargetIds(v, reps)
    ensures |added| >= Need(v, reps) || added == TargetIds(v, reps)
    ensures 0 < Need(v, reps) && targets != [] ==> targets[0] in added
  {
    var less := TargetOrder(Eligible(v), v.cfg.domainLabel, HealthyDomains(v, reps));
    MeritOrder(id => TargetMerit(Eligible(v), v.cfg.domainLabel, HealthyDomains(v, reps), id));
    FirstFew(TargetIds(v, reps), less, targets, Need(v, reps), added);
  }

  /** After a round the copy count and the healthy count are as configured. */
  lemma CountsMet(v: View, reps: seq<Replica>, reps': seq<Replica>, added: set<string>, bound: int)
    requires Wellformed(v) && Enough(v, reps, bound)
    requires added <= TargetIds(v, reps) && Holders(reps') == Holders(reps) + added
    requires |added| >= Need(v, reps) || added == TargetIds(v, reps)
    ensures |Ready(v, reps')| >= v.cfg.factor && |HealthyReady(v, reps')| >= v.cfg.minHealthy
  {
    AddedCount(v, reps, reps', added);
    RoomyAreTargets(v, reps, bound);
    UnionSize(Ready(v, reps), added);
    UnionSize(HealthyReady(v, reps), added);
    if added == TargetIds(v, reps) {
      SubsetSize(Ready(v, reps) + Roomy(v, bound), Ready(v, reps'));
      RoomyReadyHealthy(v, reps, bound);
      SubsetSize(HealthyReady(v, reps) + Roomy(v, bound), HealthyReady(v, reps'));
    }
  }

  /** An eligible agent that counts as a copy counts as a healthy one. */
  lemma RoomyReadyHealthy(v: View, reps: seq<Replica>, bound: int)
    ensures Roomy(v, bound) * Ready(v, reps) <= HealthyReady(v, reps)
  {
  }

  predicate Unseen(fleet: Fleet, name: string, seen: set<string>, id: string) {
    id in fleet && FailureDomain(fleet[id], name) != "" && FailureDomain(fleet[id], name) !in seen
  }

  lemma UnseenComesFirst(fleet: Fleet, name: string, seen: set<string>, targets: seq<string>, id: string)
    requires Ascending(targets, TargetOrder(fleet, name, seen)) && (forall x :: x in targets ==> x in fleet)
    requires id in targets && Unseen(fleet, name, seen, id)
    ensures Unseen(fleet, name, seen, targets[0])
  {
    var less := TargetOrder(fleet, name, seen);
    var i :| 0 <= i < |targets| && targets[i] == id;
    if i > 0 {
      assert less(targets[0], targets[i]);
      assert targets[0] in targets;
    }
  }

  /** While domains are missing, the best target lies in an unseen one. */
  lemma UnseenFirst(v: View, reps: seq<Replica>, targets: seq<string>, bound: int)
    requires Wellformed(v) && Enough(v, reps, bound)
    requires DomainsWanted(v.cfg) && |HealthyDomains(v, reps)| < v.cfg.minDomains
    requires Arranges(targets, TargetIds(v, reps), TargetOrder(Eligible(v), v.cfg.domainLabel, HealthyDomains(v, reps)))
    ensures targets != [] && Unseen(Eligible(v), v.cfg.domainLabel, HealthyDomains(v, reps), targets[0])
  {
    var id := UnseenExists(v, reps, bound);
    UnseenComesFirst(Eligible(v), v.cfg.domainLabel, HealthyDomains(v, reps), targets, id);
  }

  lemma UnseenExists(v: View, reps: seq<Replica>, bound: int) returns (id: string)
    requires Wellformed(v) && Enough(v, reps, bound)
    requires DomainsWanted(v.cfg) && |HealthyDomains(v, reps)| < v.cfg.minDomains
    ensures id in TargetIds(v, reps) && Unseen(Eligible(v), v.cfg.domainLabel, HealthyDomains(v, reps), id)
  {
    var d := Surplus(HealthyDomains(v, reps), NamedDomains(Eligible(v), Roomy(v, bound), v.cfg.domainLabel));
    id := NamedWitness(Eligible(v), Roomy(v, bound), v.cfg.domainLabel, d);
    UnseenIsTarget(v, reps, bound, id);
  }

  lemma Surplus(seen: set<string>, offered: set<string>) returns (d: string)
    requires |seen| < |seen + offered|
    ensures d in offered && d !in seen
  {
    UnionSize(seen, offered - seen);
    assert seen + (offered - seen) == seen + offered;
    d := Inhabited(offered - seen);
  }

  lemma NamedWitness(fleet: Fleet, ids: set<string>, name: string, d: string) returns (id: string)
    requires d in NamedDomains(fleet, ids, name)
    ensures id in ids && id in fleet && d != "" && FailureDomain(fleet[id], name) == d
  {
    id :| id in ids && id in fleet && FailureDomain(fleet[id], name) != "" && FailureDomain(fleet[id], name) == d;
  }

  lemma UnseenIsTarget(v: View, reps: seq<Replica>, bound: int, id: string)
    requires Bounded(reps, bound) && 0 <= bound && id in Roomy(v, bound)
    requires Unseen(Eligible(v), v.cfg.domainLabel, HealthyDomains(v, reps), id)
    ensures id in TargetIds(v, reps)
  {
    RoomyReadyHealthy(v, reps, bound);
    assert id !in HealthyReady(v, reps);
    RoomyAreTargets(v, reps, bound);
  }

  /** A round that lacks domains adds at least one. */
  lemma DomainGain(v: View, reps: seq<Replica>, reps': seq<Replica>, targets: seq<string>, added: set<string>)
    requires Wellformed(v) && added <= TargetIds(v, reps) && Holders(reps') == Holders(reps) + added
    requires targets != [] && targets[0] in added
    requires Unseen(Eligible(v), v.cfg.domainLabel, HealthyDomains(v, reps), targets[0])
    ensures |HealthyDomains(v, reps')| > |HealthyDomains(v, reps)|
  {
    AddedCount(v, reps, reps', added);
    AddedDomains(v, reps, reps', added);
    var d := FailureDomain(Eligible(v)[targets[0]], v.cfg.domainLabel);
    assert d in HealthyDomains(v, reps');
    SubsetSize(HealthyDomains(v, reps), HealthyDomains(v, reps') - {d});
  }

  lemma DomainsGrow(v: View, reps: seq<Replica>, reps': seq<Replica>, added: set<string>)
    requires Wellformed(v) && added <= TargetIds(v, reps) && Holders(reps') == Holders(reps) + added
    ensures |HealthyDomains(v, reps')| >= |HealthyDomains(v, reps)|
  {
    AddedCount(v, reps, reps', added);
    AddedDomains(v, reps, reps', added);
    SubsetSize(HealthyDomains(v, reps), HealthyDomains(v, reps'));
  }

  lemma StillEnough(v: View, reps: seq<Replica>, reps': seq<Replica>, added: set<string>, bound: int)
    requires Wellformed(v) && Enough(v, reps, bound) && Keyed(reps') && Bounded(reps', bound)
    requires added <= TargetIds(v, reps) && Holders(reps') == Holders(reps) + added
    ensures Enough(v, reps', bound)
  {
    AddedCount(v, reps, reps', added);
    AddedDomains(v, reps, reps', added);
    var roomy := Roomy(v, bound);
    SubsetSize(Ready(v, reps) + roomy, Ready(v, reps') + roomy);
    SubsetSize(HealthyReady(v, reps) + roomy, HealthyReady(v, reps') + roomy);
    var offered := NamedDomains(Eligible(v), roomy, v.cfg.domainLabel);
    SubsetSize(HealthyDomains(v, reps) + offered, HealthyDomains(v, reps') + offered);
  }

  lemma RoundProgress(v: View, reps: seq<Replica>, reps': seq<Replica>, bound: int)
    requires Wellformed(v) && !Satisfied(v, reps) && Enough(v, reps, bound) && Round(v, reps, reps', bound)
    ensures Enough(v, reps', bound) && RoundsLeft(v, reps') < RoundsLeft(v, reps)
  {
    var targets, added := RoundAdds(v, reps, reps', bound);
    ChosenSuffice(v, reps, targets, added);
    StillEnough(v, reps, reps', added, bound);
    CountsMet(v, reps, reps', added, bound);
    DomainsGrow(v, reps, reps', added);
    if DomainsWanted(v.cfg) && |HealthyDomains(v, reps)| < v.cfg.minDomains {
      UnseenFirst(v, reps, targets, bound);
      DomainGain(v, reps, reps', targets, added);
    }
    LeftShrinks(v.cfg, |Ready(v, reps)|, |HealthyReady(v, reps)|, |HealthyDomains(v, reps)|,
                |Ready(v, reps')|, |HealthyReady(v, reps')|, |HealthyDomains(v, reps')|);
  }

  lemma LeftShrinks(cfg: Config, ready: nat, healthy: nat, domains: nat, ready': nat, healthy': nat, domains': nat)
    requires 0 < Left(cfg, ready, healthy, domains)
    requires ready' >= cfg.factor && healthy' >= cfg.minHealthy && domains' >= domains
    requires DomainsWanted(cfg) && domains < cfg.minDomains ==> domains' > domains
    ensures Left(cfg, ready', healthy', domains') < Left(cfg, ready, healthy, domains)
  {
  }

  /** A satisfied generation is left alone. */
  lemma SatisfiedIsStable(v: View, reps: seq<Replica>, reps': seq<Replica>, bound: int)
    requires Satisfied(v, reps) && Round(v, reps, reps', bound)
    ensures reps' == reps
  {
  }

  ghost predicate Rounds(v: View, run: seq<seq<Replica>>, bound: int) {
    forall i :: 0 <= i < |run| - 1 ==> Round(v, run[i], run[i + 1], bound)
  }

  lemma {:induction false} ConvergesFrom(v: View, run: seq<seq<Replica>>, bound: int, i: nat)
    requires Wellformed(v) && Rounds(v, run, bound) && i < |run| && Enough(v, run[i], bound)
    requires |run| - i > RoundsLeft(v, run[i])
    ensures Satisfied(v, run[|run| - 1])
    decreases |run| - i
  {
    if i < |run| - 1 {
      assert Round(v, run[i], run[i + 1], bound);
      if Satisfied(v, run[i]) {
        SatisfiedIsStable(v, run[i], run[i + 1], bound);
      } else {
        RoundProgress(v, run[i], run[i + 1], bound);
      }
      ConvergesFrom(v, run, bound, i + 1);
    }
  }

  /** Reconciliation converges: with a readable copy and enough roomy agents and domains,
      max(1, minDomains) rounds satisfy the configuration, and it stays satisfied. */
  lemma Converges(v: View, run: seq<seq<Replica>>, bound: int)
    requires Wellformed(v) && run != [] && Enough(v, run[0], bound) && Rounds(v, run, bound)
    requires |run| > Max(1, v.cfg.minDomains)
    ensures Satisfied(v, run[|run| - 1])
  {
    RoundBudget(v, run[0]);
    ConvergesFrom(v, run, bound, 0);
  }

  lemma RoundBudget(v: View, reps: seq<Replica>)
    ensures RoundsLeft(v, reps) <= Max(1, v.cfg.minDomains)
  {
    LeftBound(v.cfg, |Ready(v, reps)|, |HealthyReady(v, reps)|, |HealthyDomains(v, reps)|);
  }

  lemma LeftBound(cfg: Config, ready: nat, healthy: nat, domains: nat)
    ensures Left(cfg, ready, healthy, domains) <= Max(1, cfg.minDomains)
  {
  }
}
