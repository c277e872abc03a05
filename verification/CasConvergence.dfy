/** What a round of synchronisation transfers achieves, in whatever order they run and however damaged the
    stores are: every desired copy exists in the end if and only if the plan covers what is missing with
    transfers that work, as long as no manifest outgrows its limit while the plan runs
    (internal/controlplane/cas_reconcile.go, internal/cassync/cassync.go). */
module CasConvergence {
  import opened Prelude
  import Finite
  import opened Ordering
  import opened Inventory
  import opened InventoryAgreement
  import opened CasManifest
  import opened CasSync
  import opened CasInstall
  import opened CasReconcile
  import opened CasTransfer

  // --- Coverage ---------------------------------------------------------------------------

  /** The order carries digest `d` to agent `t`. */
  ghost predicate Brings(w: World, o: Order, d: string, t: string) {
    o.target == t && o.source in w && d in w[o.source] && PrefixOf(d) in Lowered(o.prefixes)
  }

  /** `d`, intact on source `s`, belongs on target `t`. */
  ghost predicate Owed(w: World, s: string, d: string, t: string, targets: set<string>, factor: int, hash: Hash, sum: Sum) {
    s in w && Intact(w[s], d, sum) && t in targets && t in w && Desired(d, hash, targets, factor, t)
  }

  /** Where an intact copy is missing there is no damaged one, and the plan has an order that carries it and works. */
  ghost predicate Covered(w: World, plan: seq<Order>, sources: set<string>, targets: set<string>, factor: int, hash: Hash, sum: Sum) {
    forall s, d, t :: s in sources && Owed(w, s, d, t, targets, factor, hash, sum) && !Intact(w[t], d, sum) ==>
      d !in w[t] && Served(w, plan, d, t, hash, sum)
  }

  ghost predicate Served(w: World, plan: seq<Order>, d: string, t: string, hash: Hash, sum: Sum) {
    exists o :: o in plan && Brings(w, o, d, t) && Works(w, o, hash, sum)
  }

  /** Every digest a source held intact at the start is on all of its desired agents with the same bytes. */
  ghost predicate Settled(w: World, now: World, sources: set<string>, targets: set<string>, factor: int, hash: Hash, sum: Sum) {
    forall s, d, t :: s in sources && Owed(w, s, d, t, targets, factor, hash, sum) ==>
      t in now && d in now[t] && now[t][d] == w[s][d]
  }

  ghost predicate SettlesAlways(w: World, plan: seq<Order>, sources: set<string>, targets: set<string>, factor: int, hash: Hash, sum: Sum) {
    forall orders: seq<Order>, worlds: seq<World> ::
      multiset(orders) == multiset(plan) && Runs(worlds, orders, hash, sum) && worlds[0] == w ==>
        Settled(w, worlds[|orders|], sources, targets, factor, hash, sum)
  }

  /** Orders stay within the pool and place by it; an agent never sends to itself. */
  ghost predicate Proper(w: World, plan: seq<Order>, sources: set<string>, targets: set<string>, factor: int) {
    && targets <= sources && Closed(plan, sources)
    && forall o :: o in plan ==>
         && o.source in w && o.target in w && o.source != o.target
         && (o.target in targets ==> o.pool == targets && o.factor == factor)
  }

  /** No order into the pool that works now can outgrow the limit of manifests while the plan runs. */
  ghost predicate Roomy(w: World, plan: seq<Order>, sources: set<string>, targets: set<string>, hash: Hash, sum: Sum) {
    forall o :: o in plan && o.target in targets && Works(w, o, hash, sum) ==> Fits(Ceiling(w, plan, sources, o, hash, sum))
  }

  lemma PrefixTwo(d: string)
    requires ValidDigest(d)
    ensures |PrefixOf(d)| == 2
  {
  }

  lemma BringsAsks(w: World, o: Order, d: string, t: string, targets: set<string>, factor: int, hash: Hash)
    requires Wellnamed(w) && o.target in w && Brings(w, o, d, t)
    requires o.pool == targets && o.factor == factor && Desired(d, hash, targets, factor, t)
    ensures Asks(o, d, hash) && d in Sent(w, o, hash)
  {
    PrefixTwo(d);
    SentAsks(w, o, d, hash);
  }

  // --- Covered and roomy plans settle ---------------------------------------------------------

  /** A covered target holds no damaged copy of what a parcel may ever contain. */
  lemma StaysConsistent(w: World, n: World, plan: seq<Order>, o: Order, sources: set<string>, targets: set<string>, factor: int,
                        hash: Hash, sum: Sum)
    requires Extends(w, n, sum) && Explained(w, n, plan, sources, hash, sum)
    requires Proper(w, plan, sources, targets, factor) && Covered(w, plan, sources, targets, factor, hash, sum)
    requires o in plan && o.target in targets && Sane(Sent(n, o, hash), sum)
    ensures Consistent(Sent(n, o, hash), n[o.target], sum)
  {
    forall d | d in Sent(n, o, hash) && d in n[o.target] ensures sum(n[o.target][d]) == d {
      SentAsks(n, o, d, hash);
      assert Grown(w[o.target], n[o.target], sum);
      if d in w[o.target] {
        assert Intact(n[o.source], d, sum);
        OriginIsCopied(w, n, plan, sources, o.source, d, hash, sum);
        var x :| x in sources && x in w && Intact(w[x], d, sum);
        assert Owed(w, x, d, o.target, targets, factor, hash, sum);
        assert Intact(w[o.target], d, sum);
      }
    }
  }

  /** What works at the start packs without damage at any time. */
  lemma StaysSane(w: World, n: World, o: Order, hash: Hash, sum: Sum)
    requires Extends(w, n, sum) && Works(w, o, hash, sum)
    ensures Sane(Sent(n, o, hash), sum)
  {
    assert Grown(w[o.source], n[o.source], sum);
    forall d | d in Sent(n, o, hash) ensures sum(Sent(n, o, hash)[d]) == d {
      SentAsks(n, o, d, hash);
      SentAsks(w, o, d, hash);
    }
  }

  lemma StillWorks(worlds: seq<World>, orders: seq<Order>, i: nat, plan: seq<Order>, o: Order,
                   sources: set<string>, targets: set<string>, factor: int, hash: Hash, sum: Sum)
    requires Runs(worlds, orders, hash, sum) && i < |worlds| && forall x :: x in orders ==> x in plan
    requires Digest(sum) && Proper(worlds[0], plan, sources, targets, factor)
    requires Covered(worlds[0], plan, sources, targets, factor, hash, sum) && Roomy(worlds[0], plan, sources, targets, hash, sum)
    requires o in plan && o.target in targets && Works(worlds[0], o, hash, sum)
    ensures Works(worlds[i], o, hash, sum)
  {
    var w, n := worlds[0], worlds[i];
    RunExtends(worlds, orders, 0, i, hash, sum);
    RunExplained(worlds, orders, i, plan, sources, hash, sum);
    StaysSane(w, n, o, hash, sum);
    ParcelBounded(w, n, plan, sources, o, hash, sum);
    StaysConsistent(w, n, plan, o, sources, targets, factor, hash, sum);
  }

  lemma OrderDelivers(worlds: seq<World>, orders: seq<Order>, i: nat, plan: seq<Order>, d: string,
                      sources: set<string>, targets: set<string>, factor: int, hash: Hash, sum: Sum)
    requires Runs(worlds, orders, hash, sum) && i < |orders| && forall x :: x in orders ==> x in plan
    requires Wellnamed(worlds[0]) && Digest(sum) && Proper(worlds[0], plan, sources, targets, factor)
    requires Covered(worlds[0], plan, sources, targets, factor, hash, sum) && Roomy(worlds[0], plan, sources, targets, hash, sum)
    requires var o := orders[i];
             && o.target in targets && Brings(worlds[0], o, d, o.target) && Works(worlds[0], o, hash, sum)
             && Desired(d, hash, targets, factor, o.target)
    ensures orders[i].target in worlds[|orders|] && Intact(worlds[|orders|][orders[i].target], d, sum)
  {
    var o, n := orders[i], worlds[i];
    assert o in orders;
    StillWorks(worlds, orders, i, plan, o, sources, targets, factor, hash, sum);
    BringsAsks(worlds[0], o, d, o.target, targets, factor, hash);
    RunExtends(worlds, orders, 0, i, hash, sum);
    assert Grown(worlds[0][o.source], n[o.source], sum);
    SentAsks(n, o, d, hash);
    assert Transfer(n, o, worlds[i + 1], hash, sum);
    assert Intact(worlds[i + 1][o.target], d, sum);
    RunExtends(worlds, orders, i + 1, |orders|, hash, sum);
    assert Grown(worlds[i + 1][o.target], worlds[|orders|][o.target], sum);
  }

  lemma CoveredSettles(w: World, plan: seq<Order>, orders: seq<Order>, worlds: seq<World>,
                       sources: set<string>, targets: set<string>, factor: int, hash: Hash, sum: Sum)
    requires Wellnamed(w) && Digest(sum) && Proper(w, plan, sources, targets, factor)
    requires Covered(w, plan, sources, targets, factor, hash, sum) && Roomy(w, plan, sources, targets, hash, sum)
    requires Runs(worlds, orders, hash, sum) && worlds[0] == w && forall o :: o in orders <==> o in plan
    ensures Settled(w, worlds[|orders|], sources, targets, factor, hash, sum)
  {
    var now := worlds[|orders|];
    RunExtends(worlds, orders, 0, |orders|, hash, sum);
    forall s, d, t | s in sources && Owed(w, s, d, t, targets, factor, hash, sum)
      ensures t in now && d in now[t] && now[t][d] == w[s][d]
    {
      assert Grown(w[t], now[t], sum);
      if !Intact(w[t], d, sum) {
        assert Served(w, plan, d, t, hash, sum);
        var o :| o in plan && Brings(w, o, d, t) && Works(w, o, hash, sum);
        var i :| 0 <= i < |orders| && orders[i] == o;
        OrderDelivers(worlds, orders, i, plan, d, sources, targets, factor, hash, sum);
      }
      assert sum(now[t][d]) == sum(w[s][d]);
    }
  }

  // --- Without coverage, some order of execution fails ---------------------------------------

  function Into(orders: seq<Order>, t: string, yes: bool): seq<Order> {
    if orders == [] then []
    else (if (orders[0].target == t) == yes then [orders[0]] else []) + Into(orders[1..], t, yes)
  }

  lemma {:induction false} IntoMember(orders: seq<Order>, t: string, yes: bool, o: Order)
    ensures o in Into(orders, t, yes) <==> o in orders && (o.target == t) == yes
  {
    if orders != [] {
      assert orders == [orders[0]] + orders[1..];
      IntoMember(orders[1..], t, yes, o);
    }
  }

  lemma {:induction false} IntoPermutes(orders: seq<Order>, t: string)
    ensures multiset(Into(orders, t, true) + Into(orders, t, false)) == multiset(orders)
  {
    if orders != [] {
      assert orders == [orders[0]] + orders[1..];
      IntoPermutes(orders[1..], t);
    }
  }

  /** So far only `t` has received anything, and nothing under `d`. */
  ghost predicate OnlyAt(w: World, m: World, t: string, d: string, sum: Sum) {
    Extends(w, m, sum) && t in w && d !in m[t] && forall a :: a in w && a != t ==> m[a] == w[a]
  }

  lemma OnlyAtStep(w: World, m: World, o: Order, t: string, d: string, hash: Hash, sum: Sum)
    requires OnlyAt(w, m, t, d, sum) && o.target == t && o.source != t && !(Brings(w, o, d, t) && Works(w, o, hash, sum))
    ensures OnlyAt(w, Quiet(m, o, hash, sum), t, d, sum)
  {
    var n := Quiet(m, o, hash, sum);
    if Works(m, o, hash, sum) {
      assert Sent(m, o, hash) == Sent(w, o, hash);
      assert Grown(w[t], m[t], sum);
      SentAsks(m, o, d, hash);
      assert Transfer(m, o, n, hash, sum);
      TransferExtends(m, o, n, hash, sum);
      ExtendsOn(w, m, n, sum);
      assert Works(w, o, hash, sum);
    }
  }

  /** Orders into one agent, run first, bring it only what a working order carries. */
  lemma {:induction false} OnlyInto(w: World, m: World, orders: seq<Order>, t: string, d: string, hash: Hash, sum: Sum)
    requires forall o :: o in orders ==> o.target == t && o.source != t && !(Brings(w, o, d, t) && Works(w, o, hash, sum))
    requires OnlyAt(w, m, t, d, sum)
    ensures OnlyAt(w, End(m, orders, hash, sum), t, d, sum)
    decreases |orders|
  {
    if orders != [] {
      assert orders == [orders[0]] + orders[1..];
      OnlyAtStep(w, m, orders[0], t, d, hash, sum);
      OnlyInto(w, Quiet(m, orders[0], hash, sum), orders[1..], t, d, hash, sum);
    }
  }

  /** Orders to others leave an agent alone. */
  lemma {:induction false} NeverInto(w: World, orders: seq<Order>, t: string, hash: Hash, sum: Sum)
    requires t in w && forall o :: o in orders ==> o.target != t
    ensures t in End(w, orders, hash, sum) && End(w, orders, hash, sum)[t] == w[t]
    decreases |orders|
  {
    if orders != [] {
      assert orders == [orders[0]] + orders[1..];
      NeverInto(Quiet(w, orders[0], hash, sum), orders[1..], t, hash, sum);
    }
  }

  lemma UncoveredFails(w: World, plan: seq<Order>, d: string, t: string, hash: Hash, sum: Sum)
    requires t in w && d !in w[t] && forall o :: o in plan ==> o.source != o.target
    requires !Served(w, plan, d, t, hash, sum)
    ensures var orders := Into(plan, t, true) + Into(plan, t, false);
            && multiset(orders) == multiset(plan)
            && t in End(w, orders, hash, sum) && d !in End(w, orders, hash, sum)[t]
  {
    IntoPermutes(plan, t);
    var first, rest := Into(plan, t, true), Into(plan, t, false);
    forall o | o in first ensures o.target == t && o.source != t && !(Brings(w, o, d, t) && Works(w, o, hash, sum)) {
      IntoMember(plan, t, true, o);
    }
    forall o | o in rest ensures o.target != t {
      IntoMember(plan, t, false, o);
    }
    OnlyInto(w, w, first, t, d, hash, sum);
    NeverInto(End(w, first, hash, sum), rest, t, hash, sum);
    EndConcat(w, first, rest, hash, sum);
  }

  lemma PermutedMembers(xs: seq<Order>, ys: seq<Order>)
    requires multiset(xs) == multiset(ys)
    ensures forall o :: o in xs <==> o in ys
  {
    forall o ensures o in xs <==> o in ys {
      assert o in xs <==> o in multiset(xs);
      assert o in ys <==> o in multiset(ys);
    }
  }

  lemma UncoveredUnsettled(w: World, plan: seq<Order>, sources: set<string>, targets: set<string>, factor: int, hash: Hash, sum: Sum)
    requires Digest(sum) && Proper(w, plan, sources, targets, factor) && !Covered(w, plan, sources, targets, factor, hash, sum)
    ensures !SettlesAlways(w, plan, sources, targets, factor, hash, sum)
  {
    var s, d, t :| s in sources && Owed(w, s, d, t, targets, factor, hash, sum) && !Intact(w[t], d, sum)
                   && !(d !in w[t] && Served(w, plan, d, t, hash, sum));
    var orders := if d in w[t] then plan else Into(plan, t, true) + Into(plan, t, false);
    var worlds := Trace(w, orders, hash, sum);
    TraceRuns(w, orders, hash, sum);
    if d in w[t] {
      RunExtends(worlds, orders, 0, |orders|, hash, sum);
      DamageStays(w, worlds[|orders|], t, d, sum);
    } else {
      UncoveredFails(w, plan, d, t, hash, sum);
    }
    assert !Settled(w, worlds[|orders|], sources, targets, factor, hash, sum);
  }

  /** A plan that settles the pool under every order of execution covers what is missing; and a roomy plan that
      covers it settles the pool under every order. */
  lemma CoverageIsExact(w: World, plan: seq<Order>, sources: set<string>, targets: set<string>, factor: int, hash: Hash, sum: Sum)
    requires Wellnamed(w) && Digest(sum) && Proper(w, plan, sources, targets, factor)
    ensures SettlesAlways(w, plan, sources, targets, factor, hash, sum) ==> Covered(w, plan, sources, targets, factor, hash, sum)
    ensures Roomy(w, plan, sources, targets, hash, sum) ==>
              (SettlesAlways(w, plan, sources, targets, factor, hash, sum) <==> Covered(w, plan, sources, targets, factor, hash, sum))
  {
    if !Covered(w, plan, sources, targets, factor, hash, sum) {
      UncoveredUnsettled(w, plan, sources, targets, factor, hash, sum);
    } else if Roomy(w, plan, sources, targets, hash, sum) {
      forall orders: seq<Order>, worlds: seq<World> |
        multiset(orders) == multiset(plan) && Runs(worlds, orders, hash, sum) && worlds[0] == w
        ensures Settled(w, worlds[|orders|], sources, targets, factor, hash, sum)
      {
        PermutedMembers(orders, plan);
        CoveredSettles(w, plan, orders, worlds, sources, targets, factor, hash, sum);
      }
    }
  }

  // --- Fleets that are always roomy ---------------------------------------------------------------

  /** No more than 79,000 different objects in all, none larger than a file can be. */
  ghost predicate Small(w: World) {
    && |AllNames(w)| <= 79_000
    && forall a, d :: a in w && d in w[a] ==> |w[a][d]| <= MAX_SIZE
  }

  lemma SmallIsRoomy(w: World, plan: seq<Order>, sources: set<string>, targets: set<string>, hash: Hash, sum: Sum)
    requires Small(w)
    ensures Roomy(w, plan, sources, targets, hash, sum)
  {
    forall o | o in plan && o.target in targets && Works(w, o, hash, sum) ensures Fits(Ceiling(w, plan, sources, o, hash, sum)) {
      var whole := Ceiling(w, plan, sources, o, hash, sum);
      Finite.SubsetSize(whole.Keys, AllNames(w));
      assert |whole| == |whole.Keys|;
      SmallFits(whole);
    }
  }

  // --- The plan of the reconciler ---------------------------------------------------------------

  function Sizes(o: Objects): Catalogue {
    map d | d in o :: |o[d]|
  }

  /** The inventories in view describe the stores as they are. */
  ghost predicate Fresh(v: View, w: World, hash: Hash) {
    forall id :: id in v.peers && v.peers[id].report.Some? ==>
      id in w && Covers(v.peers[id].report.value.segments, Sizes(w[id]), hash)
  }

  /** One reconciliation of a fleet whose reports are fresh. */
  ghost predicate Planned(v: View, w: World, plan: seq<Order>, hash: Hash, sum: Sum) {
    && v.cfg.storage.enabled && v.cfg.inventoryEnabled && 0 < v.cfg.factor
    && Wellnamed(w) && Digest(sum) && Digest(hash) && Fresh(v, w, hash)
    && forall o :: o in plan <==> Due(v, o)
  }

  ghost function PoolSources(v: View, pool: string): set<string> {
    InPools(v, {pool})
  }

  ghost function PoolFactor(v: View, pool: string): int {
    Min(v.cfg.factor, |PoolTargets(v, pool)|)
  }

  lemma PlanProper(v: View, w: World, plan: seq<Order>, pool: string, hash: Hash, sum: Sum)
    requires Planned(v, w, plan, hash, sum)
    ensures Proper(w, plan, PoolSources(v, pool), PoolTargets(v, pool), PoolFactor(v, pool))
  {
    var sources, targets := PoolSources(v, pool), PoolTargets(v, pool);
    forall o | o in plan
      ensures o.source in w && o.target in w && o.source != o.target && (o.source in sources <==> o.target in sources)
      ensures o.target in targets ==> o.pool == targets && o.factor == PoolFactor(v, pool)
    {
      assert Due(v, o);
    }
    assert targets <= sources;
  }

  /** A missing object shows up as a divergent prefix. */
  lemma MissingDiverges(v: View, w: World, plan: seq<Order>, s: string, d: string, t: string, hash: Hash, sum: Sum)
    requires Planned(v, w, plan, hash, sum)
    requires s in Sources(v) && t in Targets(v) && d in w[s] && d !in w[t]
    ensures PrefixOf(d) in Divergent(v.peers[s].report.value.segments, v.peers[t].report.value.segments)
  {
    var a, b := Sizes(w[s]), Sizes(w[t]);
    DivergenceIsExact(v.peers[s].report.value.segments, v.peers[t].report.value.segments, a, b, hash, PrefixOf(d));
    assert d in Under(a, PrefixOf(d)) && d !in Under(b, PrefixOf(d));
  }

  lemma PrefixIsLowered(d: string, prefixes: seq<string>)
    requires ValidDigest(d) && PrefixOf(d) in prefixes
    ensures PrefixOf(d) in Lowered(prefixes)
  {
    assert Lower(PrefixOf(d)) == PrefixOf(d);
  }

  lemma DivergentArranged(v: View, s: string, t: string) returns (prefixes: seq<string>)
    requires s in Sources(v) && t in Targets(v)
    ensures Arranges(prefixes, Divergent(v.peers[s].report.value.segments, v.peers[t].report.value.segments), TextLess)
  {
    TextOrder();
    prefixes := Arrangement(Divergent(v.peers[s].report.value.segments, v.peers[t].report.value.segments));
  }

  /** A pair that is not held back gets its order, with every divergent prefix in it. */
  lemma ClearPairIsPlanned(v: View, w: World, plan: seq<Order>, s: string, d: string, t: string, pool: string, hash: Hash, sum: Sum)
    requires Planned(v, w, plan, hash, sum)
    requires s in PoolSources(v, pool) && t in PoolTargets(v, pool) && d in w[s] && d !in w[t]
    requires Clear(v, s, t)
    ensures exists o :: o in plan && Due(v, o) && o.source == s && o.target == t && Brings(w, o, d, t)
  {
    MissingDiverges(v, w, plan, s, d, t, hash, sum);
    var prefixes := DivergentArranged(v, s, t);
    PrefixIsLowered(d, prefixes);
    var o := Order(s, t, prefixes, PoolTargets(v, pool), PoolFactor(v, pool));
    assert Due(v, o);
    assert Brings(w, o, d, t);
  }

  /** The order for this pair, if one is due, packs no damaged object, has a short enough manifest, and meets no
      damaged copy. */
  ghost predicate Deliverable(v: View, w: World, s: string, t: string, hash: Hash, sum: Sum) {
    forall o :: Due(v, o) && o.source == s && o.target == t ==> Works(w, o, hash, sum)
  }

  /** Where an intact copy is missing there is no damaged one, and some holder in the pool is kept from sending its
      own by nothing: not by capacity or an earlier job, and not by damage or size of what would be packed. */
  ghost predicate NothingHeldBack(v: View, w: World, pool: string, hash: Hash, sum: Sum) {
    forall s, d, t ::
      s in PoolSources(v, pool) && Owed(w, s, d, t, PoolTargets(v, pool), PoolFactor(v, pool), hash, sum) && !Intact(w[t], d, sum) ==>
        d !in w[t] && Supplied(v, w, pool, d, t, hash, sum)
  }

  ghost predicate Supplied(v: View, w: World, pool: string, d: string, t: string, hash: Hash, sum: Sum) {
    exists h :: h in PoolSources(v, pool) && h in w && d in w[h] && t in PoolTargets(v, pool) && Clear(v, h, t) && Deliverable(v, w, h, t, hash, sum)
  }

  lemma SuppliedIsServed(v: View, w: World, plan: seq<Order>, pool: string, d: string, t: string, hash: Hash, sum: Sum)
    requires Planned(v, w, plan, hash, sum) && t in PoolTargets(v, pool) && t in w && d !in w[t]
    ensures Supplied(v, w, pool, d, t, hash, sum) <==> Served(w, plan, d, t, hash, sum)
  {
    if Supplied(v, w, pool, d, t, hash, sum) {
      var h :| h in PoolSources(v, pool) && h in w && d in w[h] && Clear(v, h, t) && Deliverable(v, w, h, t, hash, sum);
      ClearPairIsPlanned(v, w, plan, h, d, t, pool, hash, sum);
    }
    if Served(w, plan, d, t, hash, sum) {
      var o :| o in plan && Brings(w, o, d, t) && Works(w, o, hash, sum);
      assert Due(v, o);
      forall p | Due(v, p) && p.source == o.source && p.target == t ensures Works(w, p, hash, sum) {
        DueUnique(v, o, p);
      }
      assert o.source in PoolSources(v, pool) && Deliverable(v, w, o.source, t, hash, sum);
    }
  }

  lemma PlanCovers(v: View, w: World, plan: seq<Order>, pool: string, hash: Hash, sum: Sum)
    requires Planned(v, w, plan, hash, sum)
    ensures Covered(w, plan, PoolSources(v, pool), PoolTargets(v, pool), PoolFactor(v, pool), hash, sum)
       <==> NothingHeldBack(v, w, pool, hash, sum)
  {
    var sources, targets, factor := PoolSources(v, pool), PoolTargets(v, pool), PoolFactor(v, pool);
    forall s, d, t | s in sources && Owed(w, s, d, t, targets, factor, hash, sum) && d !in w[t]
      ensures Served(w, plan, d, t, hash, sum) <==> Supplied(v, w, pool, d, t, hash, sum)
    {
      SuppliedIsServed(v, w, plan, pool, d, t, hash, sum);
    }
  }

  /** One round of synchronisation from fresh reports puts every digest held intact in a pool on all of its
      desired agents, in whatever order the transfers run, only if nothing is held back; and if the plan is
      roomy, exactly then. */
  lemma RoundSettlesIff(v: View, w: World, plan: seq<Order>, pool: string, hash: Hash, sum: Sum)
    requires Planned(v, w, plan, hash, sum)
    ensures var sources, targets, factor := PoolSources(v, pool), PoolTargets(v, pool), PoolFactor(v, pool);
            && (SettlesAlways(w, plan, sources, targets, factor, hash, sum) ==> NothingHeldBack(v, w, pool, hash, sum))
            && (Roomy(w, plan, sources, targets, hash, sum) ==>
                  (SettlesAlways(w, plan, sources, targets, factor, hash, sum) <==> NothingHeldBack(v, w, pool, hash, sum)))
  {
    PlanProper(v, w, plan, pool, hash, sum);
    PlanCovers(v, w, plan, pool, hash, sum);
    CoverageIsExact(w, plan, PoolSources(v, pool), PoolTargets(v, pool), PoolFactor(v, pool), hash, sum);
  }

  // --- Undamaged fleets --------------------------------------------------------------------------------

  ghost predicate Sound(w: World, sum: Sum) {
    Wellnamed(w) && forall a, d :: a in w && d in w[a] ==> Intact(w[a], d, sum)
  }

  /** In an undamaged fleet of at most 79,000 different objects, one round settles a pool under every order of
      execution exactly when each missing copy has a holder that neither capacity nor an earlier job holds back. */
  lemma SoundRoundSettlesIff(v: View, w: World, plan: seq<Order>, pool: string, hash: Hash, sum: Sum)
    requires Planned(v, w, plan, hash, sum) && Sound(w, sum) && Small(w)
    ensures SettlesAlways(w, plan, PoolSources(v, pool), PoolTargets(v, pool), PoolFactor(v, pool), hash, sum)
       <==> forall s, d, t ::
              s in PoolSources(v, pool) && Owed(w, s, d, t, PoolTargets(v, pool), PoolFactor(v, pool), hash, sum) && d !in w[t] ==>
                exists h :: h in PoolSources(v, pool) && h in w && d in w[h] && Clear(v, h, t)
  {
    SmallIsRoomy(w, plan, PoolSources(v, pool), PoolTargets(v, pool), hash, sum);
    RoundSettlesIff(v, w, plan, pool, hash, sum);
    forall o | o in plan ensures Works(w, o, hash, sum) {
      assert Due(v, o);
      SmallSoundWorks(w, o, hash, sum);
    }
    forall s, t ensures Deliverable(v, w, s, t, hash, sum) {
    }
  }

  lemma SmallSoundWorks(w: World, o: Order, hash: Hash, sum: Sum)
    requires Sound(w, sum) && Small(w) && o.source in w && o.target in w
    ensures Works(w, o, hash, sum)
  {
    var parcel := Sent(w, o, hash);
    forall d | d in parcel ensures d in AllNames(w) && sum(parcel[d]) == d && |parcel[d]| <= MAX_SIZE {
      SentAsks(w, o, d, hash);
      assert Intact(w[o.source], d, sum);
    }
    Finite.SubsetSize(parcel.Keys, AllNames(w));
    assert |parcel| == |parcel.Keys|;
    SmallFits(parcel);
    forall d | d in parcel && d in w[o.target] ensures sum(w[o.target][d]) == d {
      assert Intact(w[o.target], d, sum);
    }
  }
}
