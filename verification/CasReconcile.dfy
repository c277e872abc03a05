/** Planning object synchronisation between the agents of a storage pool
    (internal/controlplane/cas_reconcile.go). */
module CasReconcile {
  import opened Prelude
  import opened Finite
  import opened Ordering
  import opened Agents
  import opened Inventory
  import opened JobStore
  import opened JobListing

  /** An agent row; `report` is the inventory it last sent, if one decodes. */
  datatype Peer = Peer(agent: Agent, report: Option<Inventory>)

  datatype Settings = Settings(
    storage: StorageConfig,
    inventoryEnabled: bool,
    poolLabel: string,
    factor: int,
    allowed: seq<string>,
    excluded: seq<string>,
    timeout: int,
    cooldown: int)

  /** The agents and the job table, newest jobs first. */
  datatype View = View(peers: map<string, Peer>, jobs: seq<Filed>, cfg: Settings, now: int)

  /** A queued transfer: `source` sends `target` what it lacks of `prefixes`,
      placed by rendezvous among `pool`. */
  datatype Order = Order(source: string, target: string, prefixes: seq<string>, pool: set<string>, factor: int)

  /** The storage pool an agent belongs to; labels count only when all of them are text. */
  function PoolOf(a: Agent, name: string): string {
    var l := TrimSpace(name);
    if l == "" || a.labels.None? || !AllText(a.labels.value) || l !in a.labels.value then "default"
    else
      var text := TrimSpace(AsText(a.labels.value[l]).value);
      if text == "" then "default" else text
  }

  predicate Reports(v: View, id: string)
    requires id in v.peers
  {
    var p := v.peers[id];
    && Allowed(id, v.cfg.allowed, v.cfg.excluded) && v.now - p.agent.lastSeen <= v.cfg.timeout
    && TrimSpace(p.agent.publicKey) != "" && p.report.Some? && Readable(p.agent, v.cfg.storage)
  }

  ghost function Sources(v: View): set<string> {
    set id | id in v.peers && Reports(v, id)
  }

  ghost function Targets(v: View): set<string> {
    set id | id in v.peers && Reports(v, id) && AcceptsPlacement(v.peers[id].agent, v.cfg.storage)
  }

  /** The pool of every agent, as a value. */
  function PoolName(v: View): string -> string {
    id => if id in v.peers then PoolOf(v.peers[id].agent, v.cfg.poolLabel) else "default"
  }

  ghost function PoolTargets(v: View, pool: string): set<string> {
    set id | id in Targets(v) && PoolName(v)(id) == pool
  }

  function ShortRoot(s: string): string {
    if |s| > 12 then s[..12] else s
  }

  function Folded(prefixes: set<string>): set<string> {
    set p | p in prefixes :: Lower(TrimSpace(p))
  }

  function BytesUnder(segments: seq<Segment>, want: set<string>): int {
    if segments == [] then 0
    else
      var last := segments[|segments| - 1];
      BytesUnder(segments[..|segments| - 1], want) + if Lower(last.prefix) in want then last.bytes else 0
  }

  /** What identifies a transfer between two states of two stores: the target of its job. */
  function KeyOf(source: string, target: string, a: Inventory, b: Inventory): string {
    "cas:" + source + ">" + target + ":" + ShortRoot(a.merkleRoot) + ":" + ShortRoot(b.merkleRoot)
  }

  function Earlier(v: View): map<string, Past> {
    Known(Page(v.jobs, 20000), REPLICATE_CAS)
  }

  /** A job under the same key still stands for the transfer. */
  predicate Suppressed(v: View, k: string) {
    && k in Earlier(v)
    && (Earlier(v)[k].status != Failed || v.now - Earlier(v)[k].updated < v.cfg.cooldown)
  }

  /** Nothing stops the transfer if there is something to send. */
  ghost predicate Clear(v: View, source: string, target: string)
    requires source in v.peers && target in v.peers && v.peers[source].report.Some? && v.peers[target].report.Some?
  {
    var a, b := v.peers[source].report.value, v.peers[target].report.value;
    && HasCapacityFor(v.peers[target].agent, v.cfg.storage, BytesUnder(a.segments, Folded(Divergent(a.segments, b.segments))))
    && !Suppressed(v, KeyOf(source, target, a, b))
  }

  /** `source` and `target` are partners of one pool whose stores differ. */
  ghost predicate Partners(v: View, source: string, target: string) {
    && source in Sources(v) && target in Targets(v) && source != target
    && PoolName(v)(source) == PoolName(v)(target)
  }

  /** The orders one reconciliation must queue. */
  ghost predicate Due(v: View, o: Order) {
    && v.cfg.storage.enabled && v.cfg.inventoryEnabled && 0 < v.cfg.factor
    && Partners(v, o.source, o.target) && Clear(v, o.source, o.target)
    && o.prefixes != []
    && Arranges(o.prefixes, Divergent(v.peers[o.source].report.value.segments, v.peers[o.target].report.value.segments), TextLess)
    && o.pool == PoolTargets(v, PoolName(v)(o.source))
    && o.factor == Min(v.cfg.factor, |o.pool|)
  }

  lemma DueUnique(v: View, o: Order, p: Order)
    requires Due(v, o) && Due(v, p) && o.source == p.source && o.target == p.target
    ensures o == p
  {
    TextOrder();
    var a, b := v.peers[o.source].report.value.segments, v.peers[o.target].report.value.segments;
    SortedUnique(o.prefixes, p.prefixes, Divergent(a, b), TextLess);
  }

  method DivergentSourceBytes(segments: seq<Segment>, prefixes: seq<string>) returns (n: int)
    ensures n == BytesUnder(segments, Folded(Elements(prefixes)))
  {
    var want: set<string> := {};
    for i := 0 to |prefixes|
      invariant want == Folded(Elements(prefixes[..i]))
    {
      assert Elements(prefixes[..i + 1]) == Elements(prefixes[..i]) + {prefixes[i]} by {
        assert prefixes[..i + 1] == prefixes[..i] + [prefixes[i]];
      }
      FoldedStep(Elements(prefixes[..i]), prefixes[i]);
      want := want + {Lower(TrimSpace(prefixes[i]))};
    }
    assert prefixes[..|prefixes|] == prefixes;
    n := 0;
    for i := 0 to |segments|
      invariant n == BytesUnder(segments[..i], want)
    {
      assert segments[..i + 1][..i] == segments[..i];
      if Lower(segments[i].prefix) in want {
        n := n + segments[i].bytes;
      }
    }
    assert segments[..|segments|] == segments;
  }

  lemma FoldedStep(prefixes: set<string>, p: string)
    ensures Folded(prefixes + {p}) == Folded(prefixes) + {Lower(TrimSpace(p))}
  {
  }

  /** The order for one source and one target, if one is due. */
  method PlanPair(v: View, known: map<string, Past>, source: string, target: string, pool: set<string>, factor: int) returns (o: Option<Order>)
    requires known == Earlier(v) && v.cfg.storage.enabled && v.cfg.inventoryEnabled && 0 < v.cfg.factor
    requires source in Sources(v) && target in Targets(v) && PoolName(v)(source) == PoolName(v)(target)
    requires pool == PoolTargets(v, PoolName(v)(source)) && factor == Min(v.cfg.factor, |pool|)
    ensures o.Some? ==> Due(v, o.value) && o.value.source == source && o.value.target == target
    ensures o.None? ==> forall p :: Due(v, p) ==> p.source != source || p.target != target
  {
    if source == target {
      return None;
    }
    var a, b := v.peers[source].report.value, v.peers[target].report.value;
    var diff := DivergentPrefixes(a.segments, b.segments);
    if diff == [] {
      NothingDiverges(v, source, target, diff);
      return None;
    }
    var bytes := DivergentSourceBytes(a.segments, diff);
    assert Elements(diff) == Divergent(a.segments, b.segments);
    if !HasCapacityFor(v.peers[target].agent, v.cfg.storage, bytes) {
      return None;
    }
    var key := KeyOf(source, target, a, b);
    if key in known {
      var prev := known[key];
      if prev.status == Queued || prev.status == Running || prev.status == Succeeded {
        return None;
      }
      if prev.status == Failed && v.now - prev.updated < v.cfg.cooldown {
        return None;
      }
    }
    o := Some(Order(source, target, diff, pool, factor));
  }

  lemma NothingDiverges(v: View, source: string, target: string, diff: seq<string>)
    requires source in Sources(v) && target in Targets(v) && diff == []
    requires Arranges(diff, Divergent(v.peers[source].report.value.segments, v.peers[target].report.value.segments), TextLess)
    ensures forall p :: Due(v, p) ==> p.source != source || p.target != target
  {
    TextOrder();
    forall p | Due(v, p) ensures p.source != source || p.target != target {
      if p.source == source && p.target == target {
        var a, b := v.peers[source].report.value.segments, v.peers[target].report.value.segments;
        SortedUnique(diff, p.prefixes, Divergent(a, b), TextLess);
      }
    }
  }

  ghost predicate Between(o: Order, sources: set<string>, targets: set<string>) {
    o.source in sources && o.target in targets
  }

  /** `orders` are the orders due between the given agents, each once. */
  ghost predicate Exactly(v: View, orders: seq<Order>, sources: set<string>, targets: set<string>) {
    && Distinct(orders)
    && forall o :: o in orders <==> Due(v, o) && Between(o, sources, targets)
  }

  lemma ExactlyJoin(v: View, xs: seq<Order>, ys: seq<Order>, s: set<string>, s': set<string>, t: set<string>, t': set<string>)
    requires Exactly(v, xs, s, t) && Exactly(v, ys, s', t') && ((s == s' && t !! t') || (s !! s' && t == t'))
    ensures Exactly(v, xs + ys, s + s', t + t')
  {
    forall i, j | 0 <= i < |xs| && 0 <= j < |ys| ensures xs[i] != ys[j] {
      assert xs[i] in xs && ys[j] in ys;
    }
    forall o ensures o in xs + ys <==> Due(v, o) && Between(o, s + s', t + t') {
    }
  }

  method PlanSource(v: View, known: map<string, Past>, source: string, targets: seq<string>, pool: set<string>, factor: int) returns (orders: seq<Order>)
    requires known == Earlier(v) && v.cfg.storage.enabled && v.cfg.inventoryEnabled && 0 < v.cfg.factor
    requires source in Sources(v) && Distinct(targets)
    requires forall t :: t in targets ==> t in Targets(v) && PoolName(v)(source) == PoolName(v)(t)
    requires pool == PoolTargets(v, PoolName(v)(source)) && factor == Min(v.cfg.factor, |pool|)
    ensures Exactly(v, orders, {source}, Elements(targets))
  {
    orders := [];
    for i := 0 to |targets|
      invariant Exactly(v, orders, {source}, Elements(targets[..i]))
    {
      assert targets[i] in targets;
      ElementsStep(targets, i);
      var o := PlanPair(v, known, source, targets[i], pool, factor);
      ghost var next := if o.Some? then [o.value] else [];
      PairExactly(v, o, source, targets[i]);
      ExactlyJoin(v, orders, next, {source}, {source}, Elements(targets[..i]), {targets[i]});
      assert {source} + {source} == {source};
      if o.Some? {
        orders := orders + [o.value];
      } else {
        assert orders + next == orders;
      }
    }
    assert targets[..|targets|] == targets;
  }

  lemma ElementsStep(xs: seq<string>, i: nat)
    requires Distinct(xs) && i < |xs|
    ensures Elements(xs[..i + 1]) == Elements(xs[..i]) + {xs[i]} && xs[i] !in Elements(xs[..i])
  {
    assert xs[..i + 1] == xs[..i] + [xs[i]];
  }

  lemma PairExactly(v: View, o: Option<Order>, source: string, target: string)
    requires o.Some? ==> Due(v, o.value) && o.value.source == source && o.value.target == target
    requires o.None? ==> forall p :: Due(v, p) ==> p.source != source || p.target != target
    ensures Exactly(v, if o.Some? then [o.value] else [], {source}, {target})
  {
    if o.Some? {
      forall p | Due(v, p) && Between(p, {source}, {target}) ensures p == o.value {
        DueUnique(v, p, o.value);
      }
    }
  }

  method PlanPool(v: View, known: map<string, Past>, sources: seq<string>, targets: seq<string>, pool: string) returns (orders: seq<Order>)
    requires known == Earlier(v) && v.cfg.storage.enabled && v.cfg.inventoryEnabled && 0 < v.cfg.factor
    requires Distinct(sources) && forall s :: s in sources ==> s in Sources(v) && PoolName(v)(s) == pool
    requires Distinct(targets) && Elements(targets) == PoolTargets(v, pool)
    ensures Exactly(v, orders, Elements(sources), PoolTargets(v, pool))
  {
    orders := [];
    TextOrder();
    var from := Sort(sources, TextLess);
    var to := Sort(targets, TextLess);
    ResortedElements(from, sources);
    ResortedElements(to, targets);
    var members := set t | t in to;
    var factor := Min(v.cfg.factor, |to|);
    DistinctSize(to);
    assert members == Elements(to) == PoolTargets(v, pool);
    if factor < 1 {
      assert PoolTargets(v, pool) == {};
      return;
    }
    for i := 0 to |from|
      invariant Exactly(v, orders, Elements(from[..i]), PoolTargets(v, pool))
    {
      assert from[i] in from && from[i] in sources;
      ElementsStep(from, i);
      TargetsFit(v, to, pool, from[i]);
      var more := PlanSource(v, known, from[i], to, members, factor);
      ExactlyJoin(v, orders, more, Elements(from[..i]), {from[i]}, PoolTargets(v, pool), PoolTargets(v, pool));
      assert PoolTargets(v, pool) + PoolTargets(v, pool) == PoolTargets(v, pool);
      orders := orders + more;
    }
    assert from[..|from|] == from;
  }

  lemma ResortedElements(sorted: seq<string>, xs: seq<string>)
    requires Arranges(sorted, Elements(xs), TextLess)
    ensures Distinct(sorted) && Elements(sorted) == Elements(xs)
  {
    TextOrder();
    AscendingDistinct(sorted, TextLess);
  }

  lemma TargetsFit(v: View, to: seq<string>, pool: string, source: string)
    requires Elements(to) == PoolTargets(v, pool) && PoolName(v)(source) == pool
    ensures forall t :: t in to ==> t in Targets(v) && PoolName(v)(source) == PoolName(v)(t)
  {
    forall t | t in to ensures t in Targets(v) && PoolName(v)(source) == PoolName(v)(t) {
      assert t in Elements(to);
    }
  }

  /** A hundred newer jobs, whatever they are, end the suppression of a transfer. */
  lemma SuppressionEnds(v: View, k: string)
    requires 100 <= |v.jobs| && forall i :: 0 <= i < 100 ==> v.jobs[i].target != k
    ensures !Suppressed(v, k)
  {
    var newer, older := v.jobs[..100], v.jobs[100..];
    assert newer + older == v.jobs;
    Forgotten(newer, older, {}, REPLICATE_CAS, k);
  }

  // --- The whole reconciliation -----------------------------------------------------------

  method Reporting(v: View) returns (sources: set<string>, targets: set<string>)
    ensures sources == Sources(v) && targets == Targets(v)
  {
    sources, targets := {}, {};
    var todo := v.peers.Keys;
    while todo != {}
      invariant todo <= v.peers.Keys
      invariant sources == set id | id in Sources(v) && id !in todo
      invariant targets == set id | id in Targets(v) && id !in todo
    {
      var id :| id in todo;
      todo := todo - {id};
      var p := v.peers[id];
      if && Allowed(id, v.cfg.allowed, v.cfg.excluded) && v.now - p.agent.lastSeen <= v.cfg.timeout
         && TrimSpace(p.agent.publicKey) != "" && p.report.Some? && Readable(p.agent, v.cfg.storage) {
        sources := sources + {id};
        if AcceptsPlacement(p.agent, v.cfg.storage) {
          targets := targets + {id};
        }
      }
    }
  }

  lemma GroupMembers(v: View, groups: map<string, seq<string>>, s: set<string>, pool: string)
    requires Grouped(groups, s, PoolName(v))
    ensures var g := if pool in groups then groups[pool] else [];
            Distinct(g) && forall id :: id in g <==> id in s && PoolName(v)(id) == pool
  {
  }

  ghost function InPools(v: View, pools: set<string>): set<string> {
    set s | s in Sources(v) && PoolName(v)(s) in pools
  }

  /** Orders due from the sources of one pool reach no further than its own targets. */
  lemma PoolIsClosed(v: View, orders: seq<Order>, sources: set<string>, pool: string)
    requires Exactly(v, orders, sources, PoolTargets(v, pool)) && sources == InPools(v, {pool})
    ensures Exactly(v, orders, sources, Targets(v))
  {
    forall o | Due(v, o) && Between(o, sources, Targets(v)) ensures Between(o, sources, PoolTargets(v, pool)) {
    }
  }

  method Reconcile(v: View) returns (orders: seq<Order>)
    ensures Distinct(orders) && forall o :: o in orders <==> Due(v, o)
  {
    orders := [];
    if !v.cfg.storage.enabled || !v.cfg.inventoryEnabled || v.cfg.factor <= 0 {
      return;
    }
    var sources, targets := Reporting(v);
    var sourcePools := GroupBy(sources, PoolName(v));
    var targetPools := GroupBy(targets, PoolName(v));
    var known := ReadKnown(Page(v.jobs, 20000), REPLICATE_CAS);
    orders := PlanPools(v, known, sourcePools, targetPools);
  }

  method PlanPools(v: View, known: map<string, Past>, sourcePools: map<string, seq<string>>, targetPools: map<string, seq<string>>) returns (orders: seq<Order>)
    requires known == Earlier(v) && v.cfg.storage.enabled && v.cfg.inventoryEnabled && 0 < v.cfg.factor
    requires Grouped(sourcePools, Sources(v), PoolName(v)) && Grouped(targetPools, Targets(v), PoolName(v))
    ensures Distinct(orders) && forall o :: o in orders <==> Due(v, o)
  {
    orders := [];
    var todo := sourcePools.Keys;
    ghost var planned: set<string> := {};
    while todo != {}
      invariant todo + planned == sourcePools.Keys && todo !! planned
      invariant Exactly(v, orders, InPools(v, planned), Targets(v))
    {
      var pool :| pool in todo;
      GroupMembers(v, sourcePools, Sources(v), pool);
      GroupMembers(v, targetPools, Targets(v), pool);
      var targets := if pool in targetPools then targetPools[pool] else [];
      assert Elements(targets) == PoolTargets(v, pool);
      var more := PlanPool(v, known, sourcePools[pool], targets, pool);
      assert Elements(sourcePools[pool]) == InPools(v, {pool});
      PoolIsClosed(v, more, InPools(v, {pool}), pool);
      PoolsJoin(v, orders, more, planned, pool);
      orders := orders + more;
      todo, planned := todo - {pool}, planned + {pool};
    }
    EveryPool(v, sourcePools, planned);
  }

  lemma PoolsJoin(v: View, xs: seq<Order>, ys: seq<Order>, planned: set<string>, pool: string)
    requires Exactly(v, xs, InPools(v, planned), Targets(v)) && Exactly(v, ys, InPools(v, {pool}), Targets(v))
    requires pool !in planned
    ensures Exactly(v, xs + ys, InPools(v, planned + {pool}), Targets(v))
  {
    ExactlyJoin(v, xs, ys, InPools(v, planned), InPools(v, {pool}), Targets(v), Targets(v));
    assert InPools(v, planned) + InPools(v, {pool}) == InPools(v, planned + {pool});
    assert Targets(v) + Targets(v) == Targets(v);
  }

  lemma EveryPool(v: View, sourcePools: map<string, seq<string>>, planned: set<string>)
    requires Grouped(sourcePools, Sources(v), PoolName(v)) && planned == sourcePools.Keys
    ensures forall o :: Due(v, o) ==> Between(o, InPools(v, planned), Targets(v))
  {
  }
}
