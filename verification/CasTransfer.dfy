/** One synchronisation transfer between two stores, damaged or not, and what every run of transfers keeps
    (internal/cassync/cassync.go, Archive and Extract). */
module CasTransfer {
  import opened Prelude
  import opened Finite
  import opened Inventory
  import opened CasManifest
  import opened CasSync
  import opened CasInstall
  import opened CasReconcile

  /** The object store of every agent. */
  type World = map<string, Objects>

  type Hash = string -> string

  type Sum = Bytes -> string

  /** Every file has a digest for a name; nothing is said about its bytes. */
  ghost predicate Wellnamed(w: World) {
    forall a, d :: a in w && d in w[a] ==> ValidDigest(d)
  }

  predicate Intact(o: Objects, d: string, sum: Sum) {
    d in o && sum(o[d]) == d
  }

  /** What the order asks the source to pack. */
  ghost function Sent(w: World, o: Order, hash: Hash): Objects
    requires o.source in w
  {
    Parcel(w[o.source], Lowered(o.prefixes), o.pool, o.factor, o.target, hash)
  }

  ghost predicate Sane(parcel: Objects, sum: Sum) {
    forall d :: d in parcel ==> sum(parcel[d]) == d
  }

  /** What a transfer leaves on its target: nothing new if a packed object is damaged or the manifest too long;
      everything if the target's own copies are intact; otherwise whatever was moved before a damaged one was met. */
  ghost predicate Received(parcel: Objects, before: Objects, after: Objects, sum: Sum) {
    if !Sane(parcel, sum) || !Fits(parcel) then after == before
    else if Consistent(parcel, before, sum) then after == parcel + before
    else (forall d :: d in before ==> d in after && after[d] == before[d]) && Taken(parcel, before, after)
  }

  /** Packing at the source and extracting at the target. */
  method Synchronise(source: Objects, target: Store, prefixes: seq<string>, pool: seq<string>, factor: int, name: string,
                     hash: Hash, sum: Sum)
    returns (ok: bool)
    requires Distinct(pool)
    modifies target
    ensures var parcel := Parcel(source, Lowered(prefixes), Elements(pool), factor, name, hash);
            && Received(parcel, old(target.objects), target.objects, sum)
            && (ok <==> Sane(parcel, sum) && Fits(parcel) && Consistent(parcel, old(target.objects), sum))
  {
    ghost var parcel := Parcel(source, Lowered(prefixes), Elements(pool), factor, name, hash);
    if factor <= 0 {
      assert parcel == map[];
      assert parcel + target.objects == target.objects;
      return true;
    }
    var entries;
    entries, ok := Archive(source, prefixes, pool, factor, name, hash, sum);
    if ok {
      FaithfulInstallsIff(entries, target.objects, sum);
      ok := target.Extract(entries, sum);
    }
  }

  ghost predicate Works(w: World, o: Order, hash: Hash, sum: Sum) {
    && o.source in w && o.target in w
    && Sane(Sent(w, o, hash), sum) && Fits(Sent(w, o, hash)) && Consistent(Sent(w, o, hash), w[o.target], sum)
  }

  /** A transfer touches its target alone. */
  ghost predicate Transfer(w: World, o: Order, n: World, hash: Hash, sum: Sum) {
    && n.Keys == w.Keys && (forall a :: a in w && a != o.target ==> n[a] == w[a])
    && (o.target in w ==>
          if o.source in w then Received(Sent(w, o, hash), w[o.target], n[o.target], sum) else n[o.target] == w[o.target])
  }

  ghost predicate Runs(worlds: seq<World>, orders: seq<Order>, hash: Hash, sum: Sum) {
    && |worlds| == |orders| + 1
    && forall i :: 0 <= i < |orders| ==> Transfer(worlds[i], orders[i], worlds[i + 1], hash, sum)
  }

  // --- What transfers keep --------------------------------------------------------------------

  /** No file changes or disappears, and every new one is true to its name. */
  ghost predicate Extends(w: World, n: World, sum: Sum) {
    n.Keys == w.Keys && forall a :: a in w ==> Grown(w[a], n[a], sum)
  }

  lemma TransferExtends(w: World, o: Order, n: World, hash: Hash, sum: Sum)
    requires Transfer(w, o, n, hash, sum)
    ensures Extends(w, n, sum)
  {
  }

  lemma ExtendsOn(w: World, m: World, n: World, sum: Sum)
    requires Extends(w, m, sum) && Extends(m, n, sum)
    ensures Extends(w, n, sum)
  {
    forall a | a in w ensures Grown(w[a], n[a], sum) {
      assert Grown(w[a], m[a], sum) && Grown(m[a], n[a], sum);
    }
  }

  lemma {:induction false} RunExtends(worlds: seq<World>, orders: seq<Order>, i: nat, j: nat, hash: Hash, sum: Sum)
    requires Runs(worlds, orders, hash, sum) && i <= j < |worlds|
    ensures Extends(worlds[i], worlds[j], sum)
    decreases j
  {
    if i < j {
      RunExtends(worlds, orders, i, j - 1, hash, sum);
      TransferExtends(worlds[j - 1], orders[j - 1], worlds[j], hash, sum);
      ExtendsOn(worlds[i], worlds[j - 1], worlds[j], sum);
    }
  }

  /** A damaged copy stays damaged. */
  lemma DamageStays(w: World, n: World, a: string, d: string, sum: Sum)
    requires Extends(w, n, sum) && a in w && d in w[a] && !Intact(w[a], d, sum)
    ensures d in n[a] && !Intact(n[a], d, sum)
  {
    assert Grown(w[a], n[a], sum);
  }

  // --- Runs that deliver as little as they may ----------------------------------------------------

  ghost function Quiet(w: World, o: Order, hash: Hash, sum: Sum): World {
    if Works(w, o, hash, sum) then w[o.target := Sent(w, o, hash) + w[o.target]] else w
  }

  ghost function Trace(w: World, orders: seq<Order>, hash: Hash, sum: Sum): (worlds: seq<World>)
    ensures |worlds| == |orders| + 1 && worlds[0] == w
  {
    if orders == [] then [w] else [w] + Trace(Quiet(w, orders[0], hash, sum), orders[1..], hash, sum)
  }

  lemma {:induction false} TraceRuns(w: World, orders: seq<Order>, hash: Hash, sum: Sum)
    ensures Runs(Trace(w, orders, hash, sum), orders, hash, sum)
    decreases |orders|
  {
    if orders != [] {
      var next := Quiet(w, orders[0], hash, sum);
      var rest := Trace(next, orders[1..], hash, sum);
      TraceRuns(next, orders[1..], hash, sum);
      assert Transfer(w, orders[0], next, hash, sum);
      forall i | 0 <= i < |orders| ensures Transfer(([w] + rest)[i], orders[i], ([w] + rest)[i + 1], hash, sum) {
        if i > 0 {
          assert Transfer(rest[i - 1], orders[1..][i - 1], rest[i], hash, sum);
        }
      }
    }
  }

  /** The world at the end. */
  ghost function End(w: World, orders: seq<Order>, hash: Hash, sum: Sum): World {
    Trace(w, orders, hash, sum)[|orders|]
  }

  lemma EndStep(w: World, orders: seq<Order>, hash: Hash, sum: Sum)
    requires orders != []
    ensures End(w, orders, hash, sum) == End(Quiet(w, orders[0], hash, sum), orders[1..], hash, sum)
  {
  }

  lemma {:induction false} EndConcat(w: World, xs: seq<Order>, ys: seq<Order>, hash: Hash, sum: Sum)
    ensures End(w, xs + ys, hash, sum) == End(End(w, xs, hash, sum), ys, hash, sum)
    decreases |xs|
  {
    if xs == [] {
      assert xs + ys == ys;
    } else {
      var next := Quiet(w, xs[0], hash, sum);
      EndConcat(next, xs[1..], ys, hash, sum);
      EndStep(w, xs, hash, sum);
      EndStep(w, xs + ys, hash, sum);
      assert (xs + ys)[1..] == xs[1..] + ys && (xs + ys)[0] == xs[0];
    }
  }

  // --- Where new objects come from ------------------------------------------------------------------

  /** Some agent of `sources` has an intact copy. */
  ghost predicate Copied(w: World, sources: set<string>, d: string, sum: Sum) {
    exists x :: x in sources && x in w && Intact(w[x], d, sum)
  }

  /** A run of the plan may bring the digest to the agent. */
  ghost predicate Arrives(w: World, plan: seq<Order>, sources: set<string>, a: string, d: string, hash: Hash, sum: Sum) {
    && Copied(w, sources, d, sum)
    && exists p :: p in plan && p.target == a && Asks(p, d, hash)
  }

  ghost predicate Asks(o: Order, d: string, hash: Hash) {
    && |PrefixOf(d)| == 2 && PrefixOf(d) in Lowered(o.prefixes) && ValidDigest(d) && Desired(d, hash, o.pool, o.factor, o.target)
  }

  lemma SentAsks(w: World, o: Order, d: string, hash: Hash)
    requires o.source in w
    ensures d in Sent(w, o, hash) <==> d in w[o.source] && Asks(o, d, hash)
    ensures d in Sent(w, o, hash) ==> Sent(w, o, hash)[d] == w[o.source][d]
  {
  }

  /** Orders that stay within a pool. */
  ghost predicate Closed(plan: seq<Order>, sources: set<string>) {
    forall o :: o in plan ==> (o.source in sources <==> o.target in sources)
  }

  ghost predicate Explained(w: World, n: World, plan: seq<Order>, sources: set<string>, hash: Hash, sum: Sum) {
    forall a, d :: a in sources && a in n && d in n[a] && (a !in w || d !in w[a]) ==> Arrives(w, plan, sources, a, d, hash, sum)
  }

  lemma ExplainedStep(w: World, m: World, o: Order, n: World, plan: seq<Order>, sources: set<string>, hash: Hash, sum: Sum)
    requires Extends(w, m, sum) && Explained(w, m, plan, sources, hash, sum) && Transfer(m, o, n, hash, sum)
    requires o in plan && Closed(plan, sources)
    ensures Explained(w, n, plan, sources, hash, sum)
  {
    forall a, d | a in sources && a in n && d in n[a] && (a !in w || d !in w[a]) ensures Arrives(w, plan, sources, a, d, hash, sum) {
      if d !in m[a] {
        NewIsSent(m, o, n, a, d, hash, sum);
        SentAsks(m, o, d, hash);
        OriginIsCopied(w, m, plan, sources, o.source, d, hash, sum);
      }
    }
  }

  lemma NewIsSent(m: World, o: Order, n: World, a: string, d: string, hash: Hash, sum: Sum)
    requires Transfer(m, o, n, hash, sum) && a in n && d in n[a] && d !in m[a]
    ensures a == o.target && o.source in m && d in Sent(m, o, hash) && n[a][d] == m[o.source][d] && Intact(m[o.source], d, sum)
  {
  }

  /** What an agent has intact goes back to an intact copy at the start. */
  lemma OriginIsCopied(w: World, m: World, plan: seq<Order>, sources: set<string>, a: string, d: string, hash: Hash, sum: Sum)
    requires Extends(w, m, sum) && Explained(w, m, plan, sources, hash, sum)
    requires a in sources && a in m && Intact(m[a], d, sum)
    ensures Copied(w, sources, d, sum)
  {
    assert Grown(w[a], m[a], sum);
    if d in w[a] {
      assert Intact(w[a], d, sum);
    }
  }

  lemma {:induction false} RunExplained(worlds: seq<World>, orders: seq<Order>, i: nat, plan: seq<Order>, sources: set<string>, hash: Hash, sum: Sum)
    requires Runs(worlds, orders, hash, sum) && i < |worlds| && Closed(plan, sources)
    requires forall o :: o in orders ==> o in plan
    ensures Explained(worlds[0], worlds[i], plan, sources, hash, sum)
  {
    if i > 0 {
      RunExplained(worlds, orders, i - 1, plan, sources, hash, sum);
      RunExtends(worlds, orders, 0, i - 1, hash, sum);
      assert orders[i - 1] in orders;
      ExplainedStep(worlds[0], worlds[i - 1], orders[i - 1], worlds[i], plan, sources, hash, sum);
    }
  }

  // --- The most a parcel can grow to -----------------------------------------------------------------

  ghost function AllNames(w: World): set<string> {
    set a, d | a in w && d in w[a] :: d
  }

  /** The bytes of an intact copy. */
  ghost function TrueBytes(w: World, sources: set<string>, d: string, sum: Sum): Bytes
    requires Copied(w, sources, d, sum)
  {
    var x :| x in sources && x in w && Intact(w[x], d, sum);
    w[x][d]
  }

  /** What the source may have to pack by the time the order runs. */
  ghost function Ceiling(w: World, plan: seq<Order>, sources: set<string>, o: Order, hash: Hash, sum: Sum): Objects
    requires o.source in w
  {
    map d | d in AllNames(w) && Asks(o, d, hash) && (d in w[o.source] || Arrives(w, plan, sources, o.source, d, hash, sum)) ::
      if d in w[o.source] then w[o.source][d] else TrueBytes(w, sources, d, sum)
  }

  /** However the run went, a parcel is part of its ceiling. */
  lemma ParcelBounded(w: World, n: World, plan: seq<Order>, sources: set<string>, o: Order, hash: Hash, sum: Sum)
    requires Extends(w, n, sum) && Explained(w, n, plan, sources, hash, sum) && Digest(sum)
    requires o.source in w && o.source in sources
    ensures Fits(Ceiling(w, plan, sources, o, hash, sum)) ==> Fits(Sent(n, o, hash))
  {
    var part, whole := Sent(n, o, hash), Ceiling(w, plan, sources, o, hash, sum);
    forall d | d in part ensures d in whole && whole[d] == part[d] {
      SentAsks(n, o, d, hash);
      assert Grown(w[o.source], n[o.source], sum);
      if d !in w[o.source] {
        CopyIsNamed(w, sources, d, sum);
        assert sum(part[d]) == sum(TrueBytes(w, sources, d, sum));
      }
    }
    WeightMonotone(part, whole);
  }

  lemma CopyIsNamed(w: World, sources: set<string>, d: string, sum: Sum)
    requires Copied(w, sources, d, sum)
    ensures d in AllNames(w) && sum(TrueBytes(w, sources, d, sum)) == d
  {
  }
}
