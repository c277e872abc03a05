/** A succeeded synchronisation that sent nothing, and the agent that leaves afterwards: the copy that is now
    missing is never ordered (internal/controlplane/cas_reconcile.go). */
module StaleSuppression {
  import opened Prelude
  import opened Ordering
  import opened Agents
  import opened I = Inventory
  import opened CasSync
  import opened CasReconcile
  import opened CasTransfer
  import opened CasConvergence
  import opened JobListing
  import JobStore

  /** The inventory of a store with the one object `d` of `n` bytes, and of an empty one. */
  function FullReport(d: string, n: nat, hash: Hash): I.Inventory {
    var segments := [Segment(PrefixOf(d), hash(d + ":" + Decimal(n) + "\n"), 1, n)];
    I.Inventory.Inventory(hash(TopText(segments)), 1, n, segments)
  }

  function EmptyReport(hash: Hash): I.Inventory {
    I.Inventory.Inventory(hash(""), 0, 0, [])
  }

  /** Which agents there are, which of them hold the object, and the object. */
  datatype Scene = Scene(ids: set<string>, holders: set<string>, d: string, x: Bytes)

  const SETTINGS := Settings(StorageConfig(true, 0, 0.0, false), true, "", 1, [], [], 10, 10)

  function ReportOf(s: Scene, id: string, hash: Hash): I.Inventory {
    if id in s.holders then FullReport(s.d, |s.x|, hash) else EmptyReport(hash)
  }

  function Seen(s: Scene, jobs: seq<Filed>, hash: Hash): View {
    View(map id | id in s.ids :: Peer(Agent(id, None, "key", HEALTHY, 0, 0, 0.0, 0), Some(ReportOf(s, id, hash))), jobs, SETTINGS, 0)
  }

  function Stores(s: Scene): World {
    map id | id in s.ids :: if id in s.holders then map[s.d := s.x] else map[]
  }

  lemma TakingPart(s: Scene, jobs: seq<Filed>, hash: Hash)
    ensures var v := Seen(s, jobs, hash);
            && Sources(v) == Targets(v) == s.ids && (forall id :: PoolName(v)(id) == "default")
            && PoolTargets(v, "default") == s.ids && PoolSources(v, "default") == s.ids
  {
    var v := Seen(s, jobs, hash);
    assert TrimSpace("key") != "" && TrimSpace(HEALTHY) != "";
    forall id | id in s.ids ensures Reports(v, id) && AcceptsPlacement(v.peers[id].agent, v.cfg.storage) {
    }
  }

  lemma OneLine(c: Catalogue, d: string)
    requires c.Keys == {d} && ValidDigest(d)
    ensures I.Text(c, [d]) == d + ":" + Decimal(c[d]) + "\n" && TotalBytes(c, [d]) == c[d]
  {
    assert [d][..0] == [];
    assert Line(c, d) + "\n" == d + ":" + Decimal(c[d]) + "\n";
    assert I.Text(c, [d]) == "" + (Line(c, d) + "\n");
  }

  lemma FullCovers(d: string, c: Catalogue, hash: Hash)
    requires ValidDigest(d) && c.Keys == {d}
    ensures Covers(FullReport(d, c[d], hash).segments, c, hash)
  {
    OneLine(c, d);
    var leaves := [d];
    assert Under(c, PrefixOf(d)) == {d} && Arranges(leaves, Under(c, PrefixOf(d)), TextLess);
    var segment := Segment(PrefixOf(d), hash(d + ":" + Decimal(c[d]) + "\n"), 1, c[d]);
    assert segment.root == hash(I.Text(c, leaves));
    assert Summarises(segment, c, hash);
  }

  lemma EmptyCovers(hash: Hash)
    ensures Covers(EmptyReport(hash).segments, Sizes(map[]), hash)
  {
  }

  lemma SceneIsFresh(s: Scene, jobs: seq<Filed>, hash: Hash, sum: Sum)
    requires ValidDigest(s.d) && sum(s.x) == s.d
    ensures Fresh(Seen(s, jobs, hash), Stores(s), hash) && Wellnamed(Stores(s))
  {
    var v := Seen(s, jobs, hash);
    forall id | id in v.peers ensures id in Stores(s) && Covers(v.peers[id].report.value.segments, Sizes(Stores(s)[id]), hash) {
      SiteIsFresh(s, id, hash);
    }
  }

  lemma SiteIsFresh(s: Scene, id: string, hash: Hash)
    requires ValidDigest(s.d) && id in s.ids
    ensures Covers(ReportOf(s, id, hash).segments, Sizes(Stores(s)[id]), hash)
  {
    assert Sizes(map[s.d := s.x]) == map[s.d := |s.x|];
    FullCovers(s.d, map[s.d := |s.x|], hash);
    EmptyCovers(hash);
  }

  /** The job of an order between two agents of a scene, done. */
  function Done(s: Scene, source: string, target: string, hash: Hash): Filed {
    Filed(JobStore.REPLICATE_CAS, KeyOf(source, target, ReportOf(s, source, hash), ReportOf(s, target, hash)), JobStore.Succeeded, 0)
  }

  lemma TwoKnown(e: Filed, f: Filed)
    requires e.kind == f.kind && e.status == f.status
    ensures var known := Known(Page([e, f], 20000), e.kind);
            e.target in known && f.target in known && known[e.target].status == known[f.target].status == e.status
  {
    var page := Page([e, f], 20000);
    assert page == [e, f] && page[..1] == [e] && [e][..0] == [];
  }

  lemma NothingDue(s: Scene, a: string, b: string, hash: Hash)
    requires s.ids == {a, b} && a != b
    ensures forall o :: !Due(Seen(s, [Done(s, a, b, hash), Done(s, b, a, hash)], hash), o)
  {
    var e, f := Done(s, a, b, hash), Done(s, b, a, hash);
    var v := Seen(s, [e, f], hash);
    TwoKnown(e, f);
    assert Suppressed(v, e.target) && Suppressed(v, f.target);
    forall o ensures !Due(v, o) {
      if Partners(v, o.source, o.target) {
        assert (o.source == a && o.target == b) || (o.source == b && o.target == a);
      }
    }
  }

  /** The first in rank is desired, the others are not. */
  lemma DesiredFirst(d: string, hash: Hash, pool: set<string>, first: string)
    requires first in pool && forall y :: y in pool && y != first ==> Precedes(d, hash, first, y)
    ensures forall id :: Desired(d, hash, pool, 1, id) <==> id == first
  {
    RendezvousOrder(d, hash);
    forall id ensures Desired(d, hash, pool, 1, id) <==> id == first {
      if id == first {
        forall y | y in pool ensures !Precedes(d, hash, y, first) {
          if Precedes(d, hash, y, first) {
            RendezvousTransitive(d, hash, first, y, first);
            RendezvousConnected(d, hash, first, first);
          }
        }
        assert Before(d, hash, pool, first) == {};
      } else if id in pool {
        assert first in Before(d, hash, pool, id);
      }
    }
  }

  lemma FullDiffers(d: string, n: nat, hash: Hash)
    ensures Divergent(FullReport(d, n, hash).segments, EmptyReport(hash).segments) == {PrefixOf(d)}
  {
    var a, b := FullReport(d, n, hash).segments, EmptyReport(hash).segments;
    assert a[..0] == [] && a + b == a && a[0] in a;
    assert SegmentAt(a, PrefixOf(d)) == Some(a[0]) && SegmentAt(b, PrefixOf(d)) == None;
  }

  /** While `c` is there: it is the place for the object, and holds it; `a` holds it too, `b` does not. */
  ghost predicate AllThere(s: Scene, a: string, b: string, c: string, hash: Hash, sum: Sum) {
    && Digest(hash) && Digest(sum) && ValidDigest(s.d) && sum(s.x) == s.d
    && a != b && a != c && b != c && s.ids == {a, b, c} && s.holders == {a, c}
    && Precedes(s.d, hash, c, b) && Precedes(s.d, hash, b, a)
  }

  lemma PlaceIsC(s: Scene, a: string, b: string, c: string, hash: Hash, sum: Sum)
    requires AllThere(s, a, b, c, hash, sum)
    ensures forall id :: Desired(s.d, hash, s.ids, 1, id) <==> id == c
  {
    RendezvousTransitive(s.d, hash, c, b, a);
    DesiredFirst(s.d, hash, s.ids, c);
  }

  lemma ThreeOf(a: string, b: string, c: string)
    requires a != b && a != c && b != c
    ensures |{a, b, c}| == 3
  {
  }

  lemma ToldToSend(s: Scene, a: string, b: string, c: string, hash: Hash, sum: Sum)
    requires AllThere(s, a, b, c, hash, sum)
    ensures Due(Seen(s, [], hash), Order(a, b, [PrefixOf(s.d)], s.ids, 1))
  {
    var v := Seen(s, [], hash);
    TakingPart(s, [], hash);
    FullDiffers(s.d, |s.x|, hash);
    ThreeOf(a, b, c);
    assert Page(v.jobs, 20000) == [];
    assert !Suppressed(v, Done(s, a, b, hash).target);
    assert Partners(v, a, b);
  }

  lemma NothingToSend(s: Scene, a: string, b: string, c: string, hash: Hash, sum: Sum)
    requires AllThere(s, a, b, c, hash, sum)
    ensures var w, o := Stores(s), Order(a, b, [PrefixOf(s.d)], s.ids, 1);
            Works(w, o, hash, sum) && forall n :: Transfer(w, o, n, hash, sum) ==> n == w
  {
    PlaceIsC(s, a, b, c, hash, sum);
    var w, o := Stores(s), Order(a, b, [PrefixOf(s.d)], s.ids, 1);
    assert Sent(w, o, hash) == map[];
    assert map[] + w[b] == w[b];
    forall n | Transfer(w, o, n, hash, sum) ensures n == w {
      assert forall x :: x in w ==> n[x] == w[x];
    }
  }

  lemma NothingMissing(s: Scene, a: string, b: string, c: string, hash: Hash, sum: Sum)
    requires AllThere(s, a, b, c, hash, sum)
    ensures NothingHeldBack(Seen(s, [], hash), Stores(s), "default", hash, sum)
  {
    var v, w := Seen(s, [], hash), Stores(s);
    TakingPart(s, [], hash);
    PlaceIsC(s, a, b, c, hash, sum);
    ThreeOf(a, b, c);
    assert PoolFactor(v, "default") == 1;
    forall x, d, t | Owed(w, x, d, t, s.ids, 1, hash, sum) ensures Intact(w[t], d, sum) {
      assert d == s.d && t == c;
    }
  }

  /** In the first round `a` is told to synchronise `b`; the transfer succeeds with nothing to send, and the
      round leaves everything settled. */
  lemma WhileAllAreThere(s: Scene, a: string, b: string, c: string, hash: Hash, sum: Sum)
    requires AllThere(s, a, b, c, hash, sum)
    ensures var v, w, o := Seen(s, [], hash), Stores(s), Order(a, b, [PrefixOf(s.d)], s.ids, 1);
            && Due(v, o) && Works(w, o, hash, sum) && (forall n :: Transfer(w, o, n, hash, sum) ==> n == w)
            && KeyOf(o.source, o.target, v.peers[a].report.value, v.peers[b].report.value) == Done(s, a, b, hash).target
            && NothingHeldBack(v, w, "default", hash, sum)
  {
    ToldToSend(s, a, b, c, hash, sum);
    NothingToSend(s, a, b, c, hash, sum);
    NothingMissing(s, a, b, c, hash, sum);
  }

  /** Then `c` leaves. The object belongs on `b` now, no order for it is due, and it is missing. */
  lemma AfterOneLeft(s: Scene, a: string, b: string, hash: Hash, sum: Sum)
    requires Digest(hash) && Digest(sum) && ValidDigest(s.d) && sum(s.x) == s.d
    requires a != b && s.ids == {a, b} && s.holders == {a} && Precedes(s.d, hash, b, a)
    ensures var v, w := Seen(s, [Done(s, a, b, hash), Done(s, b, a, hash)], hash), Stores(s);
            && Planned(v, w, [], hash, sum)
            && !SettlesAlways(w, [], PoolSources(v, "default"), PoolTargets(v, "default"), PoolFactor(v, "default"), hash, sum)
  {
    var jobs := [Done(s, a, b, hash), Done(s, b, a, hash)];
    var v := Seen(s, jobs, hash);
    SceneIsFresh(s, jobs, hash, sum);
    NothingDue(s, a, b, hash);
    TakingPart(s, jobs, hash);
    assert |s.ids| == |{a, b}| == 2;
    assert PoolFactor(v, "default") == 1;
    NotSettled(s, a, b, hash, sum);
  }

  lemma NotSettled(s: Scene, a: string, b: string, hash: Hash, sum: Sum)
    requires sum(s.x) == s.d && a != b && s.ids == {a, b} && s.holders == {a} && Precedes(s.d, hash, b, a)
    ensures !SettlesAlways(Stores(s), [], s.ids, s.ids, 1, hash, sum)
  {
    var w, none: seq<Order> := Stores(s), [];
    DesiredFirst(s.d, hash, s.ids, b);
    assert Owed(w, a, s.d, b, s.ids, 1, hash, sum) && s.d !in w[b];
    assert [w][0] == w && !Settled(w, w, s.ids, s.ids, 1, hash, sum);
    assert multiset(none) == multiset(none) && Runs([w], none, hash, sum);
  }

  const OBJECT: Bytes := [0, 0, 0, 0, 0, 0, 0, 0, 0, 0, 0, 0, 0, 0, 0, 0, 0, 0, 0, 0, 0, 0, 0, 0, 0, 0, 0, 0, 0, 0, 0, 0]

  /** It happens: whatever the scores, three agents and one object can be cast in these parts. */
  lemma Happens(x: string, y: string, z: string) returns (s: Scene, a: string, b: string, c: string)
    requires x != y && x != z && y != z
    ensures {a, b, c} == {x, y, z} && AllThere(s, a, b, c, TextHex, Hex)
  {
    HexIsDigest();
    TextHexIsDigest();
    HexIsValid(OBJECT);
    var d := Hex(OBJECT);
    a, b, c := Cast(d, TextHex, x, y, z);
    s := Scene({a, b, c}, {a, c}, d, OBJECT);
  }

  lemma Cast(d: string, hash: Hash, x: string, y: string, z: string) returns (a: string, b: string, c: string)
    requires x != y && x != z && y != z
    ensures {a, b, c} == {x, y, z} && Precedes(d, hash, c, b) && Precedes(d, hash, b, a)
    ensures a != b && a != c && b != c
  {
    var p, q := Pair(d, hash, x, y);
    RendezvousConnected(d, hash, p, z);
    RendezvousConnected(d, hash, q, z);
    if Precedes(d, hash, z, p) {
      a, b, c := q, p, z;
    } else if Precedes(d, hash, z, q) {
      a, b, c := q, z, p;
    } else {
      a, b, c := z, q, p;
    }
  }

  lemma Pair(d: string, hash: Hash, x: string, y: string) returns (p: string, q: string)
    requires x != y
    ensures {p, q} == {x, y} && Precedes(d, hash, p, q)
  {
    RendezvousConnected(d, hash, x, y);
    if Precedes(d, hash, x, y) {
      p, q := x, y;
    } else {
      p, q := y, x;
    }
  }
}
