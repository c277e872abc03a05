/** When one store is told to send to another, spelled out: agents, pools, room, and the job that may stand for the
    transfer already (internal/controlplane/cas_reconcile.go). */
module SyncOrders {
  import opened Prelude
  import opened Finite
  import opened Ordering
  import opened Agents
  import opened Inventory
  import opened InventoryAgreement
  import opened JobListing
  import opened CasReconcile
  import JobStore

  // --- Job targets -----------------------------------------------------------------------------

  /** The target of the job for a transfer between two stores with these Merkle roots. */
  function TransferTarget(source: string, target: string, sourceRoot: string, targetRoot: string): string {
    "cas:" + source + ">" + target + ":" + sourceRoot[..Min(|sourceRoot|, 12)] + ":" + targetRoot[..Min(|targetRoot|, 12)]
  }

  /** Between the same stores, jobs share a target if and only if both roots agree in their first twelve characters. */
  lemma TargetsDifferIff(source: string, target: string, a: Inventory, b: Inventory, a': Inventory, b': Inventory)
    requires 12 <= |a.merkleRoot| && 12 <= |b.merkleRoot| && 12 <= |a'.merkleRoot| && 12 <= |b'.merkleRoot|
    ensures KeyOf(source, target, a, b) == KeyOf(source, target, a', b')
       <==> a.merkleRoot[..12] == a'.merkleRoot[..12] && b.merkleRoot[..12] == b'.merkleRoot[..12]
  {
    var front := "cas:" + source + ">" + target + ":";
    var x, y, x', y' := a.merkleRoot[..12], b.merkleRoot[..12], a'.merkleRoot[..12], b'.merkleRoot[..12];
    assert KeyOf(source, target, a, b) == front + x + ":" + y && KeyOf(source, target, a', b') == front + x' + ":" + y';
    if front + x + ":" + y == front + x' + ":" + y' {
      assert front + x + (":" + y) == front + x + ":" + y && front + x' + (":" + y') == front + x' + ":" + y';
      SplitAt(front, x, ":" + y, x', ":" + y');
      assert (":" + y)[1..] == y && (":" + y')[1..] == y';
    }
  }

  lemma SplitAt(front: string, x: string, r: string, x': string, r': string)
    requires front + x + r == front + x' + r' && |x| == |x'|
    ensures x == x' && r == r'
  {
    var s := front + x + r;
    assert s[|front|..|front| + |x|] == x && s[|front| + |x|..] == r;
    assert s[|front|..|front| + |x'|] == x' && s[|front| + |x'|..] == r';
  }

  // --- Who takes part ----------------------------------------------------------------------------

  /** Allowed, recently seen, with a key and an inventory, on storage that can be read. */
  predicate Joins(v: View, id: string) {
    && id in v.peers && Allowed(id, v.cfg.allowed, v.cfg.excluded)
    && v.now <= v.peers[id].agent.lastSeen + v.cfg.timeout && TrimSpace(v.peers[id].agent.publicKey) != ""
    && v.peers[id].report.Some? && (v.cfg.storage.enabled ==> v.peers[id].agent.storageHealth != "unhealthy")
  }

  function Label(v: View, id: string): string
    requires id in v.peers
  {
    PoolOf(v.peers[id].agent, v.cfg.poolLabel)
  }

  /** Job `i`, of the hundred newest the oldest with this target, is under way, done, or failed a short while ago. */
  ghost predicate StandsAt(v: View, target: string, i: int) {
    && 0 <= i < |v.jobs| && i < 100
    && v.jobs[i].kind == "replicate-cas" && v.jobs[i].target == target
    && (forall j :: i < j < |v.jobs| && j < 100 ==> v.jobs[j].kind != "replicate-cas" || v.jobs[j].target != target)
    && (v.jobs[i].status in {JobStore.Queued, JobStore.Running, JobStore.Succeeded}
        || v.now < v.jobs[i].updated + v.cfg.cooldown)
  }

  ghost predicate StandsFor(v: View, target: string) {
    exists i :: StandsAt(v, target, i)
  }

  lemma Listed(v: View)
    ensures var page := Page(v.jobs, 20000);
            |page| == Min(|v.jobs|, 100) && forall i :: 0 <= i < |page| ==> page[i] == v.jobs[i]
  {
  }

  lemma SuppressedStands(v: View, target: string)
    requires Suppressed(v, target)
    ensures StandsFor(v, target)
  {
    var page := Page(v.jobs, 20000);
    Listed(v);
    var p := Earlier(v)[target];
    KnownIff(page, "replicate-cas", target, p);
    var i: nat :| Decides(page, "replicate-cas", target, i) && Past(page[i].status, page[i].updated) == p;
    assert StandsAt(v, target, i);
  }

  lemma StandsSuppresses(v: View, target: string, i: int)
    requires StandsAt(v, target, i)
    ensures Suppressed(v, target)
  {
    var page := Page(v.jobs, 20000);
    Listed(v);
    assert Decides(page, "replicate-cas", target, i);
    KnownIff(page, "replicate-cas", target, Past(page[i].status, page[i].updated));
  }

  lemma StandsForIff(v: View, target: string)
    ensures Suppressed(v, target) <==> StandsFor(v, target)
  {
    if Suppressed(v, target) {
      SuppressedStands(v, target);
    }
    if i :| StandsAt(v, target, i) {
      StandsSuppresses(v, target, i);
    }
  }

  // --- The orders of a round -----------------------------------------------------------------------

  /** The stores differ, what the source holds under the differing prefixes fits the target, and no job stands for
      the transfer. */
  ghost predicate Warranted(v: View, s: string, t: string)
    requires s in v.peers && t in v.peers && v.peers[s].report.Some? && v.peers[t].report.Some?
  {
    var a, b := v.peers[s].report.value, v.peers[t].report.value;
    var differing := Divergent(a.segments, b.segments);
    && differing != {}
    && HasCapacityFor(v.peers[t].agent, v.cfg.storage, BytesUnder(a.segments, Folded(differing)))
    && !StandsFor(v, TransferTarget(s, t, a.merkleRoot, b.merkleRoot))
  }

  ghost predicate Pair(v: View, s: string, t: string) {
    && v.cfg.storage.enabled && v.cfg.inventoryEnabled && 1 <= v.cfg.factor
    && s != t && Joins(v, s) && Joins(v, t) && AcceptsPlacement(v.peers[t].agent, v.cfg.storage) && Label(v, s) == Label(v, t)
    && Warranted(v, s, t)
  }

  lemma JoinsIff(v: View, id: string)
    ensures id in Sources(v) <==> Joins(v, id)
    ensures id in Targets(v) <==> Joins(v, id) && AcceptsPlacement(v.peers[id].agent, v.cfg.storage)
  {
  }

  /** A warranted transfer of all differing prefixes, in order, placed among the targets of the pool. */
  ghost predicate Complete(v: View, o: Order) {
    && Pair(v, o.source, o.target)
    && Arranges(o.prefixes, Divergent(v.peers[o.source].report.value.segments, v.peers[o.target].report.value.segments), TextLess)
    && o.pool == (set id | id in v.peers && Joins(v, id) && AcceptsPlacement(v.peers[id].agent, v.cfg.storage)
                           && Label(v, id) == Label(v, o.source))
    && o.factor == Min(v.cfg.factor, |o.pool|)
  }

  lemma DueIsComplete(v: View, o: Order)
    requires Due(v, o)
    ensures Complete(v, o)
  {
    JoinsIff(v, o.source);
    JoinsIff(v, o.target);
    var a, b := v.peers[o.source].report.value, v.peers[o.target].report.value;
    StandsForIff(v, TransferTarget(o.source, o.target, a.merkleRoot, b.merkleRoot));
    assert KeyOf(o.source, o.target, a, b) == TransferTarget(o.source, o.target, a.merkleRoot, b.merkleRoot);
    assert o.prefixes[0] in o.prefixes;
    forall id ensures id in o.pool <==> id in v.peers && Joins(v, id) && AcceptsPlacement(v.peers[id].agent, v.cfg.storage)
                                        && Label(v, id) == Label(v, o.source) {
      JoinsIff(v, id);
    }
  }

  lemma PairIsDue(v: View, s: string, t: string) returns (o: Order)
    requires Pair(v, s, t)
    ensures Due(v, o) && o.source == s && o.target == t
  {
    JoinsIff(v, s);
    JoinsIff(v, t);
    var a, b := v.peers[s].report.value, v.peers[t].report.value;
    StandsForIff(v, TransferTarget(s, t, a.merkleRoot, b.merkleRoot));
    assert KeyOf(s, t, a, b) == TransferTarget(s, t, a.merkleRoot, b.merkleRoot);
    var prefixes := Arrangement(Divergent(a.segments, b.segments));
    var pool := PoolTargets(v, PoolName(v)(s));
    o := Order(s, t, prefixes, pool, Min(v.cfg.factor, |pool|));
    var p :| p in Divergent(a.segments, b.segments);
    assert p in prefixes;
  }

  /** A round orders exactly the warranted transfers, each once. */
  method OrderRound(v: View) returns (orders: seq<Order>)
    ensures Distinct(orders) && forall o :: o in orders ==> Complete(v, o)
    ensures forall s, t :: Pair(v, s, t) <==> exists o :: o in orders && o.source == s && o.target == t
  {
    orders := Reconcile(v);
    forall o | o in orders ensures Complete(v, o) {
      DueIsComplete(v, o);
    }
    forall s, t | Pair(v, s, t) ensures exists o :: o in orders && o.source == s && o.target == t {
      var o := PairIsDue(v, s, t);
    }
  }

  /** A job that was filed for other roots never stands for a transfer: a pair that differs and has room is ordered
      whenever no listed job has the roots of today. */
  lemma NewRootsAreOrdered(v: View, s: string, t: string) returns (o: Order)
    requires v.cfg.storage.enabled && v.cfg.inventoryEnabled && 1 <= v.cfg.factor
    requires s != t && Joins(v, s) && Joins(v, t) && AcceptsPlacement(v.peers[t].agent, v.cfg.storage) && Label(v, s) == Label(v, t)
    requires var a, b := v.peers[s].report.value, v.peers[t].report.value;
             && Divergent(a.segments, b.segments) != {}
             && HasCapacityFor(v.peers[t].agent, v.cfg.storage, BytesUnder(a.segments, Folded(Divergent(a.segments, b.segments))))
             && 12 <= |a.merkleRoot| && 12 <= |b.merkleRoot|
             && forall j :: j in v.jobs && j.kind == "replicate-cas" ==>
                  j.target != "cas:" + s + ">" + t + ":" + a.merkleRoot[..12] + ":" + b.merkleRoot[..12]
    ensures Due(v, o) && o.source == s && o.target == t
  {
    o := PairIsDue(v, s, t);
  }

  // --- Room --------------------------------------------------------------------------------------------

  lemma {:induction false} TotalJoin(c: Catalogue, xs: seq<string>, ys: seq<string>)
    requires forall d :: d in xs || d in ys ==> d in c
    ensures TotalBytes(c, xs + ys) == TotalBytes(c, xs) + TotalBytes(c, ys)
  {
    if ys == [] {
      assert xs + ys == xs;
    } else {
      var n := |ys| - 1;
      TotalJoin(c, xs, ys[..n]);
      assert (xs + ys)[..|xs + ys| - 1] == xs + ys[..n];
    }
  }

  lemma TotalWithout(c: Catalogue, before: seq<string>, x: string, after: seq<string>)
    requires forall d :: d in before || d == x || d in after ==> d in c
    ensures TotalBytes(c, before + [x] + after) == TotalBytes(c, before + after) + c[x]
  {
    TotalJoin(c, before, after);
    TotalJoin(c, before, [x]);
    TotalJoin(c, before + [x], after);
    assert TotalBytes(c, [x]) == c[x];
  }

  lemma Without(before: seq<string>, x: string, after: seq<string>)
    requires Distinct(before + [x] + after)
    ensures Distinct(before + after) && x !in before + after
  {
    var xs, rest := before + [x] + after, before + after;
    forall i | 0 <= i < |rest| ensures rest[i] == xs[if i < |before| then i else i + 1] {
    }
    assert xs[|before|] == x;
  }

  /** What is left without one value. */
  lemma TakeOut(c: Catalogue, xs: seq<string>, x: string) returns (rest: seq<string>)
    requires Distinct(xs) && x in xs && forall d :: d in xs ==> d in c
    ensures Distinct(rest) && (forall d :: d in rest <==> d in xs && d != x) && |rest| == |xs| - 1
    ensures TotalBytes(c, xs) == TotalBytes(c, rest) + c[x]
  {
    var k :| 0 <= k < |xs| && xs[k] == x;
    var before, after := xs[..k], xs[k + 1..];
    rest := before + after;
    assert xs == before + [x] + after;
    Without(before, x, after);
    TotalWithout(c, before, x, after);
  }

  /** A total does not depend on the order. */
  lemma {:induction false} TotalSame(c: Catalogue, xs: seq<string>, ys: seq<string>)
    requires Distinct(xs) && Distinct(ys) && (forall d :: d in xs <==> d in ys) && forall d :: d in xs ==> d in c
    ensures TotalBytes(c, xs) == TotalBytes(c, ys)
    decreases |xs|
  {
    assert ys != [] ==> ys[0] in xs;
    if xs != [] {
      var x := xs[0];
      var front := TakeOut(c, xs, x);
      var back := TakeOut(c, ys, x);
      TotalSame(c, front, back);
    }
  }

  /** The prefix of a digest is plain text. */
  lemma PrefixIsPlain(d: string)
    requires ValidDigest(d)
    ensures Lower(PrefixOf(d)) == PrefixOf(d) && TrimSpace(PrefixOf(d)) == PrefixOf(d)
  {
    var p := PrefixOf(d);
    assert HexDigit(d[0]) && HexDigit(d[1]) && p == [d[0], d[1]];
    assert Lower(p)[0] == p[0] && Lower(p)[1] == p[1];
    TrimNothing(p);
  }

  lemma SegmentPrefix(segments: seq<Segment>, c: Catalogue, hash: string -> string, s: Segment)
    requires Digests(c) && Covers(segments, c, hash) && s in segments
    ensures Lower(s.prefix) == s.prefix && TrimSpace(s.prefix) == s.prefix
  {
    SegmentPresence(segments, c, hash, s.prefix);
    SegmentAtMember(segments, s.prefix);
    var d :| d in Under(c, s.prefix);
    PrefixIsPlain(d);
  }

  lemma FoldedIff(a: Catalogue, b: Catalogue, sa: seq<Segment>, sb: seq<Segment>, hash: string -> string, p: Segment)
    requires Digests(a) && Digests(b) && Covers(sa, a, hash) && Covers(sb, b, hash) && p in sa
    ensures Lower(p.prefix) in Folded(Divergent(sa, sb)) <==> p.prefix in Divergent(sa, sb)
  {
    SegmentPrefix(sa, a, hash, p);
    forall s | s in sa + sb ensures Lower(TrimSpace(s.prefix)) == s.prefix {
      if s in sa {
        SegmentPrefix(sa, a, hash, s);
      } else {
        SegmentPrefix(sb, b, hash, s);
      }
    }
  }

  /** The objects that the first `n` segments with a prefix among `want` stand for. */
  ghost predicate Gathers(a: Catalogue, sa: seq<Segment>, n: nat, want: set<string>, leaves: seq<string>)
    requires n <= |sa|
  {
    && Distinct(leaves)
    && forall d :: d in leaves <==> d in a && PrefixOf(d) in want && exists i :: 0 <= i < n && sa[i].prefix == PrefixOf(d)
  }

  lemma GathersStep(a: Catalogue, sa: seq<Segment>, n: nat, want: set<string>, leaves: seq<string>, more: seq<string>)
    requires n < |sa| && Gathers(a, sa, n, want, leaves) && (forall i :: 0 <= i < n ==> sa[i].prefix != sa[n].prefix)
    requires Distinct(more) && forall d :: d in more <==> sa[n].prefix in want && d in Under(a, sa[n].prefix)
    ensures Gathers(a, sa, n + 1, want, leaves + more)
  {
    forall d ensures d in leaves + more <==>
                d in a && PrefixOf(d) in want && exists i :: 0 <= i < n + 1 && sa[i].prefix == PrefixOf(d) {
      if d in a && PrefixOf(d) in want {
        if i :| 0 <= i < n + 1 && sa[i].prefix == PrefixOf(d) {
          assert i < n || d in Under(a, sa[n].prefix);
        }
      }
    }
    forall x, y | 0 <= x < |leaves| && 0 <= y < |more| ensures leaves[x] != more[y] {
      assert leaves[x] in leaves && more[y] in more;
    }
  }

  lemma LeavesOf(s: Segment, a: Catalogue, hash: string -> string) returns (leaves: seq<string>)
    requires Summarises(s, a, hash)
    ensures Distinct(leaves) && (forall d :: d in leaves <==> d in Under(a, s.prefix)) && forall d :: d in leaves ==> d in a
    ensures s.bytes == TotalBytes(a, leaves)
  {
    TextOrder();
    leaves :|
      Arranges(leaves, Under(a, s.prefix), TextLess) && (forall d :: d in leaves ==> d in a) && s.bytes == TotalBytes(a, leaves);
    AscendingDistinct(leaves, TextLess);
  }

  lemma PrefixesDiffer(sa: seq<Segment>, a: Catalogue, hash: string -> string, n: nat)
    requires Covers(sa, a, hash) && n < |sa|
    ensures forall i :: 0 <= i < n ==> sa[i].prefix != sa[n].prefix
  {
    forall i | 0 <= i < n ensures sa[i].prefix != sa[n].prefix {
      TextConnected(sa[i].prefix, sa[n].prefix);
    }
  }

  lemma MoreOf(s: Segment, a: Catalogue, hash: string -> string, want: set<string>) returns (more: seq<string>)
    requires Summarises(s, a, hash)
    ensures Distinct(more) && (forall d :: d in more <==> s.prefix in want && d in Under(a, s.prefix)) && forall d :: d in more ==> d in a
    ensures TotalBytes(a, more) == if s.prefix in want then s.bytes else 0
  {
    more := [];
    if s.prefix in want {
      more := LeavesOf(s, a, hash);
    }
  }

  /** A segment counts when its prefix is wanted, whatever the blanks around the wanted one and the letter case. */
  lemma BytesByPrefix(sa: seq<Segment>, want: set<string>, n: nat)
    requires n < |sa|
    ensures BytesUnder(sa[..n + 1], Folded(want))
         == BytesUnder(sa[..n], Folded(want)) + if exists p :: p in want && Lower(TrimSpace(p)) == Lower(sa[n].prefix) then sa[n].bytes else 0
  {
    BytesStep(sa, Folded(want), n);
  }

  lemma BytesStep(sa: seq<Segment>, folded: set<string>, n: nat)
    requires n < |sa|
    ensures BytesUnder(sa[..n + 1], folded) == BytesUnder(sa[..n], folded) + if Lower(sa[n].prefix) in folded then sa[n].bytes else 0
  {
    assert sa[..n + 1][..n] == sa[..n];
  }

  lemma GatheredStep(a: Catalogue, sa: seq<Segment>, want: set<string>, folded: set<string>, n: nat, leaves: seq<string>, more: seq<string>)
    requires n < |sa| && Gathers(a, sa, n, want, leaves) && (forall i :: 0 <= i < n ==> sa[i].prefix != sa[n].prefix)
    requires Distinct(more) && (forall d :: d in more <==> sa[n].prefix in want && d in Under(a, sa[n].prefix))
    requires Lower(sa[n].prefix) in folded <==> sa[n].prefix in want
    requires BytesUnder(sa[..n], folded) == TotalBytes(a, leaves)
    requires TotalBytes(a, more) == if sa[n].prefix in want then sa[n].bytes else 0
    ensures Gathers(a, sa, n + 1, want, leaves + more) && BytesUnder(sa[..n + 1], folded) == TotalBytes(a, leaves + more)
  {
    GathersStep(a, sa, n, want, leaves, more);
    BytesStep(sa, folded, n);
    TotalJoin(a, leaves, more);
  }

  /** Every segment summarises its objects, and says of its prefix whether it is wanted. */
  ghost predicate Sorted(a: Catalogue, sa: seq<Segment>, hash: string -> string, want: set<string>, folded: set<string>) {
    forall i :: 0 <= i < |sa| ==>
      && Summarises(sa[i], a, hash) && (Lower(sa[i].prefix) in folded <==> sa[i].prefix in want)
      && forall j :: 0 <= j < i ==> sa[j].prefix != sa[i].prefix
  }

  lemma {:induction false} GatheredBytes(a: Catalogue, sa: seq<Segment>, hash: string -> string, want: set<string>, folded: set<string>, n: nat)
    returns (leaves: seq<string>)
    requires Sorted(a, sa, hash, want, folded) && n <= |sa|
    ensures Gathers(a, sa, n, want, leaves) && BytesUnder(sa[..n], folded) == TotalBytes(a, leaves)
  {
    if n == 0 {
      leaves := [];
    } else {
      var front := GatheredBytes(a, sa, hash, want, folded, n - 1);
      var more := MoreOf(sa[n - 1], a, hash, want);
      GatheredStep(a, sa, want, folded, n - 1, front, more);
      leaves := front + more;
    }
  }

  /** The room a transfer asks for is the size of all objects of the source under the prefixes that differ. */
  lemma RoomIsMeasured(sa: seq<Segment>, sb: seq<Segment>, a: Catalogue, b: Catalogue, hash: string -> string, objects: seq<string>)
    requires Digest(hash) && Digests(a) && Digests(b) && Covers(sa, a, hash) && Covers(sb, b, hash)
    requires Distinct(objects) && forall d :: d in objects <==> d in a && !SameUnder(a, b, PrefixOf(d))
    ensures BytesUnder(sa, Folded(Divergent(sa, sb))) == TotalBytes(a, objects)
  {
    var want := Divergent(sa, sb);
    forall i | 0 <= i < |sa|
      ensures (Lower(sa[i].prefix) in Folded(want) <==> sa[i].prefix in want) && forall j :: 0 <= j < i ==> sa[j].prefix != sa[i].prefix
    {
      FoldedIff(a, b, sa, sb, hash, sa[i]);
      PrefixesDiffer(sa, a, hash, i);
    }
    var leaves := GatheredBytes(a, sa, hash, want, Folded(want), |sa|);
    assert sa[..|sa|] == sa;
    forall d ensures d in leaves <==> d in objects {
      if d in a {
        DivergenceIsExact(sa, sb, a, b, hash, PrefixOf(d));
        assert exists i :: 0 <= i < |sa| && sa[i].prefix == PrefixOf(d);
      }
    }
    TotalSame(a, leaves, objects);
  }
}
