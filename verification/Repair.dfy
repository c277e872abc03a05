/** Repairing a corrupt object from shards on other agents
    (internal/controlplane/repair_distributed.go): choosing and shipping the shards,
    then rebuilding the object on the node that needs it. */
module Repair {
  import opened Prelude
  import opened Finite
  import opened Ordering
  import opened Erasure

  datatype ErasureSet = ErasureSet(originalBytes: int, dataShards: int, parityShards: int, blockBytes: int)

  /** A row of the shard table. */
  datatype ShardCopy = ShardCopy(index: int, agent: string, ready: bool, sha256: string, bytes: int)

  datatype Payload = Payload(
    digest: string,
    originalBytes: int,
    dataShards: int,
    parityShards: int,
    blockBytes: int,
    shards: seq<Shard>)

  /** A leased transfer of one shard to the node under repair. */
  datatype Shipment = Shipment(source: string, target: string, shard: Shard)

  datatype ScheduleError = NoErasureSet | TargetUnavailable | TooFewShards(online: int)

  // --- Scheduling -------------------------------------------------------------------------

  predicate Usable(r: ShardCopy, online: set<string>) {
    r.ready && r.agent in online
  }

  function ShardOf(r: ShardCopy): Shard {
    Shard(r.index, r.bytes, r.sha256)
  }

  /** Shard indices of which some online agent holds a ready copy. */
  ghost function Reachable(copies: seq<ShardCopy>, online: set<string>): set<int> {
    set r | r in copies && Usable(r, online) :: r.index
  }

  ghost predicate FirstUsable(copies: seq<ShardCopy>, online: set<string>, index: int, j: int) {
    && 0 <= j < |copies| && Usable(copies[j], online) && copies[j].index == index
    && forall i :: 0 <= i < j ==> !(Usable(copies[i], online) && copies[i].index == index)
  }

  /** The choice of a repair: the lowest reachable indices, one shard each, and a
      shipment for every chosen shard whose first usable copy is elsewhere. */
  ghost predicate Chosen(copies: seq<ShardCopy>, online: set<string>, target: string, n: int,
                         chosen: seq<Shard>, shipments: seq<Shipment>)
  {
    && |chosen| == Min(Max(n, 0), |Reachable(copies, online)|)
    && (forall i, j :: 0 <= i < j < |chosen| ==> chosen[i].index < chosen[j].index)
    && (forall i, x :: 0 <= i < |chosen| && x in Reachable(copies, online) && x < chosen[i].index ==>
          exists h :: 0 <= h < i && chosen[h].index == x)
    && (forall i :: 0 <= i < |chosen| ==> Backed(copies, online, chosen[i]))
    && Shipped(copies, online, target, chosen, shipments)
  }

  /** The holder whose copy is taken: the one with the first usable row. */
  ghost predicate Holder(copies: seq<ShardCopy>, online: set<string>, s: Shard, agent: string) {
    exists j :: FirstUsable(copies, online, s.index, j) && ShardOf(copies[j]) == s && copies[j].agent == agent
  }

  /** Exactly the chosen shards whose holder is not the target are sent, each once, by their holders. */
  ghost predicate Shipped(copies: seq<ShardCopy>, online: set<string>, target: string, chosen: seq<Shard>, shipments: seq<Shipment>) {
    && Distinct(shipments)
    && forall x :: x in shipments <==> x.shard in chosen && x.target == target != x.source && Holder(copies, online, x.shard, x.source)
  }

  ghost predicate Backed(copies: seq<ShardCopy>, online: set<string>, s: Shard) {
    exists j :: FirstUsable(copies, online, s.index, j) && ShardOf(copies[j]) == s
  }

  method FindCandidate(copies: seq<ShardCopy>, online: set<string>, index: int) returns (candidate: Option<nat>)
    ensures candidate.Some? ==> FirstUsable(copies, online, index, candidate.value)
    ensures candidate.None? ==> forall r :: r in copies && Usable(r, online) ==> r.index != index
  {
    for i := 0 to |copies|
      invariant forall j :: 0 <= j < i ==> !(Usable(copies[j], online) && copies[j].index == index)
    {
      if copies[i].index == index && copies[i].ready && copies[i].agent in online {
        return Some(i);
      }
    }
    candidate := None;
  }

  method ReadyIndices(copies: seq<ShardCopy>) returns (indices: seq<int>)
    ensures Ascending(indices, (a: int, b: int) => a < b)
    ensures forall x :: x in indices <==> exists r :: r in copies && r.ready && r.index == x
  {
    var found: set<int> := {};
    for i := 0 to |copies|
      invariant forall x :: x in found <==> exists r :: r in copies[..i] && r.ready && r.index == x
    {
      assert copies[..i + 1] == copies[..i] + [copies[i]];
      if copies[i].ready {
        found := found + {copies[i].index};
      }
    }
    assert copies[..|copies|] == copies;
    var list := Listing(found);
    indices := Sort(list, (a: int, b: int) => a < b);
    forall x ensures x in indices <==> exists r :: r in copies && r.ready && r.index == x {
      assert x in indices <==> x in Elements(list);
    }
  }

  /** `chosen` are the shards of the reachable ones among the indices looked at. */
  ghost predicate Picked(copies: seq<ShardCopy>, online: set<string>, seen: seq<int>, chosen: seq<Shard>) {
    && (forall i, j :: 0 <= i < j < |chosen| ==> chosen[i].index < chosen[j].index)
    && (forall i :: 0 <= i < |chosen| ==> chosen[i].index in seen && Backed(copies, online, chosen[i]))
    && forall x :: x in seen && x in Reachable(copies, online) ==> exists h :: 0 <= h < |chosen| && chosen[h].index == x
  }

  lemma PickedStep(copies: seq<ShardCopy>, online: set<string>, seen: seq<int>, chosen: seq<Shard>, x: int, j: nat)
    requires Picked(copies, online, seen, chosen) && (forall y :: y in seen ==> y < x)
    requires FirstUsable(copies, online, x, j)
    ensures Picked(copies, online, seen + [x], chosen + [ShardOf(copies[j])])
  {
    var now := chosen + [ShardOf(copies[j])];
    assert Backed(copies, online, ShardOf(copies[j]));
    forall y | y in seen + [x] && y in Reachable(copies, online) ensures exists h :: 0 <= h < |now| && now[h].index == y {
      if y == x {
        assert now[|chosen|].index == x;
      } else {
        var h :| 0 <= h < |chosen| && chosen[h].index == y;
        assert now[h].index == y;
      }
    }
  }

  lemma SkippedStep(copies: seq<ShardCopy>, online: set<string>, seen: seq<int>, chosen: seq<Shard>, x: int)
    requires Picked(copies, online, seen, chosen)
    requires forall r :: r in copies && Usable(r, online) ==> r.index != x
    ensures Picked(copies, online, seen + [x], chosen)
  {
    assert x !in Reachable(copies, online);
  }

  lemma ShippedStep(copies: seq<ShardCopy>, online: set<string>, target: string, chosen: seq<Shard>, shipments: seq<Shipment>,
                    x: int, j: nat, more: seq<Shipment>)
    requires Shipped(copies, online, target, chosen, shipments) && FirstUsable(copies, online, x, j)
    requires forall s :: s in chosen ==> s.index < x
    requires more == if copies[j].agent == target then [] else [Shipment(copies[j].agent, target, ShardOf(copies[j]))]
    ensures Shipped(copies, online, target, chosen + [ShardOf(copies[j])], shipments + more)
  {
    var s := ShardOf(copies[j]);
    assert Holder(copies, online, s, copies[j].agent);
    forall agent | Holder(copies, online, s, agent) ensures agent == copies[j].agent {
      var i :| FirstUsable(copies, online, s.index, i) && copies[i].agent == agent;
      assert i == j;
    }
  }

  method PickShards(copies: seq<ShardCopy>, online: set<string>, target: string, n: int)
    returns (chosen: seq<Shard>, shipments: seq<Shipment>)
    ensures Chosen(copies, online, target, n, chosen, shipments)
  {
    var indices := ReadyIndices(copies);
    chosen, shipments := [], [];
    var i := 0;
    while i < |indices| && |chosen| < n
      invariant 0 <= i <= |indices| && |chosen| <= Max(n, 0)
      invariant Picked(copies, online, indices[..i], chosen)
      invariant Shipped(copies, online, target, chosen, shipments)
    {
      assert indices[..i + 1] == indices[..i] + [indices[i]];
      chosen, shipments := PickIndex(copies, online, target, indices[..i], indices[i], chosen, shipments);
      i := i + 1;
    }
    PickedIsChosen(copies, online, indices, i, n, chosen);
  }

  /** One round: the shard of an index, if it has a usable copy, and its shipment, if it needs one. */
  method PickIndex(copies: seq<ShardCopy>, online: set<string>, target: string, ghost seen: seq<int>, index: int,
                   chosen: seq<Shard>, shipments: seq<Shipment>)
    returns (chosen': seq<Shard>, shipments': seq<Shipment>)
    requires Picked(copies, online, seen, chosen) && Shipped(copies, online, target, chosen, shipments)
    requires forall y :: y in seen ==> y < index
    ensures Picked(copies, online, seen + [index], chosen') && Shipped(copies, online, target, chosen', shipments')
    ensures |chosen| <= |chosen'| <= |chosen| + 1
  {
    chosen', shipments' := chosen, shipments;
    var candidate := FindCandidate(copies, online, index);
    if candidate.Some? {
      var r := copies[candidate.value];
      PickedStep(copies, online, seen, chosen, index, candidate.value);
      var more := if r.agent == target then [] else [Shipment(r.agent, target, ShardOf(r))];
      forall s | s in chosen ensures s.index < index {
        assert s.index in seen;
      }
      ShippedStep(copies, online, target, chosen, shipments, index, candidate.value, more);
      chosen', shipments' := chosen + [ShardOf(r)], shipments + more;
    } else {
      SkippedStep(copies, online, seen, chosen, index);
    }
  }

  ghost function IndicesOf(chosen: seq<Shard>): set<int> {
    set s | s in chosen :: s.index
  }

  lemma {:induction false} IndicesSize(chosen: seq<Shard>)
    requires forall i, j :: 0 <= i < j < |chosen| ==> chosen[i].index < chosen[j].index
    ensures |IndicesOf(chosen)| == |chosen|
  {
    if chosen == [] {
      assert IndicesOf(chosen) == {};
    } else {
      var front, last := chosen[..|chosen| - 1], chosen[|chosen| - 1];
      IndicesSize(front);
      assert chosen == front + [last];
      assert IndicesOf(chosen) == IndicesOf(front) + {last.index};
      assert last.index !in IndicesOf(front);
    }
  }

  lemma PickedReachable(copies: seq<ShardCopy>, online: set<string>, seen: seq<int>, chosen: seq<Shard>)
    requires Picked(copies, online, seen, chosen)
    ensures IndicesOf(chosen) <= Reachable(copies, online)
    ensures forall x :: x in seen && x in Reachable(copies, online) ==> x in IndicesOf(chosen)
  {
    forall i | 0 <= i < |chosen| ensures chosen[i].index in Reachable(copies, online) {
      var j :| FirstUsable(copies, online, chosen[i].index, j) && ShardOf(copies[j]) == chosen[i];
      assert copies[j] in copies;
    }
    forall x | x in seen && x in Reachable(copies, online) ensures x in IndicesOf(chosen) {
      var h :| 0 <= h < |chosen| && chosen[h].index == x;
      assert chosen[h] in chosen;
    }
  }

  lemma PickedIsChosen(copies: seq<ShardCopy>, online: set<string>, indices: seq<int>, i: nat, n: int, chosen: seq<Shard>)
    requires Ascending(indices, (a: int, b: int) => a < b) && i <= |indices|
    requires forall x :: x in indices <==> exists r :: r in copies && r.ready && r.index == x
    requires Picked(copies, online, indices[..i], chosen) && |chosen| <= Max(n, 0)
    requires i == |indices| || |chosen| >= n
    ensures |chosen| == Min(Max(n, 0), |Reachable(copies, online)|)
    ensures forall k, x :: 0 <= k < |chosen| && x in Reachable(copies, online) && x < chosen[k].index ==>
              exists h :: 0 <= h < k && chosen[h].index == x
  {
    PickedCount(copies, online, indices, i, n, chosen);
    forall k, x | 0 <= k < |chosen| && x in Reachable(copies, online) && x < chosen[k].index
      ensures exists h :: 0 <= h < k && chosen[h].index == x
    {
      assert x in indices;
      assert x in indices[..i] by {
        var a :| 0 <= a < |indices| && indices[a] == x;
        var c :| 0 <= c < i && indices[..i][c] == chosen[k].index;
        assert a <= c;
        assert indices[..i][a] == x;
      }
      var h :| 0 <= h < |chosen| && chosen[h].index == x;
    }
  }

  lemma PickedCount(copies: seq<ShardCopy>, online: set<string>, indices: seq<int>, i: nat, n: int, chosen: seq<Shard>)
    requires i <= |indices|
    requires forall x :: x in indices <==> exists r :: r in copies && r.ready && r.index == x
    requires Picked(copies, online, indices[..i], chosen) && |chosen| <= Max(n, 0)
    requires i == |indices| || |chosen| >= n
    ensures |chosen| == Min(Max(n, 0), |Reachable(copies, online)|)
  {
    PickedReachable(copies, online, indices[..i], chosen);
    IndicesSize(chosen);
    SubsetSize(IndicesOf(chosen), Reachable(copies, online));
    if i == |indices| {
      assert indices[..i] == indices;
      assert IndicesOf(chosen) == Reachable(copies, online);
    }
  }

  /** `online` are the agents seen recently, readable, and with a replication key. A shortage is
      reported after the shipments for what there is have been queued. */
  method Schedule(row: Option<ErasureSet>, copies: seq<ShardCopy>, online: set<string>, target: string, digest: string)
    returns (r: Result<Payload, ScheduleError>, shipments: seq<Shipment>)
    ensures row.None? ==> r == Failure(NoErasureSet) && shipments == []
    ensures row.Some? && target !in online ==> r == Failure(TargetUnavailable) && shipments == []
    ensures row.Some? && target in online ==>
              var e, found := row.value, |Reachable(copies, online)|;
              if found < e.dataShards then
                r == Failure(TooFewShards(found)) && exists chosen :: Chosen(copies, online, target, e.dataShards, chosen, shipments)
              else
                && r.Success? && Chosen(copies, online, target, e.dataShards, r.value.shards, shipments)
                && r.value == Payload(digest, e.originalBytes, e.dataShards, e.parityShards, e.blockBytes, r.value.shards)
  {
    shipments := [];
    if row.None? {
      return Failure(NoErasureSet), [];
    }
    if target !in online {
      return Failure(TargetUnavailable), [];
    }
    var e := row.value;
    var chosen: seq<Shard>;
    chosen, shipments := PickShards(copies, online, target, e.dataShards);
    if |chosen| < e.dataShards {
      return Failure(TooFewShards(|chosen|)), shipments;
    }
    r := Success(Payload(digest, e.originalBytes, e.dataShards, e.parityShards, e.blockBytes, chosen));
  }
}
