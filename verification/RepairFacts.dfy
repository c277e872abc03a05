/** What scheduling a repair decides, in terms of agents and shard rows
    (internal/controlplane/repair_distributed.go, ScheduleDistributedRepair). */
module RepairFacts {
  import opened Prelude
  import opened Finite
  import opened Agents
  import opened Erasure
  import opened Repair
  import ErasureFacts
  import ObjectRepair

  type Fleet = map<string, Agent>

  /** The agent was seen in time, its storage can be read, and it has a key. */
  predicate Answers(agents: Fleet, storage: StorageConfig, now: int, timeout: int, id: string) {
    && id in agents && now <= agents[id].lastSeen + timeout
    && (storage.enabled ==> agents[id].storageHealth != "unhealthy") && TrimSpace(agents[id].publicKey) != ""
  }

  method ListAnswering(agents: Fleet, storage: StorageConfig, now: int, timeout: int) returns (online: set<string>)
    ensures forall id :: id in online <==> Answers(agents, storage, now, timeout, id)
  {
    online := {};
    var todo := agents.Keys;
    while todo != {}
      invariant todo <= agents.Keys
      invariant forall id :: id in online <==> Answers(agents, storage, now, timeout, id) && id !in todo
    {
      var id :| id in todo;
      todo := todo - {id};
      if now - agents[id].lastSeen <= timeout && Agents.Readable(agents[id], storage) && TrimSpace(agents[id].publicKey) != "" {
        online := online + {id};
      }
    }
  }

  /** Row `j` is the first that offers the shard: ready, and on an agent that answers. */
  ghost predicate Offers(copies: seq<ShardCopy>, online: set<string>, index: int, j: int) {
    && 0 <= j < |copies| && copies[j].index == index && copies[j].ready && copies[j].agent in online
    && forall i :: 0 <= i < j && copies[i].index == index && copies[i].ready ==> copies[i].agent !in online
  }

  /** The indices that some row offers. */
  ghost predicate Offered(copies: seq<ShardCopy>, online: set<string>, found: set<int>) {
    forall x :: x in found <==> exists r :: r in copies && r.index == x && r.ready && r.agent in online
  }

  /** The lowest indices that rows offer, as many as there are data shards, each with what its first row says; a
      shipment for exactly those whose first row is on another agent, from that agent. */
  ghost predicate LowestFirst(copies: seq<ShardCopy>, online: set<string>, target: string, k: int, chosen: seq<Shard>, shipments: seq<Shipment>) {
    && (forall found :: Offered(copies, online, found) ==> |chosen| == Min(Max(k, 0), |found|))
    && (forall i, j :: 0 <= i < j < |chosen| ==> chosen[i].index < chosen[j].index)
    && (forall s, r :: s in chosen && r in copies && r.ready && r.agent in online && r.index < s.index ==> exists t :: t in chosen && t.index == r.index)
    && (forall s :: s in chosen ==> exists j :: Offers(copies, online, s.index, j) && copies[j].bytes == s.bytes && copies[j].sha256 == s.sha256)
    && Distinct(shipments)
    && forall x :: x in shipments <==>
         && x.shard in chosen && x.target == target && x.source != target
         && exists j :: Offers(copies, online, x.shard.index, j) && copies[j].agent == x.source
  }

  lemma FirstUsableIff(copies: seq<ShardCopy>, online: set<string>, index: int, j: int)
    ensures FirstUsable(copies, online, index, j) <==> Offers(copies, online, index, j)
  {
  }

  lemma OfferedIsReachable(copies: seq<ShardCopy>, online: set<string>, found: set<int>)
    requires Offered(copies, online, found)
    ensures found == Reachable(copies, online)
  {
    forall x ensures x in found <==> x in Reachable(copies, online) {
      if x in found {
        var r :| r in copies && r.index == x && r.ready && r.agent in online;
        assert Usable(r, online);
      }
      if x in Reachable(copies, online) {
        var r :| r in copies && Usable(r, online) && r.index == x;
      }
    }
  }

  lemma ChosenIsLowest(copies: seq<ShardCopy>, online: set<string>, target: string, k: int, chosen: seq<Shard>, shipments: seq<Shipment>)
    requires Chosen(copies, online, target, k, chosen, shipments)
    ensures LowestFirst(copies, online, target, k, chosen, shipments)
  {
    forall found | Offered(copies, online, found) ensures |chosen| == Min(Max(k, 0), |found|) {
      OfferedIsReachable(copies, online, found);
    }
    forall s, r | s in chosen && r in copies && r.ready && r.agent in online && r.index < s.index
      ensures exists t :: t in chosen && t.index == r.index
    {
      LowerIsChosen(copies, online, target, k, chosen, shipments, s, r);
    }
    forall s | s in chosen ensures exists j :: Offers(copies, online, s.index, j) && copies[j].bytes == s.bytes && copies[j].sha256 == s.sha256 {
      RowBehind(copies, online, target, k, chosen, shipments, s);
    }
    forall x ensures x in shipments <==>
                && x.shard in chosen && x.target == target && x.source != target
                && exists j :: Offers(copies, online, x.shard.index, j) && copies[j].agent == x.source {
      SentIff(copies, online, target, k, chosen, shipments, x);
    }
  }

  lemma LowerIsChosen(copies: seq<ShardCopy>, online: set<string>, target: string, k: int, chosen: seq<Shard>, shipments: seq<Shipment>,
                      s: Shard, r: ShardCopy)
    requires Chosen(copies, online, target, k, chosen, shipments)
    requires s in chosen && r in copies && r.ready && r.agent in online && r.index < s.index
    ensures exists t :: t in chosen && t.index == r.index
  {
    var i :| 0 <= i < |chosen| && chosen[i] == s;
    assert Usable(r, online) && r.index in Reachable(copies, online);
    var h :| 0 <= h < i && chosen[h].index == r.index;
    assert chosen[h] in chosen;
  }

  lemma RowBehind(copies: seq<ShardCopy>, online: set<string>, target: string, k: int, chosen: seq<Shard>, shipments: seq<Shipment>, s: Shard)
    requires Chosen(copies, online, target, k, chosen, shipments) && s in chosen
    ensures exists j :: Offers(copies, online, s.index, j) && ShardOf(copies[j]) == s
  {
    var i :| 0 <= i < |chosen| && chosen[i] == s;
    assert Backed(copies, online, chosen[i]);
    var j :| FirstUsable(copies, online, s.index, j) && ShardOf(copies[j]) == s;
    FirstUsableIff(copies, online, s.index, j);
  }

  lemma SentIff(copies: seq<ShardCopy>, online: set<string>, target: string, k: int, chosen: seq<Shard>, shipments: seq<Shipment>, x: Shipment)
    requires Chosen(copies, online, target, k, chosen, shipments)
    ensures x in shipments <==>
              && x.shard in chosen && x.target == target && x.source != target
              && exists j :: Offers(copies, online, x.shard.index, j) && copies[j].agent == x.source
  {
    if x in shipments {
      var j :| FirstUsable(copies, online, x.shard.index, j) && copies[j].agent == x.source;
      FirstUsableIff(copies, online, x.shard.index, j);
    }
    if x.shard in chosen && x.target == target && x.source != target {
      if j :| Offers(copies, online, x.shard.index, j) && copies[j].agent == x.source {
        RowBehind(copies, online, target, k, chosen, shipments, x.shard);
        var i :| Offers(copies, online, x.shard.index, i) && ShardOf(copies[i]) == x.shard;
        assert i == j;
        FirstUsableIff(copies, online, x.shard.index, j);
        assert Holder(copies, online, x.shard, x.source);
      }
    }
  }

  /** A repair is scheduled when the object has an erasure set, the node that needs it answers, and enough shard
      indices are offered; in a shortage the shards that are offered are sent nevertheless. */
  method ScheduleRepair(row: Option<ErasureSet>, copies: seq<ShardCopy>, agents: Fleet, storage: StorageConfig, now: int, timeout: int,
                        target: string, digest: string)
    returns (r: Result<Payload, ScheduleError>, shipments: seq<Shipment>, ghost online: set<string>, ghost found: set<int>)
    ensures forall id :: id in online <==> Answers(agents, storage, now, timeout, id)
    ensures Offered(copies, online, found)
    ensures row.None? ==> r == Failure(NoErasureSet) && shipments == []
    ensures row.Some? && target !in online ==> r == Failure(TargetUnavailable) && shipments == []
    ensures row.Some? && target in online && |found| < row.value.dataShards ==>
              && r == Failure(TooFewShards(|found|))
              && exists chosen :: LowestFirst(copies, online, target, row.value.dataShards, chosen, shipments)
    ensures row.Some? && target in online && row.value.dataShards <= |found| ==>
              && r.Success? && LowestFirst(copies, online, target, row.value.dataShards, r.value.shards, shipments)
              && r.value.digest == digest && r.value.originalBytes == row.value.originalBytes && r.value.blockBytes == row.value.blockBytes
              && r.value.dataShards == row.value.dataShards && r.value.parityShards == row.value.parityShards
  {
    var answering := ListAnswering(agents, storage, now, timeout);
    online, found := answering, Reachable(copies, answering);
    r, shipments := Schedule(row, copies, answering, target, digest);
    if row.Some? && target in answering {
      if |found| < row.value.dataShards {
        ghost var chosen :| Chosen(copies, online, target, row.value.dataShards, chosen, shipments);
        ChosenIsLowest(copies, online, target, row.value.dataShards, chosen, shipments);
      } else {
        ChosenIsLowest(copies, online, target, row.value.dataShards, r.value.shards, shipments);
      }
    }
  }

  // --- On the node ------------------------------------------------------------------------------------

  /** A shard has arrived when the file of its digest, trimmed and in lower case, has that digest. */
  lemma ArrivedIff(objects: ObjectRepair.Objects, s: Shard, hash: Bytes -> string)
    ensures ObjectRepair.Arrived(objects, s, hash)
       <==> var name := Lower(TrimSpace(s.sha256));
            name in objects && Lower(hash(objects[name])) == Lower(s.sha256)
  {
  }

  /** A repair touches the file of the object's digest alone, and only with content of that digest, after enough shards
      have arrived; a payload that names no object, no code or no blocks is refused. */
  method RepairNode(node: ObjectRepair.Node, p: Payload, c: Codec, hash: Bytes -> string) returns (r: Result<Bytes, ObjectRepair.RepairError>)
    modifies node
    ensures |p.digest| != 64 || p.dataShards < 2 || p.blockBytes < 1 ==> r == Failure(ObjectRepair.InvalidPayload)
    ensures r.Failure? ==> node.objects == old(node.objects)
    ensures r.Success? ==>
              var name := Lower(TrimSpace(p.digest));
              && name in old(node.objects) && node.objects == old(node.objects)[name := r.value]
              && Lower(hash(r.value)) == Lower(p.digest) && |r.value| == p.originalBytes
              && exists here: set<int> :: p.dataShards <= |here| && forall i :: i in here ==>
                   exists s :: s in p.shards && s.index == i && Lower(TrimSpace(s.sha256)) in old(node.objects)
                               && Lower(hash(old(node.objects)[Lower(TrimSpace(s.sha256))])) == Lower(s.sha256)
  {
    r := node.RepairObject(p, c, hash);
    if r.Success? {
      RepairedFrom(old(node.objects), p, c, hash);
    }
  }

  lemma {:induction false} LinkedArrived(objects: ObjectRepair.Objects, shards: seq<Shard>, hash: Bytes -> string, i: int)
    requires i in ObjectRepair.Linked(objects, shards, hash)
    ensures exists s :: s in shards && s.index == i && ObjectRepair.Arrived(objects, s, hash)
  {
    var n := |shards| - 1;
    if !(shards[n].index == i && ObjectRepair.Arrived(objects, shards[n], hash)) {
      LinkedArrived(objects, shards[..n], hash, i);
    } else {
      assert shards[n] in shards;
    }
  }

  lemma RepairedFrom(objects: ObjectRepair.Objects, p: Payload, c: Codec, hash: Bytes -> string)
    requires ObjectRepair.Repaired(objects, p, c, hash).Success?
    ensures var out := ObjectRepair.Repaired(objects, p, c, hash).value;
            && Lower(TrimSpace(p.digest)) in objects && Lower(hash(out)) == Lower(p.digest) && |out| == p.originalBytes
    ensures exists here: set<int> :: p.dataShards <= |here| && forall i :: i in here ==>
              exists s :: s in p.shards && s.index == i && Lower(TrimSpace(s.sha256)) in objects
                          && Lower(hash(objects[Lower(TrimSpace(s.sha256))])) == Lower(s.sha256)
  {
    var dir := ObjectRepair.Gathered(objects, p, hash);
    var total := p.dataShards + p.parityShards;
    var here := set i | 0 <= i < total && ErasureFacts.Usable(dir, dir.manifest.value.shards, i, hash);
    ErasureFacts.ReconstructionEnds(dir, c, hash, here);
    forall i | i in here
      ensures exists s :: s in p.shards && s.index == i && Lower(TrimSpace(s.sha256)) in objects
                          && Lower(hash(objects[Lower(TrimSpace(s.sha256))])) == Lower(s.sha256)
    {
      LinkedArrived(objects, p.shards, hash, i);
      var s :| s in p.shards && s.index == i && ObjectRepair.Arrived(objects, s, hash);
      ArrivedIff(objects, s, hash);
    }
  }
}
