/** Placement and health of shards in terms of the labels that operators set: copies go to different zones, and the
    verdict is about the loss of a zone (internal/controlplane/erasure_distributed.go). */
module ZoneFacts {
  import opened Prelude
  import opened Finite
  import opened Ordering
  import opened Agents
  import opened AgentFacts
  import opened ShardPlacement
  import opened ShardHealth
  import opened PlacementResilience

  /** Every agent but this host has text for the label. */
  ghost predicate Zoned(agents: Pool, key: string) {
    && TrimSpace(key) != ""
    && forall id :: id in agents ==>
         agents[id].id == id != LOCAL && exists z :: z != "" && Labelled(agents[id], TrimSpace(key), z)
  }

  ghost function Zone(agents: Pool, key: string, id: string): string
    requires Zoned(agents, key) && id in agents
  {
    TrimSpace(agents[id].labels.value[TrimSpace(key)].text)
  }

  lemma ZoneIsDomain(agents: Pool, key: string, id: string)
    requires Zoned(agents, key) && id in agents
    ensures Zone(agents, key, id) != "" && DomainOf(agents, key, id) == Zone(agents, key, id)
  {
    var z :| z != "" && Labelled(agents[id], TrimSpace(key), z);
    LabelsDecideDomains(agents[id], agents[id], key, z, z);
  }

  ghost function Zones(agents: Pool, key: string): set<string>
    requires Zoned(agents, key)
  {
    set id | id in agents :: Zone(agents, key, id)
  }

  lemma ZonesAreDomains(agents: Pool, key: string)
    requires Zoned(agents, key)
    ensures Domains(agents, key) == Zones(agents, key)
  {
    forall id | id in agents ensures DomainOf(agents, key, id) == Zone(agents, key, id) {
      ZoneIsDomain(agents, key, id);
    }
  }

  /** Copy `c` goes to the zone whose turn it is: there to the unused agent with the highest score, the smaller identity
      among equals; where that zone has no unused agent, to one with the highest score of all that are unused. */
  ghost predicate InTurn(agents: Pool, key: string, zones: seq<string>, digest: string, index: nat, out: seq<string>, c: nat, score: Score)
    requires Zoned(agents, key) && zones != [] && c < |out| && out[c] in agents
  {
    var zone := zones[(index + c) % |zones|];
    && (forall id :: id in agents && id !in out[..c] && Zone(agents, key, id) == zone ==>
          && Zone(agents, key, out[c]) == zone
          && (|| score(digest, index, c, id) < score(digest, index, c, out[c])
              || (score(digest, index, c, id) == score(digest, index, c, out[c]) && (id == out[c] || TextLess(out[c], id)))))
    && ((forall id :: id in agents && id !in out[..c] ==> Zone(agents, key, id) != zone) ==>
          forall id :: id in agents && id !in out[..c] ==> score(digest, index, c, id) <= score(digest, index, c, out[c]))
  }

  lemma UnusedByZone(agents: Pool, key: string, zone: string, taken: seq<string>, id: string)
    requires Zoned(agents, key)
    ensures id in Unused(agents, key, zone, taken) <==> id in agents && id !in taken && Zone(agents, key, id) == zone
  {
    if id in agents {
      ZoneIsDomain(agents, key, id);
    }
  }

  lemma ChoiceIsInTurn(agents: Pool, key: string, zones: seq<string>, digest: string, index: nat, out: seq<string>, c: nat, score: Score)
    requires Zoned(agents, key) && zones != [] && c < |out| && out[c] in agents
    requires Choice(agents, key, zones, digest, index, out[..c], out[c], score)
    ensures InTurn(agents, key, zones, digest, index, out, c, score)
  {
    var zone := zones[(index + c) % |zones|];
    forall id ensures id in Unused(agents, key, zone, out[..c]) <==> id in agents && id !in out[..c] && Zone(agents, key, id) == zone {
      UnusedByZone(agents, key, zone, out[..c], id);
    }
  }

  /** Copies go round the zones in order, to the agents with the highest scores; as many of them as there are zones lie
      in pairwise different ones. */
  method PlaceInZones(digest: string, index: nat, copies: int, agents: Pool, key: string, score: Score)
    returns (out: seq<string>, ghost zones: seq<string>)
    requires Zoned(agents, key) && "" !in agents
    ensures |out| == if copies < 1 then 0 else Min(copies, |agents|)
    ensures forall c :: 0 <= c < |out| ==> out[c] in agents
    ensures forall a, b :: 0 <= a < b < |out| ==> out[a] != out[b]
    ensures forall a, b :: 0 <= a < b < |out| && b < |Zones(agents, key)| ==> Zone(agents, key, out[a]) != Zone(agents, key, out[b])
    ensures out != [] ==> zones != [] && Arranges(zones, Zones(agents, key), TextLess)
    ensures forall c :: 0 <= c < |out| ==> InTurn(agents, key, zones, digest, index, out, c, score)
  {
    out, zones := DesiredShardAgents(digest, index, copies, agents, key, score);
    ZonesAreDomains(agents, key);
    TextOrder();
    forall c | 0 <= c < |out| ensures out[c] in agents && InTurn(agents, key, zones, digest, index, out, c, score) {
      assert out[c] in out;
      ChoiceIsInTurn(agents, key, zones, digest, index, out, c, score);
    }
    forall a, b | 0 <= a < b < |out| && b < |Zones(agents, key)| ensures Zone(agents, key, out[a]) != Zone(agents, key, out[b]) {
      DifferentZones(agents, key, zones, digest, index, out, score, a, b);
    }
  }

  lemma DifferentZones(agents: Pool, key: string, zones: seq<string>, digest: string, index: nat, out: seq<string>, score: Score, a: nat, b: nat)
    requires Zoned(agents, key) && Arranges(zones, Domains(agents, key), TextLess)
    requires Placement(agents, key, zones, digest, index, out, score) && forall c :: 0 <= c < |out| ==> out[c] in agents
    requires a < b < |out| && b < |Zones(agents, key)|
    ensures Zone(agents, key, out[a]) != Zone(agents, key, out[b])
  {
    ZonesAreDomains(agents, key);
    TextOrder();
    AscendingDistinct(zones, TextLess);
    DistinctSize(zones);
    assert Elements(zones) == Domains(agents, key);
    FirstCopiesSpread(agents, key, zones, digest, index, out, score, a, b);
    ZoneIsDomain(agents, key, out[a]);
    ZoneIsDomain(agents, key, out[b]);
  }

  // --- The verdict ---------------------------------------------------------------------------------

  /** Indices with a ready copy on a counted agent. */
  ghost function Held(rows: seq<ShardRow>, online: Pool): set<int> {
    set r | r in rows && r.ready && r.agent in online :: r.index
  }

  ghost function HeldZones(rows: seq<ShardRow>, online: Pool, key: string): set<string>
    requires Zoned(online, key)
  {
    set r | r in rows && r.ready && r.agent in online :: Zone(online, key, r.agent)
  }

  /** Indices that keep a ready copy on a counted agent when a zone is gone. */
  ghost function HeldWithout(rows: seq<ShardRow>, online: Pool, key: string, zone: string): set<int>
    requires Zoned(online, key)
  {
    set r | r in rows && r.ready && r.agent in online && Zone(online, key, r.agent) != zone :: r.index
  }

  /** A row behind every entry of the spread, and an entry for every row. */
  ghost predicate Behind(rows: seq<ShardRow>, online: Pool, key: string, i: int, d: string)
    requires Zoned(online, key)
  {
    exists r :: r in rows && r.ready && r.agent in online && r.index == i && Zone(online, key, r.agent) == d
  }

  lemma EntryIff(rows: seq<ShardRow>, online: Pool, key: string, i: int, d: string)
    requires Zoned(online, key)
    ensures var s := SpreadOf(rows, online, key); i in s && d in s[i] <==> Behind(rows, online, key, i, d)
  {
    var s := SpreadOf(rows, online, key);
    if i in s && d in s[i] {
      CopyBehind(rows, online, key, i, d);
    }
    if Behind(rows, online, key, i, d) {
      var r :| r in rows && r.ready && r.agent in online && r.index == i && Zone(online, key, r.agent) == d;
      ZoneIsDomain(online, key, r.agent);
      assert r.agent in Copies(rows, online, r.index);
    }
  }

  lemma KeysByRow(rows: seq<ShardRow>, online: Pool, key: string)
    requires Zoned(online, key)
    ensures SpreadOf(rows, online, key).Keys == Held(rows, online)
  {
    var s := SpreadOf(rows, online, key);
    forall i ensures i in s <==> i in Held(rows, online) {
      if i in s {
        assert Copies(rows, online, i) != {};
      }
      if r :| r in rows && r.ready && r.agent in online && r.index == i {
        assert r.agent in Copies(rows, online, i);
      }
    }
  }

  lemma ZonesByRow(rows: seq<ShardRow>, online: Pool, key: string)
    requires Zoned(online, key)
    ensures AllDomains(SpreadOf(rows, online, key)) == HeldZones(rows, online, key)
  {
    forall i, d ensures i in SpreadOf(rows, online, key) && d in SpreadOf(rows, online, key)[i] <==> Behind(rows, online, key, i, d) {
      EntryIff(rows, online, key, i, d);
    }
    forall r | r in rows && r.ready && r.agent in online ensures Behind(rows, online, key, r.index, Zone(online, key, r.agent)) {
    }
  }

  lemma SurvivorsByRow(rows: seq<ShardRow>, online: Pool, key: string, lost: string)
    requires Zoned(online, key)
    ensures Survivors(SpreadOf(rows, online, key), lost) == HeldWithout(rows, online, key, lost)
  {
    forall i, d ensures i in SpreadOf(rows, online, key) && d in SpreadOf(rows, online, key)[i] <==> Behind(rows, online, key, i, d) {
      EntryIff(rows, online, key, i, d);
    }
    forall r | r in rows && r.ready && r.agent in online ensures Behind(rows, online, key, r.index, Zone(online, key, r.agent)) {
    }
  }

  lemma SpreadByZone(rows: seq<ShardRow>, online: Pool, key: string)
    requires Zoned(online, key)
    ensures var s := SpreadOf(rows, online, key);
            && s.Keys == Held(rows, online) && AllDomains(s) == HeldZones(rows, online, key)
            && forall lost :: Survivors(s, lost) == HeldWithout(rows, online, key, lost)
  {
    KeysByRow(rows, online, key);
    ZonesByRow(rows, online, key);
    forall lost ensures Survivors(SpreadOf(rows, online, key), lost) == HeldWithout(rows, online, key, lost) {
      SurvivorsByRow(rows, online, key, lost);
    }
  }

  lemma CopyBehind(rows: seq<ShardRow>, online: Pool, key: string, i: int, d: string)
    requires Zoned(online, key) && i in SpreadOf(rows, online, key) && d in SpreadOf(rows, online, key)[i]
    ensures exists r :: r in rows && r.ready && r.agent in online && r.index == i && Zone(online, key, r.agent) == d
  {
    var a :| a in Copies(rows, online, i) && DomainOf(online, key, a) == d;
    ZoneIsDomain(online, key, a);
    var r :| r in rows && Counts(r, online) && r.index == i && r.agent == a;
    assert Zone(online, key, r.agent) == d;
  }

  /** The verdict on a set of shards, with agents and zones for its only terms. */
  method JudgeZones(rows: seq<ShardRow>, online: Pool, key: string, k: int, minDomains: int) returns (v: Verdict)
    requires Zoned(online, key)
    ensures v == Unrecoverable <==> |Held(rows, online)| < k
    ensures v == Healthy <==>
              && k <= |Held(rows, online)| && minDomains <= |HeldZones(rows, online, key)|
              && forall zone :: zone in HeldZones(rows, online, key) ==> k <= |HeldWithout(rows, online, key, zone)|
  {
    SpreadByZone(rows, online, key);
    v := EvaluateSet(rows, online, key, k, minDomains);
    assert |SpreadOf(rows, online, key)| == |SpreadOf(rows, online, key).Keys|;
  }
}
