/** Placement of erasure shards over failure domains
    (internal/controlplane/erasure_distributed.go, desiredShardAgents). */
module ShardPlacement {
  import opened Prelude
  import opened Finite
  import opened Ordering
  import opened Agents

  type Pool = map<string, Agent>

  /** Rendezvous score of an agent for one copy of one shard. */
  type Score = (string, int, int, string) -> nat

  function DomainOf(agents: Pool, key: string, id: string): string
    requires id in agents
  {
    ShardDomain(id, agents[id], key)
  }

  function Domains(agents: Pool, key: string): set<string> {
    set id | id in agents :: DomainOf(agents, key, id)
  }

  /** Agents of domain `d` that hold none of the copies in `taken`. */
  function Unused(agents: Pool, key: string, d: string, taken: seq<string>): set<string> {
    set id | id in agents && DomainOf(agents, key, id) == d && id !in taken
  }

  ghost predicate BestOf(best: string, candidates: set<string>, digest: string, index: int, c: int, score: Score) {
    best in candidates && forall id :: id in candidates ==> score(digest, index, c, id) <= score(digest, index, c, best)
  }

  ghost predicate LeastTie(best: string, candidates: set<string>, digest: string, index: int, c: int, score: Score) {
    forall id :: id in candidates && id != best && score(digest, index, c, id) == score(digest, index, c, best) ==>
                   TextLess(best, id)
  }

  /** The domain whose turn it is for copy `c` of shard `index`. */
  function Turn(domains: seq<string>, index: nat, c: nat): (d: string)
    requires domains != []
    ensures d in domains
  {
    domains[(index + c) % |domains|]
  }

  /** What placing one more copy must choose: the highest score within the domain whose
      turn it is, the smallest identity among equals, or, when that domain is exhausted,
      the highest score anywhere. */
  ghost predicate Choice(agents: Pool, key: string, domains: seq<string>, digest: string, index: nat,
                         taken: seq<string>, best: string, score: Score)
    requires domains != []
  {
    var c := |taken|;
    var local := Unused(agents, key, Turn(domains, index, c), taken);
    if local != {} then
      BestOf(best, local, digest, index, c, score) && LeastTie(best, local, digest, index, c, score)
    else
      BestOf(best, agents.Keys - Elements(taken), digest, index, c, score)
  }

  /** `out` is a placement of one shard: every copy was chosen in its turn. */
  ghost predicate Placement(agents: Pool, key: string, domains: seq<string>, digest: string, index: nat,
                            out: seq<string>, score: Score)
  {
    && domains != []
    && forall c :: 0 <= c < |out| ==> Choice(agents, key, domains, digest, index, out[..c], out[c], score)
  }

  // --- The algorithm ------------------------------------------------------------

  function DomainFunction(agents: Pool, key: string): string -> string {
    id => if id in agents then DomainOf(agents, key, id) else ""
  }

  method GroupByDomain(agents: Pool, key: string) returns (groups: map<string, seq<string>>)
    ensures groups.Keys == Domains(agents, key)
    ensures forall d :: d in groups ==> Distinct(groups[d]) && Elements(groups[d]) == Unused(agents, key, d, [])
  {
    groups := GroupBy(agents.Keys, DomainFunction(agents, key));
    GroupKeys(agents, key, groups);
    forall d | d in groups ensures Elements(groups[d]) == Unused(agents, key, d, []) {
      GroupMembers(agents, key, groups, d);
    }
  }

  lemma GroupKeys(agents: Pool, key: string, groups: map<string, seq<string>>)
    requires Grouped(groups, agents.Keys, DomainFunction(agents, key))
    ensures groups.Keys == Domains(agents, key)
  {
    forall d | d in groups ensures d in Domains(agents, key) {
      var id := groups[d][0];
      assert id in groups[d];
      assert id in agents && DomainOf(agents, key, id) == d;
    }
    forall d | d in Domains(agents, key) ensures d in groups {
      var id :| id in agents && DomainOf(agents, key, id) == d;
      assert DomainFunction(agents, key)(id) in groups;
    }
  }

  lemma GroupMembers(agents: Pool, key: string, groups: map<string, seq<string>>, d: string)
    requires Grouped(groups, agents.Keys, DomainFunction(agents, key)) && d in groups
    ensures Elements(groups[d]) == Unused(agents, key, d, [])
  {
    forall id | id in Unused(agents, key, d, []) ensures id in groups[d] {
      assert DomainFunction(agents, key)(id) == d;
    }
  }

  /** Each group in identity order, and the domains in name order. */
  ghost predicate Indexed(agents: Pool, key: string, byDomain: map<string, seq<string>>, domains: seq<string>) {
    && Arranges(domains, Domains(agents, key), TextLess)
    && byDomain.Keys == Domains(agents, key)
    && forall d :: d in byDomain ==> Arranges(byDomain[d], Unused(agents, key, d, []), TextLess)
  }

  method IndexDomains(agents: Pool, key: string) returns (byDomain: map<string, seq<string>>, domains: seq<string>)
    ensures Indexed(agents, key, byDomain, domains)
  {
    TextOrder();
    var groups := GroupByDomain(agents, key);
    byDomain, domains := map[], [];
    var todo := groups.Keys;
    while todo != {}
      invariant todo <= groups.Keys && byDomain.Keys == groups.Keys - todo
      invariant Distinct(domains) && forall d :: d in domains <==> d in byDomain
      invariant forall d :: d in byDomain ==> Arranges(byDomain[d], Elements(groups[d]), TextLess)
    {
      var d :| d in todo;
      var group := Sort(groups[d], TextLess);
      byDomain, domains, todo := byDomain[d := group], domains + [d], todo - {d};
    }
    domains := Sort(domains, TextLess);
  }

  // --- Choosing one copy ------------------------------------------------------

  /** The best unused agent of a group in identity order, "" when there is none. */
  method BestInDomain(group: seq<string>, used: set<string>, digest: string, index: int, c: int, score: Score)
    returns (best: string)
    requires "" !in group && Ascending(group, TextLess)
    ensures best == "" <==> Fresh(group, used) == {}
    ensures best != "" ==> BestOf(best, Fresh(group, used), digest, index, c, score)
    ensures best != "" ==> LeastTie(best, Fresh(group, used), digest, index, c, score)
  {
    best := "";
    var bestScore := 0;
    for i := 0 to |group|
      invariant best == "" <==> Fresh(group[..i], used) == {}
      invariant best != "" ==> bestScore == score(digest, index, c, best)
      invariant best != "" ==> BestOf(best, Fresh(group[..i], used), digest, index, c, score)
      invariant best != "" ==> LeastTie(best, Fresh(group[..i], used), digest, index, c, score)
    {
      assert Fresh(group[..i + 1], used) == Fresh(group[..i], used) + (if group[i] in used then {} else {group[i]}) by {
        assert group[..i + 1] == group[..i] + [group[i]];
      }
      if group[i] !in used {
        var s := score(digest, index, c, group[i]);
        if best == "" || s > bestScore {
          best, bestScore := group[i], s;
        }
      }
    }
    assert group[..|group|] == group;
  }

  ghost function Fresh(group: seq<string>, used: set<string>): set<string> {
    set id | id in group && id !in used
  }

  /** The best unused agent of the whole pool; ties fall to map iteration order. */
  method BestAnywhere(agents: Pool, used: set<string>, digest: string, index: int, c: int, score: Score)
    returns (best: string)
    requires "" !in agents
    ensures best == "" <==> agents.Keys <= used
    ensures best != "" ==> BestOf(best, agents.Keys - used, digest, index, c, score)
  {
    best := "";
    var bestScore := 0;
    var todo := agents.Keys - used;
    while todo != {}
      invariant todo <= agents.Keys - used
      invariant best == "" <==> todo == agents.Keys - used
      invariant best != "" ==> best in agents.Keys - used && bestScore == score(digest, index, c, best)
      invariant best != "" ==> forall id :: id in agents.Keys - used - todo ==> score(digest, index, c, id) <= bestScore
    {
      var id :| id in todo;
      var s := score(digest, index, c, id);
      if best == "" || s > bestScore {
        best, bestScore := id, s;
      }
      todo := todo - {id};
    }
    assert agents.Keys <= used + (agents.Keys - used);
  }

  method ChooseCopy(agents: Pool, key: string, byDomain: map<string, seq<string>>, domains: seq<string>,
                    digest: string, index: nat, taken: seq<string>, score: Score)
    returns (best: string)
    requires "" !in agents && domains != [] && Indexed(agents, key, byDomain, domains)
    ensures best == "" <==> agents.Keys <= Elements(taken)
    ensures best != "" ==> Choice(agents, key, domains, digest, index, taken, best, score)
  {
    var c := |taken|;
    var used := set id | id in taken;
    var d := Turn(domains, index, c);
    GroupUnused(agents, key, byDomain, domains, d, taken);
    best := BestInDomain(byDomain[d], used, digest, index, c, score);
    if best == "" {
      best := BestAnywhere(agents, used, digest, index, c, score);
    }
  }

  lemma GroupUnused(agents: Pool, key: string, byDomain: map<string, seq<string>>, domains: seq<string>, d: string, taken: seq<string>)
    requires "" !in agents && Indexed(agents, key, byDomain, domains) && d in domains
    ensures d in byDomain && "" !in byDomain[d] && Ascending(byDomain[d], TextLess)
    ensures Fresh(byDomain[d], Elements(taken)) == Unused(agents, key, d, taken) <= agents.Keys - Elements(taken)
  {
  }

  /** Round-robin over the domains, rendezvous choice within each. */
  method DesiredShardAgents(digest: string, index: nat, copies: int, agents: Pool, key: string, score: Score)
    returns (out: seq<string>, ghost domains: seq<string>)
    requires "" !in agents
    ensures |out| == if copies < 1 then 0 else Min(copies, |agents|)
    ensures Distinct(out) && forall id :: id in out ==> id in agents
    ensures out != [] ==> Arranges(domains, Domains(agents, key), TextLess)
    ensures out != [] ==> Placement(agents, key, domains, digest, index, out, score)
  {
    out, domains := [], [];
    if copies < 1 || |agents| == 0 {
      return;
    }
    var byDomain, names := IndexDomains(agents, key);
    domains := names;
    SomeDomain(agents, key, names);
    var want := Min(copies, |agents|);
    while |out| < want
      invariant |out| <= want
      invariant Distinct(out) && forall id :: id in out ==> id in agents
      invariant Placement(agents, key, domains, digest, index, out, score)
      decreases want - |out|
    {
      var best := ChooseCopy(agents, key, byDomain, names, digest, index, out, score);
      RoomLeft(agents, out);
      PlacementStep(agents, key, domains, digest, index, out, best, score);
      out := out + [best];
    }
  }

  lemma SomeDomain(agents: Pool, key: string, domains: seq<string>)
    requires agents.Keys != {} && Arranges(domains, Domains(agents, key), TextLess)
    ensures domains != []
  {
    var id :| id in agents;
    assert DomainOf(agents, key, id) in Domains(agents, key);
    assert DomainOf(agents, key, id) in domains;
  }

  lemma RoomLeft(agents: Pool, out: seq<string>)
    requires Distinct(out) && |out| < |agents|
    ensures !(agents.Keys <= Elements(out))
  {
    DistinctSize(out);
    if agents.Keys <= Elements(out) {
      SubsetSize(agents.Keys, Elements(out));
    }
  }

  lemma PlacementStep(agents: Pool, key: string, domains: seq<string>, digest: string, index: nat,
                      out: seq<string>, best: string, score: Score)
    requires Placement(agents, key, domains, digest, index, out, score)
    requires Choice(agents, key, domains, digest, index, out, best, score)
    ensures Placement(agents, key, domains, digest, index, out + [best], score)
    ensures best in agents && best !in out
  {
    forall c | 0 <= c <= |out|
      ensures Choice(agents, key, domains, digest, index, (out + [best])[..c], (out + [best])[c], score)
    {
      assert (out + [best])[..c] == out[..c];
      assert out[..|out|] == out;
    }
  }
}
