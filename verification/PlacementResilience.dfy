/** The bound linking shard placement to the health evaluator: exactly when a fully
    placed shard set survives the loss of any one failure domain. */
module PlacementResilience {
  import opened Prelude
  import opened Finite
  import opened Ordering
  import opened ShardPlacement
  import opened ShardHealth

  // --- Counting residues ------------------------------------------------------

  lemma DivModStep(n: nat, d: nat)
    requires 0 < d
    ensures if n % d + 1 < d then (n + 1) / d == n / d && (n + 1) % d == n % d + 1
            else (n + 1) / d == n / d + 1 && (n + 1) % d == 0
  {
    if n % d + 1 < d {
      DivUnique(n + 1, d, n / d, n % d + 1);
    } else {
      assert d * (n / d + 1) == d * (n / d) + d;
      DivUnique(n + 1, d, n / d + 1, 0);
    }
  }

  ghost function Residues(n: nat, d: nat, r: nat): set<int>
    requires 0 < d
  {
    set i | i in Interval(0, n) && i % d == r
  }

  lemma {:induction false} ResidueCount(n: nat, d: nat, r: nat)
    requires r < d
    ensures |Residues(n, d, r)| == n / d + (if r < n % d then 1 else 0)
  {
    if n == 0 {
      DivUnique(0, d, 0, 0);
      assert Residues(0, d, r) == {};
    } else {
      ResidueCount(n - 1, d, r);
      DivModStep(n - 1, d);
      ResidueStep(n, d, r);
    }
  }

  lemma ResidueStep(n: nat, d: nat, r: nat)
    requires 0 < n && r < d
    ensures Residues(n, d, r) == Residues(n - 1, d, r) + (if (n - 1) % d == r then {n - 1} else {})
    ensures n - 1 !in Residues(n - 1, d, r)
  {
  }

  /** The number of domains' worth of shards, rounded up. */
  function CeilDiv(n: nat, d: nat): int
    requires 0 < d
  {
    (n + d - 1) / d
  }

  lemma CeilIsLargestResidue(n: nat, d: nat)
    requires 0 < d
    ensures CeilDiv(n, d) == |Residues(n, d, 0)|
    ensures forall r: nat :: r < d ==> |Residues(n, d, r)| <= |Residues(n, d, 0)|
  {
    ResidueCount(n, d, 0);
    if n % d == 0 {
      DivUnique(n + d - 1, d, n / d, d - 1);
    } else {
      assert d * (n / d + 1) == d * (n / d) + d;
      DivUnique(n + d - 1, d, n / d + 1, n % d - 1);
    }
    forall r: nat | r < d ensures |Residues(n, d, r)| <= |Residues(n, d, 0)| {
      ResidueCount(n, d, r);
    }
  }

  lemma ResiduesDiffer(x: nat, y: nat, d: nat)
    requires 0 < d && x < y < x + d
    ensures x % d != y % d
  {
    var q, q' := x / d, y / d;
    assert x == d * q + x % d && y == d * q' + y % d;
    if q < q' {
      MulGap(d, q, q');
    } else if q' < q {
      MulGap(d, q', q);
    }
  }

  lemma TurnsDiffer(domains: seq<string>, index: nat, a: nat, b: nat)
    requires Distinct(domains) && a < b < |domains|
    ensures Turn(domains, index, a) != Turn(domains, index, b)
  {
    ResiduesDiffer(index + a, index + b, |domains|);
  }

  // --- Domains of one placement -----------------------------------------------

  /** As long as there are domains left, every copy lands in the domain whose turn it is. */
  lemma {:induction false} CopiesFollowTurns(
    agents: Pool, key: string, domains: seq<string>, digest: string, index: nat, out: seq<string>, score: Score, c: nat)
    requires Placement(agents, key, domains, digest, index, out, score)
    requires Arranges(domains, Domains(agents, key), TextLess)
    requires c < |out| && c < |domains|
    ensures forall j :: 0 <= j <= c ==> out[j] in agents && DomainOf(agents, key, out[j]) == Turn(domains, index, j)
  {
    TextOrder();
    AscendingDistinct(domains, TextLess);
    if c > 0 {
      CopiesFollowTurns(agents, key, domains, digest, index, out, score, c - 1);
    }
    var d := Turn(domains, index, c);
    assert d in Domains(agents, key);
    var id :| id in agents && DomainOf(agents, key, id) == d;
    forall j | 0 <= j < c ensures out[j] != id {
      TurnsDiffer(domains, index, j, c);
    }
    assert id in Unused(agents, key, d, out[..c]);
    assert Choice(agents, key, domains, digest, index, out[..c], out[c], score);
  }

  /** The first copies of a shard lie in pairwise distinct domains. */
  lemma FirstCopiesSpread(
    agents: Pool, key: string, domains: seq<string>, digest: string, index: nat, out: seq<string>, score: Score, a: nat, b: nat)
    requires Placement(agents, key, domains, digest, index, out, score)
    requires Arranges(domains, Domains(agents, key), TextLess)
    requires a < b < |out| && b < |domains|
    ensures out[a] in agents && out[b] in agents
    ensures DomainOf(agents, key, out[a]) != DomainOf(agents, key, out[b])
  {
    TextOrder();
    AscendingDistinct(domains, TextLess);
    CopiesFollowTurns(agents, key, domains, digest, index, out, score, b);
    TurnsDiffer(domains, index, a, b);
  }

  // --- A fully placed set ------------------------------------------------------

  /** Every shard of an object has been placed as `DesiredShardAgents` decides. */
  ghost predicate Planned(agents: Pool, key: string, domains: seq<string>, digest: string, copies: int,
                          plans: seq<seq<string>>, score: Score)
  {
    && Arranges(domains, Domains(agents, key), TextLess)
    && forall i :: 0 <= i < |plans| ==>
         && Placement(agents, key, domains, digest, i, plans[i], score)
         && |plans[i]| == Min(copies, |agents|)
         && forall id :: id in plans[i] ==> id in agents
  }

  /** The shard table lists exactly the planned copies. */
  ghost predicate FullyPlaced(rows: seq<ShardRow>, agents: Pool, plans: seq<seq<string>>) {
    forall i :: Copies(rows, agents, i) == if 0 <= i < |plans| then Elements(plans[i]) else {}
  }

  lemma DomainCount(agents: Pool, key: string, domains: seq<string>)
    requires Arranges(domains, Domains(agents, key), TextLess)
    ensures Distinct(domains) && |domains| <= |agents|
  {
    TextOrder();
    AscendingDistinct(domains, TextLess);
    assert Elements(domains) == Domains(agents, key);
    ImageSize(agents, key, agents.Keys);
    assert (set id | id in agents.Keys :: DomainOf(agents, key, id)) == Domains(agents, key);
  }

  lemma {:induction false} ImageSize(agents: Pool, key: string, ids: set<string>)
    requires ids <= agents.Keys
    ensures |set id | id in ids :: DomainOf(agents, key, id)| <= |ids|
  {
    if ids == {} {
      assert (set id | id in ids :: DomainOf(agents, key, id)) == {};
    } else {
      var x :| x in ids;
      ImageSize(agents, key, ids - {x});
      assert (set id | id in ids :: DomainOf(agents, key, id))
          == (set id | id in ids - {x} :: DomainOf(agents, key, id)) + {DomainOf(agents, key, x)};
    }
  }

  /** The spread of a fully placed set of `n` shards: shard `i` starts at the `i`-th domain,
      and holds a second domain whenever it has a second copy and there is one. */
  ghost predicate Shape(s: Spread, domains: seq<string>, n: nat, copies: int) {
    && domains != [] && Distinct(domains)
    && (forall i :: i in s <==> 0 <= i < n)
    && (forall i :: i in s ==> Turn(domains, i, 0) in s[i])
    && (forall i, d :: i in s && d in s[i] ==> d in domains)
    && (copies == 1 ==> forall i :: i in s ==> s[i] == {Turn(domains, i, 0)})
    && (2 <= copies && 2 <= |domains| ==> forall i :: i in s ==> Turn(domains, i, 1) in s[i])
  }

  lemma PlannedSpread(agents: Pool, key: string, domains: seq<string>, digest: string, copies: int,
                      plans: seq<seq<string>>, score: Score, rows: seq<ShardRow>)
    requires Planned(agents, key, domains, digest, copies, plans, score) && FullyPlaced(rows, agents, plans)
    requires 1 <= copies && agents.Keys != {}
    ensures Shape(SpreadOf(rows, agents, key), domains, |plans|, copies)
  {
    SomeDomain(agents, key, domains);
    DomainCount(agents, key, domains);
    var s := SpreadOf(rows, agents, key);
    PlannedIndices(agents, key, domains, digest, copies, plans, score, rows);
    forall i | i in s ensures SpreadShape(s[i], domains, i, copies) {
      ShardSpread(agents, key, domains, digest, copies, plans, score, rows, i);
    }
  }

  lemma PlannedIndices(agents: Pool, key: string, domains: seq<string>, digest: string, copies: int,
                       plans: seq<seq<string>>, score: Score, rows: seq<ShardRow>)
    requires Planned(agents, key, domains, digest, copies, plans, score) && FullyPlaced(rows, agents, plans)
    requires 1 <= copies && agents.Keys != {}
    ensures forall i :: i in SpreadOf(rows, agents, key) <==> 0 <= i < |plans|
  {
    forall i ensures i in SpreadOf(rows, agents, key) <==> 0 <= i < |plans| {
      assert Copies(rows, agents, i) == if 0 <= i < |plans| then Elements(plans[i]) else {};
      if 0 <= i < |plans| {
        assert plans[i][0] in Elements(plans[i]);
      }
    }
  }

  lemma ShardSpread(agents: Pool, key: string, domains: seq<string>, digest: string, copies: int,
                    plans: seq<seq<string>>, score: Score, rows: seq<ShardRow>, i: int)
    requires Planned(agents, key, domains, digest, copies, plans, score) && FullyPlaced(rows, agents, plans)
    requires 1 <= copies && domains != [] && |domains| <= |agents| && 0 <= i < |plans|
    requires i in SpreadOf(rows, agents, key)
    ensures SpreadShape(SpreadOf(rows, agents, key)[i], domains, i, copies)
  {
    assert Copies(rows, agents, i) == Elements(plans[i]);
    PlanSpread(agents, key, domains, digest, i, copies, plans[i], score);
  }

  ghost predicate SpreadShape(ds: set<string>, domains: seq<string>, i: nat, copies: int)
    requires domains != []
  {
    && Turn(domains, i, 0) in ds
    && (copies == 1 ==> ds == {Turn(domains, i, 0)})
    && (2 <= copies && 2 <= |domains| ==> Turn(domains, i, 1) in ds)
    && forall d :: d in ds ==> d in domains
  }

  lemma PlanSpread(agents: Pool, key: string, domains: seq<string>, digest: string, i: nat, copies: int,
                   plan: seq<string>, score: Score)
    requires Placement(agents, key, domains, digest, i, plan, score) && Arranges(domains, Domains(agents, key), TextLess)
    requires 1 <= copies && |domains| <= |agents| && |plan| == Min(copies, |agents|) && forall id :: id in plan ==> id in agents
    ensures SpreadShape(DomainsOf(Elements(plan), agents, key), domains, i, copies)
  {
    CopiesFollowTurns(agents, key, domains, digest, i, plan, score, 0);
    assert plan[0] in Elements(plan);
    if copies == 1 {
      assert plan == [plan[0]];
    } else if 2 <= |domains| {
      CopiesFollowTurns(agents, key, domains, digest, i, plan, score, 1);
      assert plan[1] in Elements(plan);
    }
  }

  lemma SpreadKeys(s: Spread, n: nat)
    requires forall i :: i in s <==> 0 <= i < n
    ensures s.Keys == Interval(0, n) && |s| == n
  {
    assert s.Keys == Interval(0, n);
    IntervalSize(0, n);
  }

  /** One copy per shard: losing the `r`-th domain loses the shards congruent to `r`. */
  lemma SingleCopyLoss(s: Spread, domains: seq<string>, n: nat, r: nat)
    requires Distinct(domains) && r < |domains|
    requires forall i :: i in s <==> 0 <= i < n
    requires forall i :: i in s ==> s[i] == {domains[i % |domains|]}
    ensures |Survivors(s, domains[r])| == n - |Residues(n, |domains|, r)|
  {
    SpreadKeys(s, n);
    var lost := Residues(n, |domains|, r);
    assert lost <= Interval(0, n);
    assert Survivors(s, domains[r]) == Interval(0, n) - lost by {
      forall i | i in s ensures i in Survivors(s, domains[r]) <==> i % |domains| != r {
        var d := domains[i % |domains|];
        assert d in s[i];
        assert i % |domains| != r ==> d != domains[r];
      }
    }
  }

  lemma SingleCopyResilience(s: Spread, domains: seq<string>, k: nat, m: nat)
    requires Distinct(domains) && domains != [] && 1 <= k
    requires forall i :: i in s <==> 0 <= i < k + m
    requires forall i :: i in s ==> s[i] == {domains[i % |domains|]}
    ensures Resilient(s, k) <==> CeilDiv(k + m, |domains|) <= m
  {
    var n, d := k + m, |domains|;
    CeilIsLargestResidue(n, d);
    SingleCopyLoss(s, domains, n, 0);
    DivUnique(0, d, 0, 0);
    assert domains[0] in s[0];
    assert domains[0] in AllDomains(s);
    forall lost | lost in AllDomains(s) ensures |Survivors(s, lost)| >= n - CeilDiv(n, d) {
      var i, e :| i in s && e in s[i] && e == lost;
      SingleCopyLoss(s, domains, n, i % d);
    }
  }

  lemma OneDomainFragile(s: Spread, d: string, k: nat)
    requires 1 <= k && 0 in s && d in s[0]
    requires forall i, e :: i in s && e in s[i] ==> e == d
    ensures !Resilient(s, k)
  {
    assert d in AllDomains(s);
    forall i | i in s ensures !(exists e :: e in s[i] && e != d) {
    }
    assert Survivors(s, d) == {};
  }

  /** Exactly when a fully placed set of `k + m` shards survives the loss of any domain:
      there are two domains, and either every shard has a second copy or no domain carries
      more shards than there is parity. */
  lemma DomainLossBound(agents: Pool, key: string, domains: seq<string>, digest: string, copies: int,
                        plans: seq<seq<string>>, score: Score, rows: seq<ShardRow>, k: nat, m: nat)
    requires Planned(agents, key, domains, digest, copies, plans, score) && FullyPlaced(rows, agents, plans)
    requires 1 <= copies && agents.Keys != {} && 1 <= k && |plans| == k + m
    ensures domains != []
    ensures Resilient(SpreadOf(rows, agents, key), k)
            <==> 2 <= |domains| && (2 <= copies || CeilDiv(k + m, |domains|) <= m)
  {
    PlannedSpread(agents, key, domains, digest, copies, plans, score, rows);
    ShapeResilience(SpreadOf(rows, agents, key), domains, copies, k, m);
  }

  lemma ShapeResilience(s: Spread, domains: seq<string>, copies: int, k: nat, m: nat)
    requires Shape(s, domains, k + m, copies) && 1 <= copies && 1 <= k
    ensures Resilient(s, k) <==> 2 <= |domains| && (2 <= copies || CeilDiv(k + m, |domains|) <= m)
  {
    if |domains| == 1 {
      assert Turn(domains, 0, 0) in s[0];
      forall i, e | i in s && e in s[i] ensures e == domains[0] {
        assert e in domains;
      }
      OneDomainFragile(s, domains[0], k);
      DivUnique(k + m, 1, k + m, 0);
    } else if copies == 1 {
      SingleCopyResilience(s, domains, k, m);
    } else {
      TwoCopiesResilient(s, domains, k, k + m);
    }
  }

  lemma TwoCopiesResilient(s: Spread, domains: seq<string>, k: nat, n: nat)
    requires Distinct(domains) && 2 <= |domains| && k <= n
    requires forall i :: i in s <==> 0 <= i < n
    requires forall i :: i in s ==> Turn(domains, i, 0) in s[i] && Turn(domains, i, 1) in s[i]
    ensures Resilient(s, k)
  {
    SpreadKeys(s, n);
    forall lost ensures Survivors(s, lost) == s.Keys {
      forall i | i in s ensures i in Survivors(s, lost) {
        TurnsDiffer(domains, i, 0, 1);
        assert Turn(domains, i, 0) != lost || Turn(domains, i, 1) != lost;
      }
    }
  }

  /** The verdict on a fully placed set with one copy per shard. */
  lemma SingleCopyVerdict(agents: Pool, key: string, domains: seq<string>, digest: string,
                          plans: seq<seq<string>>, score: Score, rows: seq<ShardRow>, k: nat, m: nat, minDomains: int)
    requires Planned(agents, key, domains, digest, 1, plans, score) && FullyPlaced(rows, agents, plans)
    requires agents.Keys != {} && 1 <= k && |plans| == k + m
    ensures domains != []
    ensures Judgement(SpreadOf(rows, agents, key), k, minDomains)
         == if minDomains <= Min(k + m, |domains|) && CeilDiv(k + m, |domains|) <= m then Healthy else Degraded
  {
    PlannedSpread(agents, key, domains, digest, 1, plans, score, rows);
    ShapeVerdict(SpreadOf(rows, agents, key), domains, k, m, minDomains);
  }

  lemma ShapeVerdict(s: Spread, domains: seq<string>, k: nat, m: nat, minDomains: int)
    requires Shape(s, domains, k + m, 1) && 1 <= k
    ensures Judgement(s, k, minDomains)
         == if minDomains <= Min(k + m, |domains|) && CeilDiv(k + m, |domains|) <= m then Healthy else Degraded
  {
    SpreadKeys(s, k + m);
    SingleCopyResilience(s, domains, k, m);
    UsedDomains(s, domains, k + m);
  }

  lemma UsedDomains(s: Spread, domains: seq<string>, n: nat)
    requires Distinct(domains) && domains != []
    requires forall i :: i in s <==> 0 <= i < n
    requires forall i :: i in s ==> s[i] == {domains[i % |domains|]}
    ensures |AllDomains(s)| == Min(n, |domains|)
  {
    var d, u := |domains|, Min(n, |domains|);
    assert AllDomains(s) == Elements(domains[..u]) by {
      forall e | e in domains[..u] ensures e in AllDomains(s) {
        var i :| 0 <= i < u && domains[i] == e;
        DivUnique(i, d, 0, i);
        assert i in s && e in s[i];
      }
      forall e | e in AllDomains(s) ensures e in domains[..u] {
        var i :| i in s && e in s[i];
        if i < d {
          DivUnique(i, d, 0, i);
        }
        assert domains[..u][i % d] == e;
      }
    }
    DistinctSize(domains[..u]);
  }

  /** Copies beyond the plan, such as the ones left where the object was encoded,
      never take resilience away. */
  lemma SurplusKeepsResilience(s: Spread, more: Spread, k: nat)
    requires Resilient(s, k) && k <= |s|
    requires forall i :: i in s ==> s[i] != {} && i in more && s[i] <= more[i]
    ensures Resilient(more, k)
  {
    forall lost | lost in AllDomains(more) ensures |Survivors(more, lost)| >= k {
      if lost in AllDomains(s) {
        forall i | i in Survivors(s, lost) ensures i in Survivors(more, lost) {
          var d :| d in s[i] && d != lost;
          assert d in more[i];
        }
        SubsetSize(Survivors(s, lost), Survivors(more, lost));
      } else {
        forall i | i in s ensures i in Survivors(more, lost) {
          var d :| d in s[i];
          assert d in AllDomains(s);
        }
        SubsetSize(s.Keys, Survivors(more, lost));
      }
    }
  }
}
