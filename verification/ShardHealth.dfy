/** Judging whether a set of shards survives the loss of a failure domain
    (internal/controlplane/erasure_distributed.go, EvaluateDistributedErasureHealth). */
module ShardHealth {
  import opened Finite
  import opened ShardPlacement

  /** A row of the shard table: a copy of shard `index` on `agent`. */
  datatype ShardRow = ShardRow(index: int, agent: string, ready: bool)

  /** For every shard index with a countable copy, the domains its copies lie in. */
  type Spread = map<int, set<string>>

  datatype Verdict = Healthy | Degraded | Unrecoverable

  predicate Counts(r: ShardRow, online: Pool) {
    r.ready && r.agent in online
  }

  ghost function Copies(rows: seq<ShardRow>, online: Pool, i: int): set<string> {
    set r | r in rows && Counts(r, online) && r.index == i :: r.agent
  }

  ghost function DomainsOf(copies: set<string>, online: Pool, key: string): set<string>
    requires copies <= online.Keys
  {
    set a | a in copies :: DomainOf(online, key, a)
  }

  ghost function SpreadOf(rows: seq<ShardRow>, online: Pool, key: string): (s: Spread)
    ensures forall i :: i in s <==> Copies(rows, online, i) != {}
    ensures forall i :: i in s ==> s[i] == DomainsOf(Copies(rows, online, i), online, key)
  {
    var indices := set r | r in rows && Counts(r, online) :: r.index;
    assert forall i :: i in indices ==> exists r :: r in rows && Counts(r, online) && r.index == i && r.agent in Copies(rows, online, i);
    map i | i in indices :: DomainsOf(Copies(rows, online, i), online, key)
  }

  ghost function AllDomains(s: Spread): set<string> {
    set i, d | i in s && d in s[i] :: d
  }

  /** Shard indices that keep a copy when domain `lost` is gone. */
  ghost function Survivors(s: Spread, lost: string): set<int> {
    set i | i in s && exists d :: d in s[i] && d != lost
  }

  /** Any one domain may fail and `k` shard indices remain. */
  ghost predicate Resilient(s: Spread, k: int) {
    forall lost :: lost in AllDomains(s) ==> |Survivors(s, lost)| >= k
  }

  ghost function Judgement(s: Spread, k: int, minDomains: int): Verdict {
    if |s| < k then Unrecoverable
    else if |AllDomains(s)| < minDomains || !Resilient(s, k) then Degraded
    else Healthy
  }

  // --- The evaluator ------------------------------------------------------------

  lemma CopiesStep(rows: seq<ShardRow>, r: ShardRow, online: Pool, i: int)
    ensures Copies(rows + [r], online, i)
         == Copies(rows, online, i) + (if Counts(r, online) && r.index == i then {r.agent} else {})
  {
    assert forall x :: x in rows + [r] <==> x in rows || x == r;
    assert r in rows + [r];
  }

  function AddCopy(s: Spread, i: int, d: string): Spread {
    s[i := (if i in s then s[i] else {}) + {d}]
  }

  lemma SpreadStep(rows: seq<ShardRow>, r: ShardRow, online: Pool, key: string)
    ensures SpreadOf(rows + [r], online, key)
         == if Counts(r, online) then AddCopy(SpreadOf(rows, online, key), r.index, DomainOf(online, key, r.agent))
            else SpreadOf(rows, online, key)
  {
    var s := SpreadOf(rows, online, key);
    var s' := SpreadOf(rows + [r], online, key);
    var want := if Counts(r, online) then AddCopy(s, r.index, DomainOf(online, key, r.agent)) else s;
    forall i ensures i in s' <==> i in want
             ensures i in s' && i in want ==> s'[i] == want[i] {
      CopiesStep(rows, r, online, i);
      var before := Copies(rows, online, i);
      if Counts(r, online) && r.index == i {
        assert s'[i] == DomainsOf(before, online, key) + {DomainOf(online, key, r.agent)};
      }
    }
  }

  method BuildSpread(rows: seq<ShardRow>, online: Pool, key: string) returns (spread: Spread)
    ensures spread == SpreadOf(rows, online, key)
  {
    spread := map[];
    assert SpreadOf([], online, key).Keys == {};
    for j := 0 to |rows|
      invariant spread == SpreadOf(rows[..j], online, key)
    {
      var r := rows[j];
      assert rows[..j + 1] == rows[..j] + [r];
      SpreadStep(rows[..j], r, online, key);
      if r.ready && r.agent in online {
        var d := DomainOf(online, key, r.agent);
        spread := AddCopy(spread, r.index, d);
      }
    }
    assert rows[..|rows|] == rows;
  }

  method CountSurvivors(s: Spread, lost: string) returns (remaining: nat)
    ensures remaining == |Survivors(s, lost)|
  {
    remaining := 0;
    ghost var seen: set<int> := {};
    var todo := s.Keys;
    while todo != {}
      invariant todo <= s.Keys
      invariant seen == (set i | i in s.Keys - todo && exists d :: d in s[i] && d != lost)
      invariant remaining == |seen|
    {
      ghost var some := Inhabited(todo);
      var i :| i in todo;
      if s[i] - {lost} != {} {
        remaining := remaining + 1;
        seen := seen + {i};
      }
      todo := todo - {i};
    }
    assert seen == Survivors(s, lost);
  }

  method CollectDomains(s: Spread) returns (domains: set<string>)
    ensures domains == AllDomains(s)
  {
    domains := {};
    var todo := s.Keys;
    while todo != {}
      invariant todo <= s.Keys
      invariant domains == set i, d | i in s.Keys - todo && d in s[i] :: d
    {
      ghost var some := Inhabited(todo);
      var i :| i in todo;
      domains, todo := domains + s[i], todo - {i};
    }
  }

  method EvaluateSet(rows: seq<ShardRow>, online: Pool, key: string, k: int, minDomains: int) returns (v: Verdict)
    ensures v == Judgement(SpreadOf(rows, online, key), k, minDomains)
  {
    var spread := BuildSpread(rows, online, key);
    if |spread| < k {
      return Unrecoverable;
    }
    var domains := CollectDomains(spread);
    var resilient := true;
    var todo := domains;
    while todo != {}
      invariant todo <= domains
      invariant resilient
      invariant forall lost :: lost in domains - todo ==> |Survivors(spread, lost)| >= k
    {
      var lost :| lost in todo;
      var remaining := CountSurvivors(spread, lost);
      if remaining < k {
        resilient := false;
        assert !Resilient(spread, k);
        break;
      }
      todo := todo - {lost};
    }
    v := if |domains| < minDomains || !resilient then Degraded else Healthy;
  }
}
