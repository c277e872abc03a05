/** What an agent's health, room, labels and name let it do, case by case
    (internal/controlplane/replication.go, erasure_distributed.go, cas_reconcile.go). */
module AgentFacts {
  import opened Prelude
  import opened Agents
  import CasReconcile
  import Inventory

  // --- Health and room -------------------------------------------------------------------------

  /** The configured reserve of bytes and of percent is there, as far as the agent reports them. */
  predicate Room(a: Agent, cfg: StorageConfig) {
    && (cfg.minFreeBytes <= 0 || a.freeBytes <= 0 || cfg.minFreeBytes <= a.freeBytes)
    && (cfg.minFreePercent <= 0.0 || a.totalBytes <= 0 || cfg.minFreePercent <= a.freePercent)
  }

  /** Unhealthy storage is good for nothing; degraded storage is read, receives nothing and counts unless it is being
      evacuated; unreported health is read and no more; any other storage is read and counts, and receives data
      while it has room. Without health checks everything goes. */
  lemma HealthDecides(a: Agent, cfg: StorageConfig)
    ensures !cfg.enabled ==> Readable(a, cfg) && CountsDurable(a, cfg) && AcceptsPlacement(a, cfg)
    ensures cfg.enabled && a.storageHealth == "unhealthy" ==> !Readable(a, cfg) && !CountsDurable(a, cfg) && !AcceptsPlacement(a, cfg)
    ensures cfg.enabled && a.storageHealth == "degraded" ==>
              Readable(a, cfg) && !AcceptsPlacement(a, cfg) && (CountsDurable(a, cfg) <==> !cfg.evacuateDegraded)
    ensures cfg.enabled && TrimSpace(a.storageHealth) == "" ==> Readable(a, cfg) && !CountsDurable(a, cfg) && !AcceptsPlacement(a, cfg)
    ensures cfg.enabled && a.storageHealth !in {"unhealthy", "degraded"} && TrimSpace(a.storageHealth) != "" ==>
              Readable(a, cfg) && CountsDurable(a, cfg) && (AcceptsPlacement(a, cfg) <==> Room(a, cfg))
  {
    TrimNothing("unhealthy");
    TrimNothing("degraded");
    assert "unhealthy"[0] != "degraded"[0];
  }

  /** An object fits an agent that receives data if storing it leaves the reserve, where free space is reported. */
  lemma RoomForObject(a: Agent, cfg: StorageConfig, bytes: int)
    ensures !AcceptsPlacement(a, cfg) ==> !HasCapacityFor(a, cfg, bytes)
    ensures AcceptsPlacement(a, cfg) && (bytes <= 0 || a.freeBytes <= 0) ==> HasCapacityFor(a, cfg, bytes)
    ensures AcceptsPlacement(a, cfg) && 0 < bytes && 0 < a.freeBytes ==>
              (HasCapacityFor(a, cfg, bytes) <==> bytes <= a.freeBytes && cfg.minFreeBytes + bytes <= a.freeBytes)
  {
  }

  // --- Names -------------------------------------------------------------------------------------

  /** A list names an agent up to blanks around the name and letter case. */
  lemma ListsDecide(id: string, allowed: seq<string>, excluded: seq<string>)
    ensures (exists x :: x in excluded && Lower(TrimSpace(x)) == Lower(id)) ==> !Allowed(id, allowed, excluded)
    ensures (forall x :: x in excluded ==> Lower(TrimSpace(x)) != Lower(id)) ==>
              (Allowed(id, allowed, excluded) <==> |allowed| == 0 || exists x :: x in allowed && Lower(TrimSpace(x)) == Lower(id))
  {
    if x :| x in excluded && Lower(TrimSpace(x)) == Lower(id) {
      var i :| 0 <= i < |excluded| && excluded[i] == x;
    }
    if x :| x in allowed && Lower(TrimSpace(x)) == Lower(id) {
      var i :| 0 <= i < |allowed| && allowed[i] == x;
    }
  }

  // --- Labels --------------------------------------------------------------------------------------

  /** The agent has this text, blanks trimmed, under the label, and no label that is not text. */
  predicate Labelled(a: Agent, name: string, value: string) {
    && a.labels.Some? && (forall l :: l in a.labels.value ==> a.labels.value[l].Text?)
    && name in a.labels.value && TrimSpace(a.labels.value[name].text) == value
  }

  /** Two labelled agents share a failure domain if and only if their labels agree; this host's domain is its own,
      and without a usable label an agent is a domain by itself. */
  lemma LabelsDecideDomains(a: Agent, b: Agent, key: string, x: string, y: string)
    requires a.id != LOCAL && b.id != LOCAL && TrimSpace(key) != "" && x != "" && y != ""
    requires Labelled(a, TrimSpace(key), x) && Labelled(b, TrimSpace(key), y)
    ensures FailureDomain(a, key) == x && FailureDomain(b, key) == y
    ensures ShardDomain(a.id, a, key) == ShardDomain(b.id, b, key) <==> x == y
  {
  }

  /** Agents that share no domain: without the label, with a blank or null one, or with a label that is neither text
      nor null, an agent has no domain of its name, and for shards a domain of its own. */
  lemma UnlabelledStandAlone(a: Agent, key: string)
    requires a.id != LOCAL
    requires || TrimSpace(key) == "" || a.labels == None || TrimSpace(key) !in a.labels.value
             || a.labels.value[TrimSpace(key)] == Null
             || (exists l :: l in a.labels.value && (a.labels.value[l].Number? || a.labels.value[l].Other?))
             || (a.labels.value[TrimSpace(key)].Text? && TrimSpace(a.labels.value[TrimSpace(key)].text) == "")
    ensures FailureDomain(a, key) == "" && ShardDomain(a.id, a, key) == "__agent__:" + a.id
  {
    if l :| a.labels.Some? && l in a.labels.value && (a.labels.value[l].Number? || a.labels.value[l].Other?) {
      assert AsText(a.labels.value[l]).None?;
    }
  }

  /** This host is one domain, whatever its labels. */
  lemma HostIsOneDomain(a: Agent, key: string)
    requires a.id == LOCAL
    ensures FailureDomain(a, key) == if TrimSpace(key) == "" then "" else "__local__"
  {
  }

  /** Storage pools go by label in the same way, with a default for the rest. */
  lemma LabelsDecidePools(a: Agent, name: string)
    ensures forall x :: TrimSpace(name) != "" && Labelled(a, TrimSpace(name), x) ==>
              CasReconcile.PoolOf(a, name) == if x == "" then "default" else x
    ensures (|| TrimSpace(name) == "" || a.labels == None || TrimSpace(name) !in a.labels.value
             || (exists l :: l in a.labels.value && (a.labels.value[l].Number? || a.labels.value[l].Other?))) ==>
              CasReconcile.PoolOf(a, name) == "default"
  {
    if a.labels.Some? {
      if l :| l in a.labels.value && (a.labels.value[l].Number? || a.labels.value[l].Other?) {
        assert AsText(a.labels.value[l]).None?;
      }
    }
  }

  /** An agent is in a shard pool when the pool has no name, or the agent has its label, and not as blank text. */
  lemma LabelsDecideShardPools(a: Agent, name: string)
    ensures TrimSpace(name) == "" ==> InShardPool(a, name)
    ensures TrimSpace(name) != "" && (a.labels == None || TrimSpace(name) !in a.labels.value) ==> !InShardPool(a, name)
    ensures TrimSpace(name) != "" && a.labels.Some? && TrimSpace(name) in a.labels.value ==>
              (InShardPool(a, name) <==> forall t :: a.labels.value[TrimSpace(name)] == Text(t) ==> TrimSpace(t) != "")
  {
  }

  // --- Bandwidth ---------------------------------------------------------------------------------------

  function Places(n: nat): nat {
    if n < 10 then 10 else 10 * Places(n / 10)
  }

  lemma Tens(p: nat, acc: nat, n: nat)
    ensures 10 * (p * acc + n / 10) + n % 10 == 10 * p * acc + n
  {
  }

  /** Reading the digits of a number and then going on. */
  lemma {:induction false} DigitsJoin(n: nat, rest: string, acc: nat, p: nat)
    requires p == Places(n)
    ensures Digits(Inventory.Decimal(n) + rest, acc) == Digits(rest, p * acc + n)
    decreases n
  {
    var d := Inventory.Decimal(n);
    if n < 10 {
      assert d == [Inventory.DIGITS[n]] && Inventory.DIGITS[n] as int == 48 + n;
      assert (d + rest)[1..] == rest;
    } else {
      var last := [Inventory.DIGITS[n % 10]];
      assert d + rest == Inventory.Decimal(n / 10) + (last + rest);
      DigitsJoin(n / 10, last + rest, acc, Places(n / 10));
      assert Inventory.DIGITS[n % 10] as int == 48 + n % 10;
      assert (last + rest)[1..] == rest;
      Tens(Places(n / 10), acc, n);
    }
  }

  /** A text that begins with a number, signed or not, reads as that number. */
  lemma LeadingIntReads(n: nat, rest: string)
    requires rest == "" || !('0' <= rest[0] <= '9')
    ensures LeadingInt(Inventory.Decimal(n) + rest) == n
    ensures LeadingInt("-" + (Inventory.Decimal(n) + rest)) == -(n as int)
    ensures LeadingInt("+" + (Inventory.Decimal(n) + rest)) == n
  {
    var d := Inventory.Decimal(n) + rest;
    DigitsJoin(n, rest, 0, Places(n));
    FirstDigit(n);
    assert d[0] == Inventory.Decimal(n)[0] && Digits(rest, n) == n;
    assert ("-" + d)[1..] == d && ("+" + d)[1..] == d;
  }

  /** A bandwidth label counts as its number, or as the number its text begins with; any other agent has none. */
  lemma BandwidthIsRead(a: Agent)
    requires a.labels.Some?
    ensures "bandwidth_mbps" !in a.labels.value ==> Bandwidth(a) == 0
    ensures forall m :: "bandwidth_mbps" in a.labels.value && a.labels.value["bandwidth_mbps"] == Number(m) ==> Bandwidth(a) == m
    ensures forall t :: "bandwidth_mbps" in a.labels.value && a.labels.value["bandwidth_mbps"] == Text(t) ==>
              Bandwidth(a) == LeadingInt(TrimSpace(t))
    ensures "bandwidth_mbps" in a.labels.value && a.labels.value["bandwidth_mbps"] in {Null, Other} ==> Bandwidth(a) == 0
  {
  }

  lemma {:induction false} FirstDigit(n: nat)
    ensures '0' <= Inventory.Decimal(n)[0] <= '9'
  {
    if n >= 10 {
      FirstDigit(n / 10);
    } else {
      assert Inventory.DIGITS[n] as int == 48 + n;
    }
  }
}
